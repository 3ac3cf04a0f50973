/** Which rows the publisher's loop gets through, and when failing rows keep others waiting. */
module Starvation {
  import opened Wrappers
  import opened Json
  import opened Outbox
  import opened Publisher

  predicate UniqueEvents(rows: seq<OutboxRow>) {
    forall i, j :: 0 <= i < j < |rows| ==> rows[i].eventId != rows[j].eventId
  }

  /** The event ids still to be published. */
  function Unpublished(rows: seq<OutboxRow>): set<string> {
    set i | 0 <= i < |rows| && rows[i].published.None? :: rows[i].eventId
  }

  /** The same rows, some of them marked since. */
  predicate SameRows(a: seq<OutboxRow>, b: seq<OutboxRow>) {
    && |a| == |b|
    && forall i | 0 <= i < |a| :: b[i] == a[i].(published := b[i].published)
  }

  predicate Hit(eventId: string, events: seq<OutboxRow>, oracle: Oracle) {
    exists k | 0 <= k < |events| :: events[k].eventId == eventId && Succeeds(events[k], oracle(eventId))
  }

  /** A batch marks exactly the listed rows that succeed. */
  lemma {:induction false} BatchMarks(rows: seq<OutboxRow>, topic: seq<Record>, events: seq<OutboxRow>, now: int64,
                                      oracle: Oracle)
    ensures var after := PublishAll(rows, topic, events, now, oracle).rows;
            && |after| == |rows|
            && forall i | 0 <= i < |rows| ::
                 after[i] == if Hit(rows[i].eventId, events, oracle) then rows[i].(published := Some(now)) else rows[i]
  {
    if events != [] {
      var front, e := events[..|events| - 1], events[|events| - 1];
      BatchMarks(rows, topic, front, now, oracle);
      forall i | 0 <= i < |rows|
        ensures Hit(rows[i].eventId, events, oracle) <==>
                Hit(rows[i].eventId, front, oracle) || (e.eventId == rows[i].eventId && Succeeds(e, oracle(e.eventId)))
      {
        if k :| 0 <= k < |front| && front[k].eventId == rows[i].eventId && Succeeds(front[k], oracle(rows[i].eventId)) {
          assert events[k] == front[k];
        }
        if k :| 0 <= k < |events| && events[k].eventId == rows[i].eventId &&
                Succeeds(events[k], oracle(rows[i].eventId)) && k < |front|
        {
          assert front[k] == events[k];
        }
      }
    }
  }

  /** The events of the rows that a tick would publish if it listed them. */
  function Winners(rows: seq<OutboxRow>, oracle: Oracle): set<string> {
    set i | 0 <= i < |rows| && Succeeds(rows[i], oracle(rows[i].eventId)) :: rows[i].eventId
  }

  /** In this tick the rows named in `poison` fail and all others succeed. */
  predicate Splits(rows: seq<OutboxRow>, tick: Tick, poison: set<string>) {
    !tick.listFails && Winners(rows, tick.oracle) == EventIds(rows) - poison
  }

  function Good(rows: seq<OutboxRow>, poison: set<string>): set<string> {
    Unpublished(rows) - poison
  }

  function Poisoned(rows: seq<OutboxRow>, poison: set<string>): set<string> {
    Unpublished(rows) * poison
  }

  function EventIds(events: seq<OutboxRow>): set<string> {
    set k | 0 <= k < |events| :: events[k].eventId
  }

  lemma {:induction false} EventIdsSize(events: seq<OutboxRow>)
    requires UniqueEvents(events)
    ensures |EventIds(events)| == |events|
  {
    if events != [] {
      var front, e := events[..|events| - 1], events[|events| - 1];
      EventIdsSize(front);
      assert e.eventId !in EventIds(front);
      assert EventIds(events) == EventIds(front) + {e.eventId} by {
        forall k | 0 <= k < |front| ensures front[k].eventId in EventIds(events) { assert events[k] == front[k]; }
        assert events[|front|].eventId in EventIds(events);
      }
    }
  }

  /** What a listing covers: only unpublished rows, as many as the limit unless it has them all. */
  lemma ListingCovers(rows: seq<OutboxRow>, limit: nat, events: seq<OutboxRow>)
    requires UniqueEvents(rows) && IsListing(rows, limit, events)
    ensures UniqueEvents(events)
    ensures EventIds(events) <= Unpublished(rows)
    ensures |EventIds(events)| == limit || EventIds(events) == Unpublished(rows)
  {
    forall i, j | 0 <= i < j < |events| ensures events[i].eventId != events[j].eventId {
      var a :| 0 <= a < |rows| && rows[a] == events[i];
      var b :| 0 <= b < |rows| && rows[b] == events[j];
    }
    EventIdsSize(events);
    forall k | 0 <= k < |events| ensures events[k].eventId in Unpublished(rows) {
      var a :| 0 <= a < |rows| && rows[a] == events[k];
    }
    if |events| < limit {
      forall i | 0 <= i < |rows| && rows[i].published.None? ensures rows[i].eventId in EventIds(events) {
        var k :| 0 <= k < |events| && events[k] == rows[i];
      }
    }
  }

  lemma HitExactly(rows: seq<OutboxRow>, listed: seq<OutboxRow>, tick: Tick, poison: set<string>, i: nat)
    requires UniqueEvents(rows) && IsListing(rows, BATCH, listed) && Splits(rows, tick, poison) && i < |rows|
    ensures Hit(rows[i].eventId, listed, tick.oracle) <==> rows[i].eventId in EventIds(listed) - poison
  {
    var id := rows[i].eventId;
    assert id in EventIds(rows);
    assert Succeeds(rows[i], tick.oracle(id)) <==> id !in poison by {
      if id in Winners(rows, tick.oracle) {
        var a :| 0 <= a < |rows| && Succeeds(rows[a], tick.oracle(rows[a].eventId)) && rows[a].eventId == id;
        assert a == i;
      }
    }
    if k :| 0 <= k < |listed| && listed[k].eventId == id {
      var a :| 0 <= a < |rows| && rows[a] == listed[k];
      assert a == i;
    }
  }

  /** The good rows a listing covers are gone after the tick; the poisoned ones stay. */
  lemma TickUnpublished(before: seq<OutboxRow>, listed: seq<OutboxRow>, tick: Tick, poison: set<string>)
    requires UniqueEvents(before) && IsListing(before, BATCH, listed) && Splits(before, tick, poison)
    ensures var after := PublishAll(before, [], listed, tick.now, tick.oracle).rows;
            && SameRows(before, after)
            && Unpublished(after) == Unpublished(before) - (EventIds(listed) - poison)
  {
    var after := PublishAll(before, [], listed, tick.now, tick.oracle).rows;
    BatchMarks(before, [], listed, tick.now, tick.oracle);
    forall i | 0 <= i < |before|
      ensures Hit(before[i].eventId, listed, tick.oracle) <==> before[i].eventId in EventIds(listed) - poison
    {
      HitExactly(before, listed, tick, poison, i);
    }
    forall id | id in Unpublished(after) ensures id in Unpublished(before) - (EventIds(listed) - poison) {
      var i :| 0 <= i < |after| && after[i].published.None? && after[i].eventId == id;
      assert before[i].eventId == id;
    }
    forall id | id in Unpublished(before) - (EventIds(listed) - poison) ensures id in Unpublished(after) {
      var i :| 0 <= i < |before| && before[i].published.None? && before[i].eventId == id;
      assert after[i].eventId == id && after[i].published.None?;
    }
  }

  /** Taking away the good part of `ids`, which is all of `open` or has `limit` elements. */
  lemma GoodLeft(open: set<string>, ids: set<string>, poison: set<string>, limit: nat)
    requires ids <= open && (|ids| == limit || ids == open)
    ensures var left := open - (ids - poison);
            && left * poison == open * poison && left - poison <= open - poison
            && (left - poison == {} || |left - poison| + limit <= |open - poison| + |open * poison|)
  {
    var left := open - (ids - poison);
    assert left * poison == open * poison;
    assert left - poison == (open - poison) - ids;
    if |ids| == limit {
      TakenSize(open, ids, poison);
    } else {
      assert left - poison == {};
    }
  }

  lemma TakenSize(open: set<string>, ids: set<string>, poison: set<string>)
    requires ids <= open
    ensures |(open - poison) - ids| + |ids| <= |open - poison| + |open * poison|
  {
    assert |ids| == |ids - poison| + |ids * poison| by {
      assert ids == (ids - poison) + (ids * poison);
    }
    SubsetSize(ids * poison, open * poison);
    assert |open - poison| == |(open - poison) - ids| + |ids - poison| by {
      assert open - poison == ((open - poison) - ids) + (ids - poison);
    }
  }

  lemma SplitsKept(rows: seq<OutboxRow>, later: seq<OutboxRow>, tick: Tick, poison: set<string>)
    requires SameRows(rows, later) && Splits(rows, tick, poison)
    ensures Splits(later, tick, poison)
  {
    assert EventIds(later) == EventIds(rows) by {
      forall i | 0 <= i < |rows|
        ensures rows[i].eventId in EventIds(later) { assert later[i].eventId == rows[i].eventId; }
      forall i | 0 <= i < |rows|
        ensures later[i].eventId in EventIds(rows) { assert later[i].eventId == rows[i].eventId; }
    }
    forall i | 0 <= i < |rows|
      ensures Succeeds(later[i], tick.oracle(later[i].eventId)) == Succeeds(rows[i], tick.oracle(rows[i].eventId))
    {
    }
    forall id ensures id in Winners(later, tick.oracle) <==> id in Winners(rows, tick.oracle) {
      if i :| 0 <= i < |rows| && Succeeds(rows[i], tick.oracle(rows[i].eventId)) && rows[i].eventId == id {
        assert later[i].eventId == id;
      }
      if i :| 0 <= i < |rows| && Succeeds(later[i], tick.oracle(later[i].eventId)) && later[i].eventId == id {
        assert rows[i].eventId == id;
      }
    }
  }

  lemma UniqueKept(rows: seq<OutboxRow>, later: seq<OutboxRow>)
    requires SameRows(rows, later) && UniqueEvents(rows)
    ensures UniqueEvents(later)
  {
  }

  /** One tick with p poisoned rows publishes at least 100 - p good rows, or all of them. */
  lemma TickProgress(before: seq<OutboxRow>, after: seq<OutboxRow>, tick: Tick, poison: set<string>)
    requires UniqueEvents(before) && IsTick(before, after, tick) && Splits(before, tick, poison)
    ensures SameRows(before, after)
    ensures Poisoned(after, poison) == Poisoned(before, poison) && Good(after, poison) <= Good(before, poison)
    ensures Good(after, poison) == {}
            || |Good(after, poison)| + BATCH <= |Good(before, poison)| + |Poisoned(before, poison)|
  {
    var listed: seq<OutboxRow> :| IsListing(before, BATCH, listed)
      && after == PublishAll(before, [], listed, tick.now, tick.oracle).rows;
    TickUnpublished(before, listed, tick, poison);
    ListingCovers(before, BATCH, listed);
    GoodLeft(Unpublished(before), EventIds(listed), poison, BATCH);
  }

  lemma {:induction false} SubsetSize<T>(a: set<T>, b: set<T>)
    requires a <= b
    ensures |a| <= |b|
  {
    assert b == a + (b - a);
  }

  predicate SplitAt(rows: seq<OutboxRow>, ticks: seq<Tick>, poison: set<string>, k: nat)
    requires k < |ticks|
  {
    Splits(rows, ticks[k], poison)
  }

  predicate AllSplit(rows: seq<OutboxRow>, ticks: seq<Tick>, poison: set<string>) {
    forall k | 0 <= k < |ticks| :: SplitAt(rows, ticks, poison, k)
  }

  lemma StepAt(history: seq<seq<OutboxRow>>, ticks: seq<Tick>, poison: set<string>, t: nat)
    requires IsHistory(history, ticks) && AllSplit(history[0], ticks, poison) && t < |ticks|
    ensures Splits(history[0], ticks[t], poison) && IsTick(history[t], history[t + 1], ticks[t])
  {
    assert SplitAt(history[0], ticks, poison, t) && TickAt(history, ticks, t);
  }

  /** How many good rows a tick gets through, behind the poisoned ones. */
  function PerTick(rows: seq<OutboxRow>, poison: set<string>): int {
    BATCH - |Poisoned(rows, poison)|
  }

  /** No row named in `poison` has been marked since, or lost its mark. */
  predicate PoisonKept(rows: seq<OutboxRow>, later: seq<OutboxRow>, poison: set<string>) {
    && |later| == |rows|
    && forall i | 0 <= i < |rows| && rows[i].eventId in poison :: later[i].published.None? <==> rows[i].published.None?
  }

  lemma PoisonedKept(rows: seq<OutboxRow>, later: seq<OutboxRow>, poison: set<string>)
    requires SameRows(rows, later) && PoisonKept(rows, later, poison)
    ensures Poisoned(later, poison) == Poisoned(rows, poison)
  {
    forall id | id in Poisoned(later, poison) ensures id in Poisoned(rows, poison) {
      var i :| 0 <= i < |later| && later[i].published.None? && later[i].eventId == id;
      assert rows[i].eventId == id;
    }
    forall id | id in Poisoned(rows, poison) ensures id in Poisoned(later, poison) {
      var i :| 0 <= i < |rows| && rows[i].published.None? && rows[i].eventId == id;
      assert later[i].eventId == id;
    }
  }

  lemma PoisonStays(before: seq<OutboxRow>, after: seq<OutboxRow>, poison: set<string>)
    requires UniqueEvents(before) && SameRows(before, after) && Poisoned(after, poison) == Poisoned(before, poison)
    ensures PoisonKept(before, after, poison)
  {
    UniqueKept(before, after);
    forall i | 0 <= i < |before| && before[i].eventId in poison
      ensures after[i].published.None? <==> before[i].published.None?
    {
      UnpublishedExactly(before, i);
      UnpublishedExactly(after, i);
      assert after[i].eventId in Poisoned(after, poison) <==> before[i].eventId in Poisoned(before, poison);
    }
  }

  lemma PoisonKeptTransitive(a: seq<OutboxRow>, b: seq<OutboxRow>, c: seq<OutboxRow>, poison: set<string>)
    requires SameRows(a, b) && PoisonKept(a, b, poison) && PoisonKept(b, c, poison)
    ensures PoisonKept(a, c, poison)
  {
  }

  /** Some ticks later: the rows are the same but for marks, the poisoned ones are all still there, and
      of the good ones at least `done` are published, or all of them. */
  ghost predicate Progress(rows: seq<OutboxRow>, later: seq<OutboxRow>, poison: set<string>, done: int) {
    && SameRows(rows, later) && PoisonKept(rows, later, poison)
    && (|Good(later, poison)| == 0 || |Good(later, poison)| + done <= |Good(rows, poison)|)
  }

  lemma ProgressStart(rows: seq<OutboxRow>, poison: set<string>)
    ensures Progress(rows, rows, poison, 0)
  {
  }

  lemma ProgressStep(rows: seq<OutboxRow>, before: seq<OutboxRow>, after: seq<OutboxRow>, tick: Tick,
                     poison: set<string>, done: int)
    requires UniqueEvents(rows) && Progress(rows, before, poison, done)
    requires Splits(rows, tick, poison) && IsTick(before, after, tick)
    ensures Progress(rows, after, poison, done + PerTick(rows, poison))
  {
    SplitsKept(rows, before, tick, poison);
    UniqueKept(rows, before);
    TickProgress(before, after, tick, poison);
    SameRowsTransitive(rows, before, after);
    PoisonStays(before, after, poison);
    PoisonKeptTransitive(rows, before, after, poison);
    PoisonedKept(rows, before, poison);
  }

  lemma SameRowsTransitive(a: seq<OutboxRow>, b: seq<OutboxRow>, c: seq<OutboxRow>)
    requires SameRows(a, b) && SameRows(b, c)
    ensures SameRows(a, c)
  {
  }

  /** `t` ticks of `k` rows each. */
  function Times(t: nat, k: int): int {
    if t == 0 then 0 else Times(t - 1, k) + k
  }

  lemma {:induction false} TimesIsProduct(t: nat, k: int)
    ensures Times(t, k) == t * k
  {
    if t > 0 {
      TimesIsProduct(t - 1, k);
      assert t * k == (t - 1) * k + k;
    }
  }

  /** Up to tick `t`, progress at 100 - p good rows a tick. */
  ghost predicate ProgressAt(history: seq<seq<OutboxRow>>, poison: set<string>, t: nat)
    requires t < |history|
  {
    && (t > 0 ==> ProgressAt(history, poison, t - 1))
    && Progress(history[0], history[t], poison, Times(t, PerTick(history[0], poison)))
  }

  lemma ProgressNext(history: seq<seq<OutboxRow>>, ticks: seq<Tick>, poison: set<string>, t: nat)
    requires IsHistory(history, ticks) && UniqueEvents(history[0]) && t < |ticks|
    requires AllSplit(history[0], ticks, poison) && ProgressAt(history, poison, t)
    ensures ProgressAt(history, poison, t + 1)
  {
    StepAt(history, ticks, poison, t);
    ProgressStep(history[0], history[t], history[t + 1], ticks[t], poison, Times(t, PerTick(history[0], poison)));
  }

  /** Every tick publishes at least 100 - p good rows. */
  lemma {:induction false} ProgressAfter(history: seq<seq<OutboxRow>>, ticks: seq<Tick>, poison: set<string>, t: nat)
    requires IsHistory(history, ticks) && UniqueEvents(history[0]) && t <= |ticks|
    requires AllSplit(history[0], ticks, poison)
    ensures ProgressAt(history, poison, t)
  {
    if t == 0 {
      ProgressStart(history[0], poison);
    } else {
      ProgressAfter(history, ticks, poison, t - 1);
      ProgressNext(history, ticks, poison, t - 1);
    }
  }

  lemma AllGoodDone(rows: seq<OutboxRow>, later: seq<OutboxRow>, poison: set<string>, done: int)
    requires Progress(rows, later, poison, done) && done >= |Good(rows, poison)|
    ensures Unpublished(later) == Poisoned(rows, poison)
  {
    PoisonedKept(rows, later, poison);
    assert Good(later, poison) == {};
    assert Unpublished(later) == Good(later, poison) + Poisoned(later, poison);
  }

  lemma AllGoodPublished(history: seq<seq<OutboxRow>>, ticks: seq<Tick>, poison: set<string>)
    requires IsHistory(history, ticks) && UniqueEvents(history[0])
    requires AllSplit(history[0], ticks, poison)
    requires |ticks| * PerTick(history[0], poison) >= |Good(history[0], poison)|
    ensures Unpublished(history[|ticks|]) == Poisoned(history[0], poison)
  {
    ProgressAfter(history, ticks, poison, |ticks|);
    TimesIsProduct(|ticks|, PerTick(history[0], poison));
    AllGoodDone(history[0], history[|ticks|], poison, Times(|ticks|, PerTick(history[0], poison)));
  }

  /** A bounded set of failing rows cannot starve the rest: with p < 100 rows that always fail and g
      others that succeed, as soon as t ticks satisfy t * (100 - p) >= g all g are published, that is
      after ceil(g / (100 - p)) ticks; and the failing rows are still there to be retried. */
  lemma NoStarvation(history: seq<seq<OutboxRow>>, ticks: seq<Tick>, poison: set<string>, p: nat, g: nat)
    requires IsHistory(history, ticks) && UniqueEvents(history[0])
    requires AllSplit(history[0], ticks, poison)
    requires p == |Poisoned(history[0], poison)| < 100 && g == |Good(history[0], poison)|
    requires |ticks| * (100 - p) >= g
    ensures Unpublished(history[|ticks|]) == Poisoned(history[0], poison)
  {
    assert PerTick(history[0], poison) == 100 - p;
    AllGoodPublished(history, ticks, poison);
  }

  /** The poisoned rows older than row `i`. */
  function OlderPoison(rows: seq<OutboxRow>, poison: set<string>, i: nat): set<string>
    requires i < |rows|
  {
    set j | 0 <= j < |rows| && rows[j].published.None? && rows[j].eventId in poison
      && rows[j].created < rows[i].created :: rows[j].eventId
  }

  predicate IsOlder(rows: seq<OutboxRow>, i: nat, id: string)
    requires i < |rows|
  {
    exists j | 0 <= j < |rows| :: rows[j].eventId == id && rows[j].published.None? && rows[j].created < rows[i].created
  }

  /** A listing leaves out a row when it is full of older ones. */
  lemma CrowdedOut(rows: seq<OutboxRow>, events: seq<OutboxRow>, i: nat, older: set<string>)
    requires UniqueEvents(rows) && IsListing(rows, BATCH, events) && i < |rows|
    requires |older| >= BATCH
    requires forall id | id in older :: IsOlder(rows, i, id)
    ensures rows[i] !in events
  {
    if rows[i] in events {
      ListingCovers(rows, BATCH, events);
      EventIdsSize(events);
      forall id | id in older ensures id in EventIds(events) - {rows[i].eventId} {
        assert IsOlder(rows, i, id);
        var j :| 0 <= j < |rows| && rows[j].eventId == id && rows[j].published.None?
          && rows[j].created < rows[i].created;
        assert rows[j] in events;
        var k :| 0 <= k < |events| && events[k] == rows[j];
      }
      assert rows[i].eventId in EventIds(events);
      SubsetSize(older, EventIds(events) - {rows[i].eventId});
    }
  }

  lemma StarvedNext(history: seq<seq<OutboxRow>>, ticks: seq<Tick>, poison: set<string>, i: nat, t: nat)
    requires IsHistory(history, ticks) && UniqueEvents(history[0]) && i < |history[0]| && t < |ticks|
    requires AllSplit(history[0], ticks, poison)
    requires history[0][i].published.None? && |OlderPoison(history[0], poison, i)| >= BATCH
    requires Starved(history[0], history[t], poison, i)
    ensures Starved(history[0], history[t + 1], poison, i)
  {
    StepAt(history, ticks, poison, t);
    StarvedStep(history[0], history[t], history[t + 1], ticks[t], poison, i);
  }

  /** The bound on failing rows is sharp: behind 100 older rows that always fail, a row is never
      published, however many ticks pass. */
  lemma {:induction false} StarvesBehindBatch(history: seq<seq<OutboxRow>>, ticks: seq<Tick>, poison: set<string>,
                                              i: nat, t: nat)
    requires IsHistory(history, ticks) && UniqueEvents(history[0]) && i < |history[0]| && t <= |ticks|
    requires AllSplit(history[0], ticks, poison)
    requires history[0][i].published.None? && |OlderPoison(history[0], poison, i)| >= 100
    ensures Starved(history[0], history[t], poison, i)
  {
    if t > 0 {
      StarvesBehindBatch(history, ticks, poison, i, t - 1);
      StarvedNext(history, ticks, poison, i, t - 1);
    }
  }

  ghost predicate Starved(rows: seq<OutboxRow>, later: seq<OutboxRow>, poison: set<string>, i: nat)
    requires i < |rows|
  {
    SameRows(rows, later) && Poisoned(later, poison) == Poisoned(rows, poison) && later[i] == rows[i]
  }

  lemma StarvedStep(rows: seq<OutboxRow>, before: seq<OutboxRow>, after: seq<OutboxRow>, tick: Tick,
                    poison: set<string>, i: nat)
    requires UniqueEvents(rows) && i < |rows| && Starved(rows, before, poison, i)
    requires Splits(rows, tick, poison) && IsTick(before, after, tick)
    requires rows[i].published.None? && |OlderPoison(rows, poison, i)| >= BATCH
    ensures Starved(rows, after, poison, i)
  {
    SplitsKept(rows, before, tick, poison);
    UniqueKept(rows, before);
    OlderPoisonKept(rows, before, poison, i);
    StarvedTick(before, after, tick, poison, i);
    SameRowsTransitive(rows, before, after);
  }

  lemma OlderPoisonKept(rows: seq<OutboxRow>, later: seq<OutboxRow>, poison: set<string>, i: nat)
    requires SameRows(rows, later) && UniqueEvents(rows) && i < |rows|
    requires Poisoned(later, poison) == Poisoned(rows, poison)
    ensures OlderPoison(later, poison, i) == OlderPoison(rows, poison, i)
  {
    forall j | 0 <= j < |rows| && rows[j].eventId in poison
      ensures later[j].published.None? <==> rows[j].published.None?
    {
      UniqueKept(rows, later);
      assert rows[j].published.None? <==> rows[j].eventId in Poisoned(rows, poison);
      assert later[j].published.None? <==> later[j].eventId in Poisoned(later, poison);
    }
    forall id ensures id in OlderPoison(later, poison, i) <==> id in OlderPoison(rows, poison, i) {
      if j :| 0 <= j < |rows| && rows[j].published.None? && rows[j].eventId in poison &&
              rows[j].created < rows[i].created && rows[j].eventId == id
      {
        assert later[j].eventId == id && later[j].published.None?;
      }
      if j :| 0 <= j < |rows| && later[j].published.None? && later[j].eventId in poison &&
              later[j].created < later[i].created && later[j].eventId == id
      {
        assert rows[j].eventId == id && rows[j].published.None?;
      }
    }
  }

  lemma StarvedTick(rows: seq<OutboxRow>, after: seq<OutboxRow>, tick: Tick, poison: set<string>, i: nat)
    requires UniqueEvents(rows) && IsTick(rows, after, tick) && Splits(rows, tick, poison) && i < |rows|
    requires rows[i].published.None? && |OlderPoison(rows, poison, i)| >= BATCH
    ensures SameRows(rows, after) && Poisoned(after, poison) == Poisoned(rows, poison)
    ensures after[i] == rows[i]
  {
    TickProgress(rows, after, tick, poison);
    var listed: seq<OutboxRow> :| IsListing(rows, BATCH, listed)
      && after == PublishAll(rows, [], listed, tick.now, tick.oracle).rows;
    TickUnpublished(rows, listed, tick, poison);
    CrowdedOut(rows, listed, i, OlderPoison(rows, poison, i));
    ListedById(rows, listed, i);
    assert rows[i].eventId in Unpublished(rows);
    StillUnpublished(rows, after, i);
  }

  lemma StillUnpublished(rows: seq<OutboxRow>, after: seq<OutboxRow>, i: nat)
    requires UniqueEvents(rows) && SameRows(rows, after) && i < |rows|
    requires rows[i].published.None? && rows[i].eventId in Unpublished(after)
    ensures after[i] == rows[i]
  {
    var j :| 0 <= j < |after| && after[j].published.None? && after[j].eventId == rows[i].eventId;
    assert after[j].eventId == rows[j].eventId;
    assert j == i;
  }

  lemma ListedById(rows: seq<OutboxRow>, listed: seq<OutboxRow>, i: nat)
    requires UniqueEvents(rows) && IsListing(rows, BATCH, listed) && i < |rows|
    ensures rows[i].eventId in EventIds(listed) ==> rows[i] in listed
  {
    if k :| 0 <= k < |listed| && listed[k].eventId == rows[i].eventId {
      var a :| 0 <= a < |rows| && rows[a] == listed[k];
      assert a == i;
    }
  }

  // ----- one row -----

  /** The events still to be published whose rows are no younger than `at`. */
  function Waiting(rows: seq<OutboxRow>, at: int64): set<string> {
    set i | 0 <= i < |rows| && rows[i].published.None? && rows[i].created <= at :: rows[i].eventId
  }

  lemma InWaiting(rows: seq<OutboxRow>, at: int64, i: nat)
    requires UniqueEvents(rows) && i < |rows|
    ensures rows[i].eventId in Waiting(rows, at) <==> rows[i].published.None? && rows[i].created <= at
  {
    if j :| 0 <= j < |rows| && rows[j].published.None? && rows[j].created <= at && rows[j].eventId == rows[i].eventId {
      assert j == i;
    }
  }

  /** What is published in a tick no longer waits; nothing else changes. */
  lemma WaitingAfter(before: seq<OutboxRow>, after: seq<OutboxRow>, gone: set<string>, at: int64)
    requires UniqueEvents(before) && SameRows(before, after)
    requires Unpublished(after) == Unpublished(before) - gone
    ensures Waiting(after, at) == Waiting(before, at) - gone
  {
    UniqueKept(before, after);
    forall i | 0 <= i < |before|
      ensures after[i].eventId in Waiting(after, at) <==> before[i].eventId in Waiting(before, at) - gone
    {
      InWaiting(before, at, i);
      InWaiting(after, at, i);
      UnpublishedExactly(before, i);
      UnpublishedExactly(after, i);
    }
    forall id | id in Waiting(after, at) ensures id in Waiting(before, at) - gone {
      var i :| 0 <= i < |after| && after[i].eventId == id && after[i].published.None?;
      assert before[i].eventId == id;
    }
    forall id | id in Waiting(before, at) - gone ensures id in Waiting(after, at) {
      var i :| 0 <= i < |before| && before[i].eventId == id && before[i].published.None?;
      assert after[i].eventId == id;
    }
  }

  /** A listing that leaves out a waiting row is full of rows that are no younger. */
  lemma LeftOut(rows: seq<OutboxRow>, listed: seq<OutboxRow>, i: nat)
    requires UniqueEvents(rows) && IsListing(rows, BATCH, listed) && i < |rows| && rows[i].published.None?
    requires rows[i].eventId !in EventIds(listed)
    ensures EventIds(listed) <= Waiting(rows, rows[i].created) && |EventIds(listed)| == BATCH
  {
    ListingCovers(rows, BATCH, listed);
    UnpublishedExactly(rows, i);
    forall k | 0 <= k < |listed| ensures listed[k] != rows[i] {
      assert listed[k].eventId in EventIds(listed);
    }
    assert rows[i] in rows;
    forall k | 0 <= k < |listed| ensures listed[k].eventId in Waiting(rows, rows[i].created) {
      assert listed[k] in listed;
      var a :| 0 <= a < |rows| && rows[a] == listed[k];
    }
  }

  /** In a tick a good row is published, or at least 100 - p good rows that are no younger are, where p
      counts only the poisoned rows that are no younger. */
  lemma TickFor(before: seq<OutboxRow>, listed: seq<OutboxRow>, after: seq<OutboxRow>, tick: Tick,
                poison: set<string>, i: nat)
    requires UniqueEvents(before) && IsListing(before, BATCH, listed) && Splits(before, tick, poison)
    requires i < |before| && before[i].published.None? && before[i].eventId !in poison
    requires SameRows(before, after) && Unpublished(after) == Unpublished(before) - (EventIds(listed) - poison)
    ensures var at := before[i].created;
            after[i].published.Some? ||
            |Waiting(after, at) - poison| + BATCH <= |Waiting(before, at) - poison| + |Waiting(before, at) * poison|
  {
    var at := before[i].created;
    if before[i].eventId in EventIds(listed) {
      UniqueKept(before, after);
      UnpublishedExactly(after, i);
    } else {
      LeftOut(before, listed, i);
      WaitingAfter(before, after, EventIds(listed) - poison, at);
      TakenSize(Waiting(before, at), EventIds(listed), poison);
      assert Waiting(after, at) - poison == (Waiting(before, at) - poison) - EventIds(listed);
    }
  }

  /** Some ticks later: row `i` is published, or of the good rows no younger than it at least `done` are. */
  ghost predicate ProgressFor(rows: seq<OutboxRow>, later: seq<OutboxRow>, poison: set<string>, i: nat, done: int)
    requires i < |rows|
  {
    var at := rows[i].created;
    && SameRows(rows, later) && PoisonKept(rows, later, poison)
    && (later[i].published.Some? || |Waiting(later, at) - poison| + done <= |Waiting(rows, at) - poison|)
  }

  function PerTickFor(rows: seq<OutboxRow>, poison: set<string>, i: nat): int
    requires i < |rows|
  {
    BATCH - |Waiting(rows, rows[i].created) * poison|
  }

  lemma StaysMarked(before: seq<OutboxRow>, after: seq<OutboxRow>, i: nat)
    requires UniqueEvents(before) && SameRows(before, after) && Unpublished(after) <= Unpublished(before)
    requires i < |before| && before[i].published.Some?
    ensures after[i].published.Some?
  {
    UniqueKept(before, after);
    UnpublishedExactly(before, i);
    UnpublishedExactly(after, i);
  }

  lemma PoisonedAfter(before: seq<OutboxRow>, after: seq<OutboxRow>, gone: set<string>, poison: set<string>)
    requires Unpublished(after) == Unpublished(before) - gone && gone !! poison
    ensures Poisoned(after, poison) == Poisoned(before, poison)
  {
  }

  lemma WaitingKept(rows: seq<OutboxRow>, later: seq<OutboxRow>, poison: set<string>, at: int64)
    requires SameRows(rows, later) && PoisonKept(rows, later, poison)
    ensures Waiting(later, at) * poison == Waiting(rows, at) * poison
  {
    forall id | id in Waiting(later, at) * poison ensures id in Waiting(rows, at) {
      var i :| 0 <= i < |later| && later[i].published.None? && later[i].created <= at && later[i].eventId == id;
      assert rows[i].eventId == id;
    }
    forall id | id in Waiting(rows, at) * poison ensures id in Waiting(later, at) {
      var i :| 0 <= i < |rows| && rows[i].published.None? && rows[i].created <= at && rows[i].eventId == id;
      assert later[i].eventId == id;
    }
  }

  lemma ProgressForStep(rows: seq<OutboxRow>, before: seq<OutboxRow>, after: seq<OutboxRow>, tick: Tick,
                        poison: set<string>, i: nat, done: int)
    requires UniqueEvents(rows) && i < |rows| && ProgressFor(rows, before, poison, i, done)
    requires rows[i].eventId !in poison && Splits(rows, tick, poison) && IsTick(before, after, tick)
    ensures ProgressFor(rows, after, poison, i, done + PerTickFor(rows, poison, i))
  {
    SplitsKept(rows, before, tick, poison);
    UniqueKept(rows, before);
    var listed: seq<OutboxRow> :| IsListing(before, BATCH, listed)
      && after == PublishAll(before, [], listed, tick.now, tick.oracle).rows;
    TickUnpublished(before, listed, tick, poison);
    SameRowsTransitive(rows, before, after);
    PoisonedAfter(before, after, EventIds(listed) - poison, poison);
    PoisonStays(before, after, poison);
    PoisonKeptTransitive(rows, before, after, poison);
    WaitingKept(rows, before, poison, rows[i].created);
    WaitingAfter(before, after, EventIds(listed) - poison, rows[i].created);
    if before[i].published.Some? {
      StaysMarked(before, after, i);
    } else {
      TickFor(before, listed, after, tick, poison, i);
    }
  }

  lemma ProgressForStart(rows: seq<OutboxRow>, poison: set<string>, i: nat)
    requires i < |rows|
    ensures ProgressFor(rows, rows, poison, i, 0)
  {
  }

  /** Progress for row `i` at 100 - p good rows a tick. */
  ghost predicate ProgressForAt(history: seq<seq<OutboxRow>>, poison: set<string>, i: nat, t: nat)
    requires t < |history| && i < |history[0]|
  {
    ProgressFor(history[0], history[t], poison, i, Times(t, PerTickFor(history[0], poison, i)))
  }

  lemma ProgressForNext(history: seq<seq<OutboxRow>>, ticks: seq<Tick>, poison: set<string>, i: nat, t: nat)
    requires IsHistory(history, ticks) && UniqueEvents(history[0]) && t < |ticks|
    requires AllSplit(history[0], ticks, poison)
    requires i < |history[0]| && history[0][i].eventId !in poison
    requires ProgressForAt(history, poison, i, t)
    ensures ProgressForAt(history, poison, i, t + 1)
  {
    StepAt(history, ticks, poison, t);
    ProgressForStep(history[0], history[t], history[t + 1], ticks[t], poison, i,
      Times(t, PerTickFor(history[0], poison, i)));
  }

  lemma {:induction false} ProgressForAfter(history: seq<seq<OutboxRow>>, ticks: seq<Tick>, poison: set<string>,
                                            i: nat, t: nat)
    requires IsHistory(history, ticks) && UniqueEvents(history[0]) && t <= |ticks|
    requires AllSplit(history[0], ticks, poison)
    requires i < |history[0]| && history[0][i].eventId !in poison
    ensures ProgressForAt(history, poison, i, t)
  {
    if t == 0 {
      ProgressForStart(history[0], poison, i);
    } else {
      ProgressForAfter(history, ticks, poison, i, t - 1);
      ProgressForNext(history, ticks, poison, i, t - 1);
    }
  }

  lemma MarkedOrWaiting(rows: seq<OutboxRow>, poison: set<string>, at: int64, i: nat)
    requires UniqueEvents(rows) && i < |rows| && rows[i].created <= at && rows[i].eventId !in poison
    ensures rows[i].published.Some? || |Waiting(rows, at) - poison| > 0
  {
    InWaiting(rows, at, i);
    if rows[i].published.None? {
      assert rows[i].eventId in Waiting(rows, at) - poison;
    }
  }

  /** A good row is published as soon as t * (100 - p) >= g, where of the p < 100 poisoned rows and the g
      good ones only those no younger than the row count. */
  lemma PublishedInTime(history: seq<seq<OutboxRow>>, ticks: seq<Tick>, poison: set<string>, i: nat)
    requires IsHistory(history, ticks) && UniqueEvents(history[0]) && i < |history[0]|
    requires AllSplit(history[0], ticks, poison) && history[0][i].eventId !in poison
    requires |ticks| * PerTickFor(history[0], poison, i) >= |Waiting(history[0], history[0][i].created) - poison|
    ensures |history[|ticks|]| == |history[0]| && history[|ticks|][i].published.Some?
  {
    var rows, later := history[0], history[|ticks|];
    ProgressForAfter(history, ticks, poison, i, |ticks|);
    TimesIsProduct(|ticks|, PerTickFor(rows, poison, i));
    UniqueKept(rows, later);
    MarkedOrWaiting(later, poison, rows[i].created, i);
  }

  /** No poisoned row was created at the very time row `i` was; the order of such rows is not specified. */
  predicate NoTie(rows: seq<OutboxRow>, poison: set<string>, i: nat)
    requires i < |rows|
  {
    forall j | 0 <= j < |rows| && rows[j].published.None? && rows[j].eventId in poison ::
        rows[j].created != rows[i].created
  }

  lemma OlderWaiting(rows: seq<OutboxRow>, poison: set<string>, i: nat)
    requires i < |rows| && NoTie(rows, poison, i)
    ensures OlderPoison(rows, poison, i) == Waiting(rows, rows[i].created) * poison
  {
  }

  /** Exactly when a good row gets through, given as many ticks as there are good rows no younger than it:
      when fewer than 100 poisoned rows are older. Younger ones, however many, do not matter. */
  lemma PublishedExactly(history: seq<seq<OutboxRow>>, ticks: seq<Tick>, poison: set<string>, i: nat)
    requires IsHistory(history, ticks) && UniqueEvents(history[0]) && i < |history[0]|
    requires AllSplit(history[0], ticks, poison)
    requires history[0][i].published.None? && history[0][i].eventId !in poison && NoTie(history[0], poison, i)
    requires |ticks| >= |Waiting(history[0], history[0][i].created) - poison|
    ensures |history[|ticks|]| == |history[0]|
    ensures history[|ticks|][i].published.Some? <==> |OlderPoison(history[0], poison, i)| < 100
  {
    var rows := history[0];
    OlderWaiting(rows, poison, i);
    if |OlderPoison(rows, poison, i)| < BATCH {
      AtLeastFactor(|ticks|, PerTickFor(rows, poison, i));
      PublishedInTime(history, ticks, poison, i);
    } else {
      StarvesBehindBatch(history, ticks, poison, i, |ticks|);
    }
  }

  lemma UnpublishedExactly(rows: seq<OutboxRow>, i: nat)
    requires UniqueEvents(rows) && i < |rows|
    ensures rows[i].eventId in Unpublished(rows) <==> rows[i].published.None?
  {
    if j :| 0 <= j < |rows| && rows[j].published.None? && rows[j].eventId == rows[i].eventId {
      assert j == i;
    }
  }

  lemma AtLeastFactor(t: nat, k: nat)
    requires k >= 1
    ensures t * k >= t
  {
    assert t * k == t * (k - 1) + t;
  }
}
