/** The outbox publisher (internal/idempotency/publisher.go). */
module Publisher {
  import opened Wrappers
  import opened Json
  import opened Messages
  import opened Outbox

  /** A Kafka record on the events topic. */
  datatype Record = Record(topic: string, key: string, event: OrderEvent)

  /** How one row fares: how many copies of its record reach the topic (the producer retries without
      idempotent writes, internal/msg/producer.go:27), whether the produce reports success, and
      whether the update that marks the row succeeds. A reported success means at least one copy; a
      crash between produce and mark is a mark that fails. */
  datatype RowOutcome = RowOutcome(copies: nat, acked: bool, markOk: bool) {
    predicate Possible() { acked ==> copies > 0 }
  }

  type Oracle = string -> RowOutcome

  const BATCH := 100

  predicate Decodes(e: OutboxRow) {
    DecodeOrderEvent(e.payload).ok
  }

  function RecordOf(e: OutboxRow): Record {
    Record(e.topic, e.key, DecodeOrderEvent(e.payload).value)
  }

  function Copies(r: Record, n: nat): (s: seq<Record>)
    ensures |s| == n && forall i | 0 <= i < n :: s[i] == r
  {
    seq(n, i requires 0 <= i < n => r)
  }

  predicate Succeeds(e: OutboxRow, o: RowOutcome) {
    Decodes(e) && o.acked && o.markOk
  }

  /** The rows and the topic after handling one listed row. */
  datatype Outcome = Outcome(rows: seq<OutboxRow>, topic: seq<Record>)

  function PublishOne(rows: seq<OutboxRow>, topic: seq<Record>, e: OutboxRow, now: int64, o: RowOutcome): Outcome {
    if !Decodes(e) then Outcome(rows, topic)
    else
      Outcome(if o.acked && o.markOk then Marked(rows, e.eventId, now) else rows,
              topic + Copies(RecordOf(e), o.copies))
  }

  function PublishAll(rows: seq<OutboxRow>, topic: seq<Record>, events: seq<OutboxRow>, now: int64, oracle: Oracle)
    : Outcome
  {
    if events == [] then Outcome(rows, topic)
    else
      var before := PublishAll(rows, topic, events[..|events| - 1], now, oracle);
      var e := events[|events| - 1];
      PublishOne(before.rows, before.topic, e, now, oracle(e.eventId))
  }

  /** The record carries some row's event, to that row's topic under that row's key. */
  predicate ComesFrom(r: Record, events: seq<OutboxRow>) {
    exists i | 0 <= i < |events| ::
      r.topic == events[i].topic && r.key == events[i].key
        && DecodeOrderEvent(events[i].payload) == Decoded(r.event, true)
  }

  lemma {:induction false} NewRecords(rows: seq<OutboxRow>, topic: seq<Record>, events: seq<OutboxRow>, now: int64,
                                      oracle: Oracle)
    ensures var after := PublishAll(rows, topic, events, now, oracle).topic;
            && topic <= after
            && forall k | |topic| <= k < |after| :: ComesFrom(after[k], events)
  {
    if events != [] {
      var front, e := events[..|events| - 1], events[|events| - 1];
      NewRecords(rows, topic, front, now, oracle);
      var before := PublishAll(rows, topic, front, now, oracle).topic;
      var after := PublishAll(rows, topic, events, now, oracle).topic;
      forall k | |topic| <= k < |after| ensures ComesFrom(after[k], events) {
        if k < |before| {
          var i :| 0 <= i < |front| && after[k].topic == front[i].topic && after[k].key == front[i].key
            && DecodeOrderEvent(front[i].payload) == Decoded(after[k].event, true);
          assert events[i] == front[i];
        } else {
          assert events[|events| - 1] == e;
        }
      }
    }
  }

  /** A row whose payload does not decode is passed over; one whose produce fails, or whose mark does, keeps its
      mark off and will be listed again. */
  lemma OneRowExactly(rows: seq<OutboxRow>, topic: seq<Record>, e: OutboxRow, now: int64, o: RowOutcome)
    ensures var r := PublishOne(rows, topic, e, now, o); var d := DecodeOrderEvent(e.payload);
            && (!d.ok ==> r == Outcome(rows, topic))
            && (d.ok && !(o.acked && o.markOk) ==> r.rows == rows)
            && (d.ok ==> |r.topic| == |topic| + o.copies
                         && forall k | |topic| <= k < |r.topic| :: r.topic[k] == Record(e.topic, e.key, d.value))
            && (d.ok && o.acked && o.markOk ==>
                  forall i | 0 <= i < |rows| && rows[i].eventId == e.eventId :: r.rows[i].published == Some(now))
  {
  }

  class EventsTopic {
    var records: seq<Record>

    constructor ()
      ensures records == []
    {
      records := [];
    }

    method Produce(r: Record, o: RowOutcome) returns (ok: bool)
      modifies this
      ensures records == old(records) + Copies(r, o.copies)
      ensures ok == o.acked
    {
      records := records + Copies(r, o.copies);
      ok := o.acked;
    }
  }

  datatype Tick = Tick(now: int64, listFails: bool, oracle: Oracle)

  class Publisher {
    const store: Store
    const producer: EventsTopic

    constructor (store: Store, producer: EventsTopic)
      ensures this.store == store && this.producer == producer
    {
      this.store, this.producer := store, producer;
    }

    /** One batch. `listed` is the listing it worked through. */
    method PublishBatch(tick: Tick) returns (ok: bool, published: nat, ghost listed: seq<OutboxRow>)
      requires store.Valid()
      modifies store, producer
      ensures store.Valid() && store.processed == old(store.processed)
      ensures ok <==> !tick.listFails
      ensures IsListing(old(store.outbox), if ok then BATCH else 0, listed)
      ensures Outcome(store.outbox, producer.records)
           == PublishAll(old(store.outbox), old(producer.records), listed, tick.now, tick.oracle)
      ensures published == |Done(listed, tick.oracle)|
      ensures old(producer.records) <= producer.records
      ensures forall k | |old(producer.records)| <= k < |producer.records| :: ComesFrom(producer.records[k], listed)
    {
      published := 0;
      ghost var rows, topic := store.outbox, producer.records;
      var events := store.ListUnpublished(BATCH, tick.listFails);
      if events.Err? {
        SuccessesCount([], tick.oracle);
        return false, 0, [];
      }
      listed := events.value;
      if |events.value| == 0 {
        SuccessesCount(listed, tick.oracle);
        return true, 0, listed;
      }
      for i := 0 to |events.value|
        invariant store.Valid() && store.processed == old(store.processed)
        invariant Outcome(store.outbox, producer.records)
               == PublishAll(old(store.outbox), old(producer.records), listed[..i], tick.now, tick.oracle)
        invariant published == |Successes(listed[..i], tick.oracle)|
      {
        var event := events.value[i];
        assert listed[..i + 1][..i] == listed[..i];
        var orderEvent := DecodeOrderEvent(event.payload);
        if !orderEvent.ok {
          continue;
        }
        var o := tick.oracle(event.eventId);
        var produced := producer.Produce(Record(event.topic, event.key, orderEvent.value), o);
        if !produced {
          continue;
        }
        var marked := store.MarkPublished(event.eventId, tick.now, !o.markOk);
        if !marked {
          continue;
        }
        published := published + 1;
      }
      assert listed[..|listed|] == listed;
      NewRecords(rows, topic, listed, tick.now, tick.oracle);
      SuccessesCount(listed, tick.oracle);
      ok := true;
    }

    /** The loop over ticks: a batch that fails is logged and the next tick tries again. */
    method Run(ticks: seq<Tick>) returns (ghost history: seq<Outcome>)
      requires store.Valid()
      modifies store, producer
      ensures store.Valid() && store.processed == old(store.processed)
      ensures IsRun(history, ticks)
      ensures history[0] == old(Outcome(store.outbox, producer.records))
      ensures history[|ticks|] == Outcome(store.outbox, producer.records)
    {
      history := [Outcome(store.outbox, producer.records)];
      for i := 0 to |ticks|
        invariant store.Valid() && store.processed == old(store.processed)
        invariant IsRun(history, ticks[..i])
        invariant history[0] == old(Outcome(store.outbox, producer.records))
        invariant history[i] == Outcome(store.outbox, producer.records)
      {
        var ok, published, listed := PublishBatch(ticks[i]);
        assert IsBatch(history[i], Outcome(store.outbox, producer.records), ticks[i]);
        RunGrows(history, ticks, i, Outcome(store.outbox, producer.records));
        history := history + [Outcome(store.outbox, producer.records)];
      }
      assert ticks[..|ticks|] == ticks;
    }
  }

  /** The positions of the listed rows that decode, whose produce is acknowledged and whose mark succeeds. */
  function Done(events: seq<OutboxRow>, oracle: Oracle): set<nat> {
    set k: nat | k < |events| && DecodeOrderEvent(events[k].payload).ok
                 && oracle(events[k].eventId).acked && oracle(events[k].eventId).markOk
  }

  lemma DoneAppend(front: seq<OutboxRow>, e: OutboxRow, oracle: Oracle)
    ensures Done(front + [e], oracle)
              == Done(front, oracle) + (if Succeeds(e, oracle(e.eventId)) then {|front|} else {})
  {
    var events := front + [e];
    forall k: nat | k < |front| ensures events[k] == front[k] {}
  }

  lemma {:induction false} SuccessesCount(events: seq<OutboxRow>, oracle: Oracle)
    ensures |Successes(events, oracle)| == |Done(events, oracle)|
  {
    if events == [] {
      assert Done(events, oracle) == {};
    } else {
      var front, e := events[..|events| - 1], events[|events| - 1];
      assert events == front + [e];
      SuccessesCount(front, oracle);
      DoneAppend(front, e, oracle);
    }
  }

  /** The listed rows that get published and marked. */
  function Successes(events: seq<OutboxRow>, oracle: Oracle): seq<OutboxRow> {
    if events == [] then []
    else
      var e := events[|events| - 1];
      Successes(events[..|events| - 1], oracle) + (if Succeeds(e, oracle(e.eventId)) then [e] else [])
  }

  /** One tick took the rows and the topic from `before` to `after`, through some listing. */
  ghost predicate IsBatch(before: Outcome, after: Outcome, tick: Tick) {
    exists listed ::
      && IsListing(before.rows, if tick.listFails then 0 else BATCH, listed)
      && after == PublishAll(before.rows, before.topic, listed, tick.now, tick.oracle)
  }

  ghost predicate BatchAt(history: seq<Outcome>, ticks: seq<Tick>, i: nat)
    requires i < |ticks| && |history| == |ticks| + 1
  {
    IsBatch(history[i], history[i + 1], ticks[i])
  }

  ghost predicate IsRun(history: seq<Outcome>, ticks: seq<Tick>) {
    && |history| == |ticks| + 1
    && forall i | 0 <= i < |ticks| :: BatchAt(history, ticks, i)
  }

  lemma RunGrows(history: seq<Outcome>, ticks: seq<Tick>, n: nat, after: Outcome)
    requires n < |ticks| && IsRun(history, ticks[..n]) && IsBatch(history[n], after, ticks[n])
    ensures IsRun(history + [after], ticks[..n + 1])
  {
    var longer, before, upTo := history + [after], ticks[..n], ticks[..n + 1];
    forall i | 0 <= i < n ensures BatchAt(longer, upTo, i) {
      assert BatchAt(history, before, i);
    }
    assert BatchAt(longer, upTo, n);
  }

  function Tables(history: seq<Outcome>): (r: seq<seq<OutboxRow>>)
    ensures |r| == |history|
  {
    seq(|history|, i requires 0 <= i < |history| => history[i].rows)
  }

  /** The rows in a run of the publisher, for which the topic does not matter. */
  lemma RunIsHistory(history: seq<Outcome>, ticks: seq<Tick>)
    requires IsRun(history, ticks)
    ensures IsHistory(Tables(history), ticks)
  {
    forall i | 0 <= i < |ticks| ensures TickAt(Tables(history), ticks, i) {
      var tick := ticks[i];
      assert BatchAt(history, ticks, i);
      var listed: seq<OutboxRow> :|
        && IsListing(history[i].rows, if tick.listFails then 0 else BATCH, listed)
        && history[i + 1] == PublishAll(history[i].rows, history[i].topic, listed, tick.now, tick.oracle);
      RowsIgnoreTopic(history[i].rows, history[i].topic, [], listed, tick.now, tick.oracle);
    }
  }

  /** One tick took the rows from `before` to `after`, through some listing. */
  ghost predicate IsTick(before: seq<OutboxRow>, after: seq<OutboxRow>, tick: Tick) {
    exists listed ::
      && IsListing(before, if tick.listFails then 0 else BATCH, listed)
      && after == PublishAll(before, [], listed, tick.now, tick.oracle).rows
  }

  ghost predicate TickAt(history: seq<seq<OutboxRow>>, ticks: seq<Tick>, i: nat)
    requires i < |ticks| && |history| == |ticks| + 1
  {
    IsTick(history[i], history[i + 1], ticks[i])
  }

  ghost predicate IsHistory(history: seq<seq<OutboxRow>>, ticks: seq<Tick>) {
    && |history| == |ticks| + 1
    && forall i | 0 <= i < |ticks| :: TickAt(history, ticks, i)
  }

  /** What happens to the rows does not depend on the topic. */
  lemma {:induction false} RowsIgnoreTopic(rows: seq<OutboxRow>, topic: seq<Record>, other: seq<Record>,
                                           events: seq<OutboxRow>, now: int64, oracle: Oracle)
    ensures PublishAll(rows, topic, events, now, oracle).rows == PublishAll(rows, other, events, now, oracle).rows
  {
    if events != [] {
      RowsIgnoreTopic(rows, topic, other, events[..|events| - 1], now, oracle);
    }
  }
}
