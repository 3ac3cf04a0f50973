/** The duplicate verifier (cmd/verifier/main.go:59-131). */
module Verifier {
  import opened Json
  import opened Messages

  type Event = Decoded<OrderEvent>

  function DecodeAll(values: seq<Json>): (events: seq<Event>)
    ensures |events| == |values|
  {
    seq(|values|, i requires 0 <= i < |values| => DecodeOrderEvent(values[i]))
  }

  /** The order ids of the records that decode as order events, in the order consumed. */
  function Orders(events: seq<Event>): seq<string> {
    if events == [] then []
    else
      var e := events[|events| - 1];
      Orders(events[..|events| - 1]) + (if e.ok then [e.value.orderId] else [])
  }

  predicate NoRepeats(ids: seq<string>) {
    forall i, j :: 0 <= i < j < |ids| ==> ids[i] != ids[j]
  }

  /** How many of `ids` are in `done`. */
  function CountIn(ids: seq<string>, done: set<string>): nat {
    if ids == [] then 0 else CountIn(ids[..|ids| - 1], done) + (if ids[|ids| - 1] in done then 1 else 0)
  }

  function Occurrences(ids: seq<string>, id: string): nat {
    if ids == [] then 0 else Occurrences(ids[..|ids| - 1], id) + (if ids[|ids| - 1] == id then 1 else 0)
  }

  function Distinct(ids: seq<string>): set<string> {
    set i | 0 <= i < |ids| :: ids[i]
  }

  lemma {:induction false} CountAll(ids: seq<string>, done: set<string>)
    requires forall id | id in ids :: id in done
    ensures CountIn(ids, done) == |ids|
  {
    if ids != [] {
      CountAll(ids[..|ids| - 1], done);
    }
  }

  lemma {:induction false} CountNone(ids: seq<string>)
    ensures CountIn(ids, {}) == 0
  {
    if ids != [] {
      CountNone(ids[..|ids| - 1]);
    }
  }

  lemma {:induction false} CountAdd(ids: seq<string>, done: set<string>, id: string)
    requires id !in done
    ensures CountIn(ids, done + {id}) == CountIn(ids, done) + Occurrences(ids, id)
  {
    if ids != [] {
      CountAdd(ids[..|ids| - 1], done, id);
    }
  }

  lemma {:induction false} OccursAtAll(ids: seq<string>, id: string)
    ensures Occurrences(ids, id) > 0 <==> id in ids
  {
    if ids != [] {
      OccursAtAll(ids[..|ids| - 1], id);
      assert ids == ids[..|ids| - 1] + [ids[|ids| - 1]];
    }
  }

  lemma {:induction false} OccursTwice(ids: seq<string>, i: nat, j: nat)
    requires i < j < |ids| && ids[i] == ids[j]
    ensures Occurrences(ids, ids[i]) >= 2
  {
    var front := ids[..|ids| - 1];
    if j < |front| {
      OccursTwice(front, i, j);
    } else {
      assert front[i] in front;
      OccursAtAll(front, ids[i]);
    }
  }

  lemma {:induction false} OccursOnce(ids: seq<string>, id: string)
    requires NoRepeats(ids)
    ensures Occurrences(ids, id) <= 1
  {
    if ids != [] {
      var front := ids[..|ids| - 1];
      OccursOnce(front, id);
      OccursAtAll(front, id);
    }
  }

  lemma RepeatsExactly(ids: seq<string>)
    ensures NoRepeats(ids) <==> forall id | id in ids :: Occurrences(ids, id) == 1
  {
    if NoRepeats(ids) {
      forall id | id in ids ensures Occurrences(ids, id) == 1 {
        OccursOnce(ids, id);
        OccursAtAll(ids, id);
      }
    } else {
      var i, j :| 0 <= i < j < |ids| && ids[i] == ids[j];
      OccursTwice(ids, i, j);
      assert ids[i] in ids;
    }
  }

  lemma OrdersAppend(events: seq<Event>, e: Event)
    ensures e.ok ==> Orders(events + [e]) == Orders(events) + [e.value.orderId]
    ensures !e.ok ==> Orders(events + [e]) == Orders(events)
  {
    assert (events + [e])[..|events|] == events;
  }

  /** `m` counts the ids. */
  predicate Counts(m: map<string, nat>, ids: seq<string>) {
    m.Keys == Distinct(ids) && forall id | id in m :: m[id] == Occurrences(ids, id)
  }

  lemma OccurrencesAppend(ids: seq<string>, id: string, k: string)
    ensures Occurrences(ids + [id], k) == Occurrences(ids, k) + (if id == k then 1 else 0)
  {
    assert (ids + [id])[..|ids|] == ids;
  }

  lemma DistinctAppend(ids: seq<string>, id: string)
    ensures Distinct(ids + [id]) == Distinct(ids) + {id}
  {
    assert (ids + [id])[|ids|] == id;
    assert forall i | 0 <= i < |ids| :: (ids + [id])[i] == ids[i];
  }

  lemma DistinctHas(ids: seq<string>, id: string)
    ensures id in Distinct(ids) <==> id in ids
  {
  }

  lemma CountsAppend(m: map<string, nat>, ids: seq<string>, id: string)
    requires Counts(m, ids)
    ensures Distinct(ids + [id]) == Distinct(ids) + {id}
    ensures Counts(m[id := (if id in m then m[id] else 0) + 1], ids + [id])
  {
    DistinctAppend(ids, id);
    DistinctHas(ids, id);
    OccursAtAll(ids, id);
    var m' := m[id := (if id in m then m[id] else 0) + 1];
    forall k | k in m' ensures m'[k] == Occurrences(ids + [id], k) {
      OccurrencesAppend(ids, id, k);
    }
  }

  /** Every id in `done` occurs once. */
  ghost predicate OnlyOnce(ids: seq<string>, done: set<string>) {
    forall id | id in done :: Occurrences(ids, id) == 1
  }

  /** `total` events for the ids in `done`, at least one each, and just one each if there are no more. */
  ghost predicate Tally(ids: seq<string>, done: set<string>, total: nat) {
    && total == CountIn(ids, done) >= |done|
    && (total == |done| <==> OnlyOnce(ids, done))
  }

  lemma TallyAdd(ids: seq<string>, done: set<string>, total: nat, id: string)
    requires Tally(ids, done, total) && id !in done && id in ids
    ensures Tally(ids, done + {id}, total + Occurrences(ids, id))
  {
    CountAdd(ids, done, id);
    OccursAtAll(ids, id);
    assert OnlyOnce(ids, done + {id}) <==> OnlyOnce(ids, done) && Occurrences(ids, id) == 1 by {
      if OnlyOnce(ids, done + {id}) {
        assert id in done + {id};
        assert forall k | k in done :: k in done + {id};
      }
    }
  }

  /** The ids in `done` that occur more than once, with their counts. */
  function Repeated(m: map<string, nat>, done: set<string>): map<string, nat> {
    map id | id in m && id in done && m[id] > 1 :: m[id]
  }

  lemma RepeatedAdd(m: map<string, nat>, done: set<string>, id: string)
    requires id in m
    ensures Repeated(m, done + {id}) == if m[id] > 1 then Repeated(m, done)[id := m[id]] else Repeated(m, done)
  {
  }

  lemma TallyAll(m: map<string, nat>, ids: seq<string>, total: nat)
    requires Counts(m, ids) && Tally(ids, m.Keys, total)
    ensures total == |ids| && (|m| == total <==> NoRepeats(ids))
    ensures |Repeated(m, m.Keys)| == 0 <==> NoRepeats(ids)
  {
    forall id ensures id in m <==> id in ids {
      DistinctHas(ids, id);
    }
    CountAll(ids, m.Keys);
    RepeatsExactly(ids);
    assert NoRepeats(ids) <==> OnlyOnce(ids, m.Keys);
    NoneRepeated(m, ids);
  }

  lemma NoneRepeated(m: map<string, nat>, ids: seq<string>)
    requires Counts(m, ids)
    ensures |Repeated(m, m.Keys)| == 0 <==> OnlyOnce(ids, m.Keys)
  {
    forall id | id in m ensures m[id] >= 1 {
      DistinctHas(ids, id);
      OccursAtAll(ids, id);
    }
    if |Repeated(m, m.Keys)| == 0 {
      forall id | id in m ensures Occurrences(ids, id) == 1 {
        assert id !in Repeated(m, m.Keys);
      }
    } else {
      var id :| id in Repeated(m, m.Keys);
      assert id in m && Occurrences(ids, id) > 1;
    }
  }

  /** The analysis so far, when it has walked the orders in `done`. */
  ghost predicate Walked(m: map<string, nat>, ids: seq<string>, done: set<string>, total: nat,
                         duplicates: map<string, nat>) {
    Tally(ids, done, total) && duplicates == Repeated(m, done)
  }

  lemma WalkStart(m: map<string, nat>, ids: seq<string>)
    ensures Walked(m, ids, {}, 0, map[])
  {
    CountNone(ids);
  }

  lemma WalkOne(m: map<string, nat>, ids: seq<string>, done: set<string>, total: nat, duplicates: map<string, nat>,
                id: string)
    requires Counts(m, ids) && Walked(m, ids, done, total, duplicates) && id in m && id !in done
    ensures Walked(m, ids, done + {id}, total + m[id], if m[id] > 1 then duplicates[id := m[id]] else duplicates)
  {
    DistinctHas(ids, id);
    TallyAdd(ids, done, total, id);
    RepeatedAdd(m, done, id);
  }

  lemma WalkEnd(m: map<string, nat>, ids: seq<string>, total: nat, duplicates: map<string, nat>)
    requires Counts(m, ids) && Walked(m, ids, m.Keys, total, duplicates)
    ensures total == |ids| && (|m| == total <==> NoRepeats(ids))
    ensures |duplicates| == 0 <==> NoRepeats(ids)
    ensures duplicates == map id | id in m && m[id] > 1 :: m[id]
    ensures |m| == |Distinct(ids)|
  {
    TallyAll(m, ids, total);
    assert |m| == |m.Keys|;
  }

  class OrderCounts {
    var orderCounts: map<string, nat>
    var eventIds: map<string, string>

    constructor ()
      ensures orderCounts == map[] && eventIds == map[]
    {
      orderCounts, eventIds := map[], map[];
    }

    /** The consumer callback. */
    method OnRecord(value: Json, ghost seen: seq<Event>)
      requires Counts(orderCounts, Orders(seen)) && eventIds.Keys == orderCounts.Keys
      modifies this
      ensures Counts(orderCounts, Orders(seen + [DecodeOrderEvent(value)])) && eventIds.Keys == orderCounts.Keys
      ensures forall id | id in old(eventIds) :: id in eventIds && eventIds[id] == old(eventIds)[id]
    {
      OnEvent(DecodeOrderEvent(value), seen);
    }

    /** A record that does not decode is passed over; the first event id of an order stays. */
    method OnEvent(event: Event, ghost seen: seq<Event>)
      requires Counts(orderCounts, Orders(seen)) && eventIds.Keys == orderCounts.Keys
      modifies this
      ensures Counts(orderCounts, Orders(seen + [event])) && eventIds.Keys == orderCounts.Keys
      ensures eventIds == if event.ok && event.value.orderId !in old(eventIds)
                          then old(eventIds)[event.value.orderId := event.value.eventId] else old(eventIds)
    {
      OrdersAppend(seen, event);
      if !event.ok {
        return;
      }
      var id := event.value.orderId;
      CountsAppend(orderCounts, Orders(seen), id);
      orderCounts := orderCounts[id := (if id in orderCounts then orderCounts[id] else 0) + 1];
      if id !in eventIds {
        eventIds := eventIds[id := event.value.eventId];
      }
    }
  }

  /** The analysis, whatever order the map is walked in. */
  method Analyze(counts: map<string, nat>, ghost ids: seq<string>)
    returns (passed: bool, totalEvents: nat, uniqueOrders: nat, duplicates: map<string, nat>)
    requires Counts(counts, ids)
    ensures passed <==> NoRepeats(ids)
    ensures totalEvents == |ids| && uniqueOrders == |Distinct(ids)|
    ensures uniqueOrders == totalEvents <==> passed
    ensures duplicates == map id | id in counts && counts[id] > 1 :: counts[id]
  {
    totalEvents := 0;
    uniqueOrders := |counts|;
    duplicates := map[];
    var left := counts.Keys;
    ghost var done: set<string> := {};
    WalkStart(counts, ids);
    while left != {}
      invariant left + done == counts.Keys && left !! done
      invariant Walked(counts, ids, done, totalEvents, duplicates)
      decreases left
    {
      var id :| id in left;
      var count := counts[id];
      WalkOne(counts, ids, done, totalEvents, duplicates, id);
      totalEvents := totalEvents + count;
      if count > 1 {
        duplicates := duplicates[id := count];
      }
      left, done := left - {id}, done + {id};
    }
    assert done == counts.Keys;
    WalkEnd(counts, ids, totalEvents, duplicates);
    passed := |duplicates| == 0;
  }

  /** A whole run over the records consumed: it passes exactly when no order id occurs twice among the
      events, its total is their number, and its unique count equals the total exactly when it passes. */
  method Verify(values: seq<Json>) returns (passed: bool, totalEvents: nat, uniqueOrders: nat)
    ensures var ids := Orders(DecodeAll(values));
            && (passed <==> NoRepeats(ids))
            && totalEvents == |ids| && uniqueOrders == |Distinct(ids)|
            && (uniqueOrders == totalEvents <==> passed)
  {
    var counts := new OrderCounts();
    ghost var events := DecodeAll(values);
    for i := 0 to |values|
      invariant Counts(counts.orderCounts, Orders(events[..i])) && counts.eventIds.Keys == counts.orderCounts.Keys
      invariant fresh(counts)
    {
      assert events[..i + 1] == events[..i] + [events[i]];
      counts.OnRecord(values[i], events[..i]);
    }
    assert events[..|values|] == events;
    var duplicates;
    passed, totalEvents, uniqueOrders, duplicates := Analyze(counts.orderCounts, Orders(events));
  }
}
