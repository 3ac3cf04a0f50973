/** When the order path gives an order its one event, and which steps keep it from doing so. */
module PipelineLoss {
  import opened Wrappers
  import opened Pipeline
  import opened PipelineSafety
  import opened PipelineResults
  import Outbox
  import Publisher
  import Drain

  // ----- losing an order -----

  /** The step loses the order: it drops a fresh acknowledgement of it, crashes a handler that holds one,
      or is an insert for it that leaves no row. */
  predicate Loses(s: State, a: Action, o: string) {
    Enabled(s, a) &&
    match a
    case LoseAck(r) => RpcToken(s.cluster.log, s.rpcs[r]) == Some(o)
    case Crash(h) => HeldToken(s.handlers[h]) == Some(o)
    case Insert(h, created, fails, landed) =>
      s.handlers[h].run.cmd.orderId == o && !(Drain.Enabled(s.drain, InsertOp(s, h, created)) && (!fails || landed))
    case _ => false
  }

  /** Some step of the run loses the order. */
  predicate LostIn(executors: nat, nodes: nat, actions: seq<Action>, o: string) {
    Happens(executors, nodes, actions, (s, a) => Loses(s, a, o))
  }

  lemma LossStep(s: State, a: Action, o: string)
    ensures o in Next(s, a).lost <==> o in s.lost || Loses(s, a, o)
  {
  }

  /** An order counts as lost exactly when some step of the run loses it. */
  lemma {:induction false} LostExactly(executors: nat, nodes: nat, actions: seq<Action>, o: string)
    ensures o in RunAll(Init(executors, nodes), actions).lost <==> LostIn(executors, nodes, actions, o)
  {
    if actions != [] {
      var front, a := actions[..|actions| - 1], actions[|actions| - 1];
      assert actions == front + [a];
      LostExactly(executors, nodes, front, o);
      HappensGrows(executors, nodes, front, a, (s, a) => Loses(s, a, o));
      LossStep(RunAll(Init(executors, nodes), front), a, o);
    }
  }

  /** When no fresh acknowledgement of an order is on its way or held, the order has its row exactly when
      it is replicated and no step of the run lost it. */
  lemma RowExactlyUnlessLost(executors: nat, nodes: nat, actions: seq<Action>, o: string)
    requires Quiet(RunAll(Init(executors, nodes), actions), o)
    ensures var s := RunAll(Init(executors, nodes), actions);
            && (Rows(s, o) == 1 <==> o in Table(s) && !LostIn(executors, nodes, actions, o))
            && (Rows(s, o) == 0 <==> o !in Table(s) || LostIn(executors, nodes, actions, o))
  {
    EachOrderInOnePlace(executors, nodes, actions, o);
    LostExactly(executors, nodes, actions, o);
  }

  // ----- spoiling an event -----

  /** The step is a publish of a row of the order that is not clean. */
  predicate Spoils(s: State, a: Action, o: string) {
    Unclean(s, a) && s.drain.dbs[a.op.x].outbox[a.op.row].orderId == o
  }

  /** Some publish of a row of the order was not clean. */
  predicate SpoiltIn(executors: nat, nodes: nat, actions: seq<Action>, o: string) {
    Happens(executors, nodes, actions, (s, a) => Spoils(s, a, o))
  }

  /** There are surplus copies of the order's event. */
  ghost predicate ExtraFor(d: Drain.State, o: string) {
    exists r | r in d.extra :: r.event.orderId == o
  }

  lemma SurplusOf(d: Drain.State, op: Drain.Op, o: string)
    requires Drain.Inv(d) && Drain.Enabled(d, op) && op.Publish?
    ensures ExtraFor(Drain.Next(d, op), o) <==>
              ExtraFor(d, o) || (!Drain.Clean(op) && d.dbs[op.x].outbox[op.row].orderId == o)
  {
    var rows := d.dbs[op.x].outbox;
    var e := rows[op.row];
    assert Drain.AllWellFormed(rows) && Outbox.WellFormed(e);
    RecordOrder(e);
    var r, n := Publisher.RecordOf(e), Drain.Surplus(e, op.o);
    Drain.CopiesCount(r, n);
    var after := Drain.Next(d, op).extra;
    assert forall q :: q in after <==> q in d.extra || (n > 0 && q == r);
    if ExtraFor(d, o) {
      var q :| q in d.extra && q.event.orderId == o;
      assert q in after;
    }
    if n > 0 {
      assert r in after;
    }
  }

  lemma ExtraForStep(s: State, a: Action, o: string)
    requires Drain.Inv(s.drain)
    ensures ExtraFor(Next(s, a).drain, o) <==> ExtraFor(s.drain, o) || Spoils(s, a, o)
  {
    if Enabled(s, a) {
      DrainStep(s, a);
      if a.Publish? {
        SurplusOf(s.drain, a.op, o);
      }
    }
  }

  lemma {:induction false} ExtraForExactly(executors: nat, nodes: nat, actions: seq<Action>, o: string)
    ensures ExtraFor(RunAll(Init(executors, nodes), actions).drain, o) <==> SpoiltIn(executors, nodes, actions, o)
  {
    if actions != [] {
      var front, a := actions[..|actions| - 1], actions[|actions| - 1];
      assert actions == front + [a];
      ExtraForExactly(executors, nodes, front, o);
      HappensGrows(executors, nodes, front, a, (s, a) => Spoils(s, a, o));
      RunInv(executors, nodes, front);
      ExtraForStep(RunAll(Init(executors, nodes), front), a, o);
    }
  }

  // ----- one event -----

  function TopicOrders(topic: seq<Publisher.Record>): (ids: seq<string>)
    ensures |ids| == |topic|
  {
    seq(|topic|, i requires 0 <= i < |topic| => topic[i].event.orderId)
  }

  /** How many events on the topic are for the order. */
  function EventCount(topic: seq<Publisher.Record>, o: string): nat {
    multiset(TopicOrders(topic))[o]
  }

  /** Every row of the order has been published. */
  predicate RowsPublished(dbs: seq<Outbox.Db>, o: string) {
    forall x, i | 0 <= x < |dbs| && 0 <= i < |dbs[x].outbox| && dbs[x].outbox[i].orderId == o ::
        dbs[x].outbox[i].published.Some?
  }

  lemma EventAt(topic: seq<Publisher.Record>, o: string) returns (k: nat)
    requires EventCount(topic, o) > 0
    ensures k < |topic| && topic[k].event.orderId == o
  {
    assert o in TopicOrders(topic);
    k :| 0 <= k < |topic| && TopicOrders(topic)[k] == o;
  }

  /** A row for each record that is on the topic. */
  lemma RowBehind(d: Drain.State, r: Publisher.Record) returns (x: nat, i: nat)
    requires Drain.Inv(d) && Drain.ExtraHasRows(d) && r in d.topic
    ensures x < |d.dbs| && i < |d.dbs[x].outbox| && Publisher.RecordOf(d.dbs[x].outbox[i]) == r
    ensures d.dbs[x].outbox[i].orderId == r.event.orderId
  {
    assert multiset(d.topic)[r] > 0;
    if r in d.extra {
      x, i := RowOfExtra(d, r);
    } else {
      x, i := FindMarked(d.dbs, r);
      OrderOfRow(d, x, i);
    }
  }

  lemma NoRowNoEvent(d: Drain.State, o: string)
    requires Drain.Inv(d) && Drain.ExtraHasRows(d) && Drain.RowCount(d.dbs, o) == 0
    ensures EventCount(d.topic, o) == 0
  {
    if EventCount(d.topic, o) > 0 {
      var k := EventAt(d.topic, o);
      var x, i := RowBehind(d, d.topic[k]);
      RowsAtLeast(d.dbs, x, i, x, i);
    }
  }

  lemma RowGivesEvent(d: Drain.State, o: string)
    requires Drain.Inv(d) && Drain.RowCount(d.dbs, o) > 0 && RowsPublished(d.dbs, o)
    ensures EventCount(d.topic, o) > 0
  {
    var x, i := FindRow(d.dbs, o);
    var k := MarkedOnTopic(d, x, i);
    assert TopicOrders(d.topic)[k] == o;
    CountsTwo(TopicOrders(d.topic), k, k);
  }

  lemma RowOfExtra(d: Drain.State, r: Publisher.Record) returns (x: nat, i: nat)
    requires Drain.Inv(d) && Drain.ExtraHasRows(d) && r in d.extra
    ensures x < |d.dbs| && i < |d.dbs[x].outbox| && Publisher.RecordOf(d.dbs[x].outbox[i]) == r
    ensures d.dbs[x].outbox[i].orderId == r.event.orderId
  {
    assert Drain.HasRow(d.dbs, r);
    x, i :| x < |d.dbs| && i < |d.dbs[x].outbox| && Publisher.RecordOf(d.dbs[x].outbox[i]) == r;
    OrderOfRow(d, x, i);
  }

  lemma SurplusGivesTwo(d: Drain.State, o: string)
    requires Drain.Inv(d) && Drain.ExtraHasRows(d) && RowsPublished(d.dbs, o) && ExtraFor(d, o)
    ensures EventCount(d.topic, o) >= 2
  {
    var r :| r in d.extra && r.event.orderId == o;
    var x, i := RowOfExtra(d, r);
    var a, b := TwoCopies(d, x, i);
    CountsTwo(TopicOrders(d.topic), a, b);
  }

  lemma CleanGivesOne(d: Drain.State, o: string)
    requires Drain.Inv(d) && Drain.RowCount(d.dbs, o) <= 1 && !ExtraFor(d, o)
    ensures EventCount(d.topic, o) <= 1
  {
    if EventCount(d.topic, o) >= 2 {
      var i, j := TwoPlaces(TopicOrders(d.topic), o);
      var r, q := d.topic[i], d.topic[j];
      assert r !in d.extra && q !in d.extra;
      MarkCountWithin(d, r, q);
      TwiceOnTopic(d.topic, i, j);
    }
  }

  /** Exactly once, exactly when: for any commands, any failures and any interleaving, once nothing for an
      order is on its way and its rows have been published, it has one event on the topic if and only if
      it is replicated, no step lost it, and no publish of its row was uncertain, repeated or left
      unmarked; and it has none if and only if it is not replicated or was lost. What happens to other
      orders, to duplicate acknowledgements and to handlers that hold nothing does not matter. */
  lemma OneEventExactly(executors: nat, nodes: nat, actions: seq<Action>, o: string)
    requires var s := RunAll(Init(executors, nodes), actions); Quiet(s, o) && RowsPublished(s.drain.dbs, o)
    ensures var s := RunAll(Init(executors, nodes), actions);
            && (EventCount(s.drain.topic, o) == 1 <==>
                  o in Table(s) && !LostIn(executors, nodes, actions, o) && !SpoiltIn(executors, nodes, actions, o))
            && (EventCount(s.drain.topic, o) == 0 <==> o !in Table(s) || LostIn(executors, nodes, actions, o))
  {
    var d := RunAll(Init(executors, nodes), actions).drain;
    RowExactlyUnlessLost(executors, nodes, actions, o);
    ExtraForExactly(executors, nodes, actions, o);
    DrainFacts(executors, nodes, actions);
    if Drain.RowCount(d.dbs, o) == 0 {
      NoRowNoEvent(d, o);
    } else {
      RowGivesEvent(d, o);
      if ExtraFor(d, o) {
        SurplusGivesTwo(d, o);
      } else {
        CleanGivesOne(d, o);
      }
    }
  }

  /** Two events, exactly when: in every reachable state, an order that has two has a publish of its row that was
      not clean, and once its rows have been published that is enough. */
  lemma TwoEventsExactly(executors: nat, nodes: nat, actions: seq<Action>, o: string)
    ensures var s := RunAll(Init(executors, nodes), actions);
            && (EventCount(s.drain.topic, o) >= 2 ==> SpoiltIn(executors, nodes, actions, o))
            && (RowsPublished(s.drain.dbs, o) && SpoiltIn(executors, nodes, actions, o) ==>
                 EventCount(s.drain.topic, o) >= 2)
  {
    var s := RunAll(Init(executors, nodes), actions);
    DrainFacts(executors, nodes, actions);
    EachOrderInOnePlace(executors, nodes, actions, o);
    ExtraForExactly(executors, nodes, actions, o);
    if !ExtraFor(s.drain, o) {
      CleanGivesOne(s.drain, o);
    } else if RowsPublished(s.drain.dbs, o) {
      SurplusGivesTwo(s.drain, o);
    }
  }

  lemma DrainFacts(executors: nat, nodes: nat, actions: seq<Action>)
    ensures var d := RunAll(Init(executors, nodes), actions).drain; Drain.Inv(d) && Drain.ExtraHasRows(d)
  {
    RunInv(executors, nodes, actions);
    ExtraHasRows(executors, nodes, actions);
  }
}
