/** What the order path guarantees in every reachable state. */
module PipelineResults {
  import opened Wrappers
  import opened Executor
  import opened Pipeline
  import opened PipelineSafety
  import Publisher
  import Fsm
  import Outbox
  import Drain

  // ----- one place, one row -----

  ghost predicate InOnePlace(s: State, o: string) {
    && Rows(s, o) + InTransit(s, o) + Held(s, o) + s.lost[o] == (if o in Table(s) then 1 else 0)
    && Rows(s, o) <= 1
  }

  /** Each order in the replicated table is in exactly one place: an outbox row, a fresh acknowledgement
      on its way, one held by a handler, or the lost ones; an order that is not in the table is in none.
      So no order ever has more than one row, in all executors together. */
  lemma EachOrderInOnePlace(executors: nat, nodes: nat, actions: seq<Action>, o: string)
    ensures InOnePlace(RunAll(Init(executors, nodes), actions), o)
  {
    RunInv(executors, nodes, actions);
    assert ConservedFor(RunAll(Init(executors, nodes), actions), o);
  }

  lemma CountsTwo(ids: seq<string>, i: nat, j: nat)
    requires i < |ids| && j < |ids|
    ensures multiset(ids)[ids[i]] >= 1
    ensures i != j && ids[i] == ids[j] ==> multiset(ids)[ids[i]] >= 2
  {
    assert ids == ids[..i] + [ids[i]] + ids[i + 1..];
    if i < j {
      assert ids[j] in ids[i + 1..];
    } else if j < i {
      assert ids[j] in ids[..i];
    }
  }

  lemma RowsAtLeast(dbs: seq<Outbox.Db>, x: nat, i: nat, y: nat, j: nat)
    requires x < |dbs| && i < |dbs[x].outbox| && y < |dbs| && j < |dbs[y].outbox|
    requires dbs[x].outbox[i].orderId == dbs[y].outbox[j].orderId
    ensures Drain.RowCount(dbs, dbs[x].outbox[i].orderId) >= if x == y && i == j then 1 else 2
  {
    var o := dbs[x].outbox[i].orderId;
    var ns := seq(|dbs|, k requires 0 <= k < |dbs| => multiset(Drain.OrderIds(dbs[k].outbox))[o]);
    Drain.SumAtLeast(ns, x, y);
    CountsTwo(Drain.OrderIds(dbs[x].outbox), i, if x == y then j else i);
    CountsTwo(Drain.OrderIds(dbs[y].outbox), j, j);
  }

  /** Row `i` of executor `x` and row `j` of executor `y` are for one order. */
  predicate ForOneOrder(dbs: seq<Outbox.Db>, x: nat, i: nat, y: nat, j: nat) {
    && x < |dbs| && i < |dbs[x].outbox| && y < |dbs| && j < |dbs[y].outbox|
    && dbs[x].outbox[i].orderId == dbs[y].outbox[j].orderId
  }

  /** Two outbox rows for one order, in whatever executors, are the same row. */
  lemma RowsAreUnique(executors: nat, nodes: nat, actions: seq<Action>, x: nat, i: nat, y: nat, j: nat)
    requires ForOneOrder(RunAll(Init(executors, nodes), actions).drain.dbs, x, i, y, j)
    ensures x == y && i == j
  {
    var s := RunAll(Init(executors, nodes), actions);
    EachOrderInOnePlace(executors, nodes, actions, s.drain.dbs[x].outbox[i].orderId);
    RowsAtLeast(s.drain.dbs, x, i, y, j);
  }

  // ----- when every replicated order has its row -----

  /** Nothing is on its way: no committed request still to be answered, no handler holding an
      acknowledgement. */
  predicate Settled(s: State) {
    && (forall r | 0 <= r < |s.rpcs| :: !s.rpcs[r].phase.InLog? && !s.rpcs[r].phase.Answered?)
    && (forall h | 0 <= h < |s.handlers| :: HeldToken(s.handlers[h]) == None)
  }

  /** No fresh acknowledgement of the order is on its way or held by a handler. */
  predicate Quiet(s: State, o: string) {
    InTransit(s, o) == 0 && Held(s, o) == 0
  }

  // ----- committed offsets -----

  /** A committed offset is that of a valid order which the replicated log holds: some committed entry
      is an upsert of it. */
  lemma CommittedIsReplicated(executors: nat, nodes: nat, actions: seq<Action>, offset: nat)
    requires offset in RunAll(Init(executors, nodes), actions).committed
    ensures var s := RunAll(Init(executors, nodes), actions);
            && offset < |s.commands|
            && var order := ParseOrder(s.commands[offset].value);
            && order.Ok?
            && exists i: nat | i < |s.cluster.log| :: Fsm.Upserts(s.cluster.log, i, order.value.orderId)
  {
    RunInv(executors, nodes, actions);
    var s := RunAll(Init(executors, nodes), actions);
    assert OffsetOk(s, offset);
    assert s.commands[offset] == ToRecord(s.commands[offset].value);
    Fsm.TableKeys(s.cluster.log, s.commands[offset].order.value.orderId);
  }

  // ----- the events topic -----

  /** In a table whose rows are well formed, the marked rows for one order's records are rows of that
      order. */
  lemma {:induction false} MarksWithin(rows: seq<Outbox.OutboxRow>, r: Publisher.Record, q: Publisher.Record)
    requires Drain.AllWellFormed(rows) && r.event.orderId == q.event.orderId
    ensures multiset(Drain.Marks(rows))[Some(r)] + (if r == q then 0 else multiset(Drain.Marks(rows))[Some(q)])
         <= multiset(Drain.OrderIds(rows))[r.event.orderId]
  {
    if rows != [] {
      var front, last := rows[..|rows| - 1], rows[|rows| - 1];
      MarksWithin(front, r, q);
      assert rows == front + [last];
      Drain.AppendedRow(front, last);
      assert Outbox.WellFormed(last);
      RecordOrder(last);
    }
  }

  lemma RecordOrder(row: Outbox.OutboxRow)
    requires Outbox.WellFormed(row)
    ensures Publisher.RecordOf(row).event.orderId == row.orderId
  {
  }

  lemma {:induction false} SumWithin(a: seq<nat>, b: seq<nat>, c: seq<nat>)
    requires |a| == |b| == |c| && forall i | 0 <= i < |a| :: a[i] + b[i] <= c[i]
    ensures Drain.Sum(a) + Drain.Sum(b) <= Drain.Sum(c)
  {
    if a != [] {
      SumWithin(a[..|a| - 1], b[..|b| - 1], c[..|c| - 1]);
    }
  }

  lemma MarkCountWithin(d: Drain.State, r: Publisher.Record, q: Publisher.Record)
    requires Drain.Inv(d) && r.event.orderId == q.event.orderId
    ensures Drain.MarkCount(d.dbs, r)
            + (if r == q then 0 else Drain.MarkCount(d.dbs, q)) <= Drain.RowCount(d.dbs, r.event.orderId)
  {
    var dbs := d.dbs;
    var a := seq(|dbs|, x requires 0 <= x < |dbs| => multiset(Drain.Marks(dbs[x].outbox))[Some(r)]);
    var b := seq(|dbs|, x requires 0 <= x < |dbs| => multiset(Drain.Marks(dbs[x].outbox))[Some(q)]);
    var c := seq(|dbs|, x requires 0 <= x < |dbs| => multiset(Drain.OrderIds(dbs[x].outbox))[r.event.orderId]);
    var none: seq<nat> := seq(|dbs|, x => 0);
    forall x | 0 <= x < |dbs| ensures a[x] + (if r == q then none else b)[x] <= c[x] {
      MarksWithin(dbs[x].outbox, r, q);
    }
    SumWithin(a, if r == q then none else b, c);
    Drain.SumZero(none);
  }

  /** As long as no produce was uncertain or repeated, no mark failed and no publisher crashed between
      the two, no two events on the topic are for the same order, whatever else went wrong. */
  lemma NoDuplicateEvents(executors: nat, nodes: nat, actions: seq<Action>, i: nat, j: nat)
    requires var d := RunAll(Init(executors, nodes), actions).drain; d.extra == multiset{} && i < j < |d.topic|
    ensures var topic := RunAll(Init(executors, nodes), actions).drain.topic;
            topic[i].event.orderId != topic[j].event.orderId
  {
    var s := RunAll(Init(executors, nodes), actions);
    RunInv(executors, nodes, actions);
    var r, q := s.drain.topic[i], s.drain.topic[j];
    if r.event.orderId == q.event.orderId {
      EachOrderInOnePlace(executors, nodes, actions, r.event.orderId);
      MarkCountWithin(s.drain, r, q);
      TwiceOnTopic(s.drain.topic, i, j);
    }
  }

  lemma TwiceOnTopic(topic: seq<Publisher.Record>, i: nat, j: nat)
    requires i < j < |topic|
    ensures multiset(topic)[topic[i]] + (if topic[i] == topic[j] then 0 else multiset(topic)[topic[j]]) >= 2
  {
    var r, q := topic[i], topic[j];
    assert topic == topic[..i] + [r] + topic[i + 1..];
    assert q in topic[i + 1..];
    assert multiset(topic)[q] >= 1;
  }

  /** And each of them is for an order the replicated log holds. */
  lemma EventsAreReplicated(executors: nat, nodes: nat, actions: seq<Action>, k: nat)
    requires var d := RunAll(Init(executors, nodes), actions).drain; d.extra == multiset{} && k < |d.topic|
    ensures var s := RunAll(Init(executors, nodes), actions); s.drain.topic[k].event.orderId in Table(s)
  {
    var s := RunAll(Init(executors, nodes), actions);
    RunInv(executors, nodes, actions);
    var r := s.drain.topic[k];
    EachOrderInOnePlace(executors, nodes, actions, r.event.orderId);
    MarkCountWithin(s.drain, r, r);
    assert r in multiset(s.drain.topic);
  }

  predicate AllPublished(dbs: seq<Outbox.Db>) {
    forall x, i | 0 <= x < |dbs| && 0 <= i < |dbs[x].outbox| :: dbs[x].outbox[i].published.Some?
  }

  lemma MarkedOnTopic(d: Drain.State, x: nat, i: nat) returns (k: nat)
    requires Drain.Inv(d) && x < |d.dbs| && i < |d.dbs[x].outbox| && d.dbs[x].outbox[i].published.Some?
    ensures k < |d.topic| && d.topic[k].event.orderId == d.dbs[x].outbox[i].orderId
  {
    var row := d.dbs[x].outbox[i];
    assert Drain.AllWellFormed(d.dbs[x].outbox) && Outbox.WellFormed(row);
    RecordOrder(row);
    var r := Publisher.RecordOf(row);
    MarkCounts(d.dbs, x, i);
    assert multiset(d.topic)[r] > 0;
    assert r in d.topic;
    k :| 0 <= k < |d.topic| && d.topic[k] == r;
  }

  lemma MarkCounts(dbs: seq<Outbox.Db>, x: nat, i: nat)
    requires x < |dbs| && i < |dbs[x].outbox| && dbs[x].outbox[i].published.Some?
    ensures Drain.MarkCount(dbs, Publisher.RecordOf(dbs[x].outbox[i])) > 0
  {
    var token := Some(Publisher.RecordOf(dbs[x].outbox[i]));
    var ns := seq(|dbs|, k requires 0 <= k < |dbs| => multiset(Drain.Marks(dbs[k].outbox))[token]);
    Drain.SumAtLeast(ns, x, x);
    assert Drain.Marks(dbs[x].outbox)[i] == token;
    assert token in multiset(Drain.Marks(dbs[x].outbox));
  }

  lemma FindMarked(dbs: seq<Outbox.Db>, r: Publisher.Record) returns (x: nat, i: nat)
    requires Drain.MarkCount(dbs, r) > 0
    ensures x < |dbs| && i < |dbs[x].outbox| && dbs[x].outbox[i].published.Some?
            && Publisher.RecordOf(dbs[x].outbox[i]) == r
  {
    var ns := seq(|dbs|, k requires 0 <= k < |dbs| => multiset(Drain.Marks(dbs[k].outbox))[Some(r)]);
    Drain.SumZero(ns);
    x :| 0 <= x < |ns| && ns[x] != 0;
    assert Some(r) in multiset(Drain.Marks(dbs[x].outbox));
    i :| 0 <= i < |dbs[x].outbox| && Drain.Marks(dbs[x].outbox)[i] == Some(r);
  }

  lemma FindRow(dbs: seq<Outbox.Db>, o: string) returns (x: nat, i: nat)
    requires Drain.RowCount(dbs, o) > 0
    ensures x < |dbs| && i < |dbs[x].outbox| && dbs[x].outbox[i].orderId == o
  {
    var ns := seq(|dbs|, k requires 0 <= k < |dbs| => multiset(Drain.OrderIds(dbs[k].outbox))[o]);
    Drain.SumZero(ns);
    x :| 0 <= x < |ns| && ns[x] != 0;
    assert o in multiset(Drain.OrderIds(dbs[x].outbox));
    i :| 0 <= i < |dbs[x].outbox| && Drain.OrderIds(dbs[x].outbox)[i] == o;
  }

  /** In every run, whatever the number of executors: an event is on the topic once if its row is marked,
      plus the copies whose produce or mark went wrong. */
  lemma RowOccurrences(executors: nat, nodes: nat, actions: seq<Action>, x: nat, i: nat)
    requires var dbs := RunAll(Init(executors, nodes), actions).drain.dbs; x < |dbs| && i < |dbs[x].outbox|
    ensures var d := RunAll(Init(executors, nodes), actions).drain;
            var row := d.dbs[x].outbox[i];
            multiset(d.topic)[Publisher.RecordOf(row)]
                == (if row.published.Some? then 1 else 0) + d.extra[Publisher.RecordOf(row)]
  {
    RunInv(executors, nodes, actions);
    var d := RunAll(Init(executors, nodes), actions).drain;
    var row := d.dbs[x].outbox[i];
    OnlyRowFor(executors, nodes, actions, x, i);
    if row.published.Some? {
      MarkCounts(d.dbs, x, i);
      EachOrderInOnePlace(executors, nodes, actions, row.orderId);
      MarkCountWithin(d, Publisher.RecordOf(row), Publisher.RecordOf(row));
      OrderOfRow(d, x, i);
    } else if Drain.MarkCount(d.dbs, Publisher.RecordOf(row)) > 0 {
      var y, j := FindMarked(d.dbs, Publisher.RecordOf(row));
    }
  }

  lemma OrderOfRow(d: Drain.State, x: nat, i: nat)
    requires Drain.Inv(d) && x < |d.dbs| && i < |d.dbs[x].outbox|
    ensures Publisher.RecordOf(d.dbs[x].outbox[i]).event.orderId == d.dbs[x].outbox[i].orderId
  {
    assert Drain.AllWellFormed(d.dbs[x].outbox) && Outbox.WellFormed(d.dbs[x].outbox[i]);
    RecordOrder(d.dbs[x].outbox[i]);
  }

  /** No other row, of whatever executor, has the same record. */
  lemma OnlyRowFor(executors: nat, nodes: nat, actions: seq<Action>, x: nat, i: nat)
    requires var dbs := RunAll(Init(executors, nodes), actions).drain.dbs; x < |dbs| && i < |dbs[x].outbox|
    ensures var dbs := RunAll(Init(executors, nodes), actions).drain.dbs;
            forall y: nat, j: nat | y < |dbs| && j < |dbs[y].outbox| &&
              Publisher.RecordOf(dbs[y].outbox[j]) == Publisher.RecordOf(dbs[x].outbox[i]) :: y == x && j == i
  {
    RunInv(executors, nodes, actions);
    var d := RunAll(Init(executors, nodes), actions).drain;
    forall y: nat, j: nat | y < |d.dbs| && j < |d.dbs[y].outbox| &&
      Publisher.RecordOf(d.dbs[y].outbox[j]) == Publisher.RecordOf(d.dbs[x].outbox[i])
      ensures y == x && j == i
    {
      OrderOfRow(d, x, i);
      OrderOfRow(d, y, j);
      RowsAreUnique(executors, nodes, actions, y, j, x, i);
    }
  }

  ghost predicate SameEvent(d: Drain.State, d': Drain.State, x: nat, i: nat)
    requires x < |d.dbs| && i < |d.dbs[x].outbox|
  {
    var row := d.dbs[x].outbox[i];
    && x < |d'.dbs| && i < |d'.dbs[x].outbox| && d'.dbs[x].outbox[i] == row
    && multiset(d'.topic)[Publisher.RecordOf(row)] == multiset(d.topic)[Publisher.RecordOf(row)]
  }

  lemma PublishElsewhere(d: Drain.State, op: Drain.Op, x: nat, i: nat)
    requires Drain.Inv(d) && Drain.Enabled(d, op) && x < |d.dbs| && i < |d.dbs[x].outbox|
             && d.dbs[x].outbox[i].published.Some?
    requires forall y: nat, j: nat | y < |d.dbs| && j < |d.dbs[y].outbox| &&
               Publisher.RecordOf(d.dbs[y].outbox[j]) == Publisher.RecordOf(d.dbs[x].outbox[i]) :: y == x && j == i
    ensures SameEvent(d, Drain.Next(d, op), x, i)
  {
    if op.Publish? {
      var rows := d.dbs[op.x].outbox;
      assert Outbox.Constraints(d.dbs[op.x]);
      Drain.MarkedRow(rows, op.row, op.now);
      Drain.CopiesCount(Publisher.RecordOf(rows[op.row]), op.o.copies);
    }
  }

  /** Once a row is marked, no publisher of any executor produces its event again: in every continuation
      the row and its number of occurrences stay as they are. */
  lemma {:induction false} PublishedIsFinal(executors: nat, nodes: nat, actions: seq<Action>, more: seq<Action>,
                                            x: nat, i: nat)
    requires var dbs := RunAll(Init(executors, nodes), actions).drain.dbs;
             x < |dbs| && i < |dbs[x].outbox| && dbs[x].outbox[i].published.Some?
    ensures SameEvent(RunAll(Init(executors, nodes), actions).drain,
            RunAll(Init(executors, nodes), actions + more).drain, x, i)
  {
    if more == [] {
      assert actions + more == actions;
    } else {
      var front, a := actions + more[..|more| - 1], more[|more| - 1];
      assert (actions + more)[..|actions + more| - 1] == front;
      PublishedIsFinal(executors, nodes, actions, more[..|more| - 1], x, i);
      RunInv(executors, nodes, front);
      OnlyRowFor(executors, nodes, front, x, i);
      StaysPublished(RunAll(Init(executors, nodes), front), a, x, i);
    }
  }

  lemma StaysPublished(s: State, a: Action, x: nat, i: nat)
    requires Drain.Inv(s.drain) && x < |s.drain.dbs| && i < |s.drain.dbs[x].outbox|
             && s.drain.dbs[x].outbox[i].published.Some?
    requires forall y: nat, j: nat | y < |s.drain.dbs| && j < |s.drain.dbs[y].outbox| &&
               Publisher.RecordOf(s.drain.dbs[y].outbox[j]) == Publisher.RecordOf(s.drain.dbs[x].outbox[i]) ::
                   y == x && j == i
    ensures SameEvent(s.drain, Next(s, a).drain, x, i)
  {
    if Enabled(s, a) {
      DrainStep(s, a);
      if a.Publish? {
        PublishElsewhere(s.drain, a.op, x, i);
      } else if a.Insert? && Next(s, a).drain != s.drain {
        PublishElsewhere(s.drain, InsertOp(s, a.h, a.created), x, i);
      }
    }
  }

  // ----- publishes that went wrong -----

  /** The step is a publish that is not clean: it does not land just once and get marked, or fail without
      landing. */
  predicate Unclean(s: State, a: Action) {
    Enabled(s, a) && a.Publish? && !Drain.Clean(a.op)
  }

  predicate CleanPublishes(executors: nat, nodes: nat, actions: seq<Action>) {
    !Happens(executors, nodes, actions, Unclean)
  }

  /** What one step does to the outboxes and the topic. */
  lemma DrainStep(s: State, a: Action)
    requires Enabled(s, a)
    ensures a.Publish? ==> Drain.Enabled(s.drain, a.op) && Next(s, a).drain == Drain.Next(s.drain, a.op)
    ensures a.Insert? ==>
              var op := InsertOp(s, a.h, a.created);
              Next(s, a).drain == s.drain || (Drain.Enabled(s.drain, op) && Next(s, a).drain == Drain.Next(s.drain, op))
    ensures !a.Publish? && !a.Insert? ==> Next(s, a).drain == s.drain
  {
  }

  /** There are surplus copies exactly when some publish was not clean. */
  lemma {:induction false} ExtraExactly(executors: nat, nodes: nat, actions: seq<Action>)
    ensures RunAll(Init(executors, nodes), actions).drain.extra == multiset{} <==>
              CleanPublishes(executors, nodes, actions)
  {
    if actions != [] {
      var front, a := actions[..|actions| - 1], actions[|actions| - 1];
      assert actions == front + [a];
      ExtraExactly(executors, nodes, front);
      HappensGrows(executors, nodes, front, a, Unclean);
      RunInv(executors, nodes, front);
      ExtraAfter(RunAll(Init(executors, nodes), front), a);
    }
  }

  lemma ExtraAfter(s: State, a: Action)
    requires Drain.Inv(s.drain)
    ensures Next(s, a).drain.extra == multiset{} <==> s.drain.extra == multiset{} && !Unclean(s, a)
  {
    if Enabled(s, a) {
      DrainStep(s, a);
      if a.Publish? {
        Drain.ExtraStep(s.drain, a.op);
      }
    }
  }

  lemma {:induction false} ExtraHasRows(executors: nat, nodes: nat, actions: seq<Action>)
    ensures Drain.ExtraHasRows(RunAll(Init(executors, nodes), actions).drain)
  {
    if actions != [] {
      var before, a := RunAll(Init(executors, nodes), actions[..|actions| - 1]), actions[|actions| - 1];
      ExtraHasRows(executors, nodes, actions[..|actions| - 1]);
      ExtraHasRowsAfter(before, a);
    }
  }

  lemma ExtraHasRowsAfter(s: State, a: Action)
    requires Drain.ExtraHasRows(s.drain)
    ensures Drain.ExtraHasRows(Next(s, a).drain)
  {
    if Enabled(s, a) {
      DrainStep(s, a);
      if a.Publish? {
        Drain.ExtraHasRowsStep(s.drain, a.op);
      } else if a.Insert? && Next(s, a).drain != s.drain {
        Drain.ExtraHasRowsStep(s.drain, InsertOp(s, a.h, a.created));
      }
    }
  }

  /** When every row has been published, the topic has two events for one order exactly when some
      publish was not clean. */
  lemma DuplicatesExactly(executors: nat, nodes: nat, actions: seq<Action>)
    requires AllPublished(RunAll(Init(executors, nodes), actions).drain.dbs)
    ensures var topic := RunAll(Init(executors, nodes), actions).drain.topic;
            (forall i, j :: 0 <= i < j < |topic| ==> topic[i].event.orderId != topic[j].event.orderId)
            <==> CleanPublishes(executors, nodes, actions)
  {
    ExtraExactly(executors, nodes, actions);
    var d := RunAll(Init(executors, nodes), actions).drain;
    if d.extra == multiset{} {
      forall i, j | 0 <= i < j < |d.topic| ensures d.topic[i].event.orderId != d.topic[j].event.orderId {
        NoDuplicateEvents(executors, nodes, actions, i, j);
      }
    } else {
      RunInv(executors, nodes, actions);
      ExtraHasRows(executors, nodes, actions);
      var r :| r in d.extra;
      var x: nat, k: nat :| x < |d.dbs| && k < |d.dbs[x].outbox| && Publisher.RecordOf(d.dbs[x].outbox[k]) == r;
      var i, j := TwoCopies(d, x, k);
    }
  }

  lemma TwoCopies(d: Drain.State, x: nat, i: nat) returns (a: nat, b: nat)
    requires Drain.Inv(d) && x < |d.dbs| && i < |d.dbs[x].outbox| && d.dbs[x].outbox[i].published.Some?
    requires Publisher.RecordOf(d.dbs[x].outbox[i]) in d.extra
    ensures a < b < |d.topic| && d.topic[a] == d.topic[b] == Publisher.RecordOf(d.dbs[x].outbox[i])
  {
    MarkCounts(d.dbs, x, i);
    a, b := TwoPlaces(d.topic, Publisher.RecordOf(d.dbs[x].outbox[i]));
  }

  lemma {:induction false} TwoPlaces<T>(topic: seq<T>, r: T) returns (i: nat, j: nat)
    requires multiset(topic)[r] >= 2
    ensures i < j < |topic| && topic[i] == topic[j] == r
  {
    var front, last := topic[..|topic| - 1], topic[|topic| - 1];
    assert topic == front + [last];
    if last == r {
      assert multiset(front)[r] >= 1;
      assert r in front;
      i :| 0 <= i < |front| && front[i] == r;
      j := |front|;
    } else {
      i, j := TwoPlaces(front, r);
    }
  }
}
