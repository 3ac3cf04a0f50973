/** The order path when every command comes from the stream processor. */
module PipelineStream {
  import opened Wrappers
  import opened Json
  import opened Messages
  import opened Pipeline
  import opened PipelineSafety
  import opened PipelineResults
  import opened PipelineLoss
  import StreamProcessor
  import Outbox
  import Drain

  /** Whatever is produced to orders.commands is the order for some tick. */
  ghost predicate FromTicks(a: Action) {
    a.Produce? ==> exists t: StreamProcessor.Tick, now: int64 ::
        a.value == EncodeOrderCmd(StreamProcessor.OrderFor(t, now))
  }

  predicate StreamOrder(cmd: OrderCmd) {
    cmd.orderId == "ord-" + cmd.eventId
  }

  predicate StreamRecord(rec: CommandRecord) {
    rec.order.Ok? ==> StreamOrder(rec.order.value)
  }

  predicate StreamRow(r: Outbox.OutboxRow) {
    && |r.eventId| >= 4 && r.eventId == "evt-" + r.eventId[4..]
    && r.orderId == "ord-" + r.eventId[4..]
  }

  predicate StreamRows(rows: seq<Outbox.OutboxRow>) {
    forall i | 0 <= i < |rows| :: StreamRow(rows[i])
  }

  /** Every accepted command is an order named after its own event, and every outbox row is the event of
      such a command: its ids are ("ord-" + x, "evt-" + x). */
  predicate StreamInv(s: State) {
    && (forall i | 0 <= i < |s.commands| :: StreamRecord(s.commands[i]))
    && (forall x | 0 <= x < |s.drain.dbs| :: StreamRows(s.drain.dbs[x].outbox))
  }

  lemma ProducedFromTick(value: Json)
    requires FromTicks(Produce(value))
    ensures StreamRecord(ToRecord(value))
  {
    var t: StreamProcessor.Tick, now: int64 :| value == EncodeOrderCmd(StreamProcessor.OrderFor(t, now));
    OrderCmdRoundTrip(StreamProcessor.OrderFor(t, now));
  }

  /** The executor accepts the order made from a tick, as it was made, exactly when the tick has a
      positive price and a symbol. */
  lemma TickAcceptedExactly(t: StreamProcessor.Tick, now: int64)
    ensures var cmd := StreamProcessor.OrderFor(t, now);
            (ToRecord(EncodeOrderCmd(cmd)).order == Ok(cmd) <==> t.price > 0.0 && t.symbol != "")
            && (ToRecord(EncodeOrderCmd(cmd)).order.Ok? ==> ToRecord(EncodeOrderCmd(cmd)).order == Ok(cmd))
  {
    OrderCmdRoundTrip(StreamProcessor.OrderFor(t, now));
  }

  lemma RowFromStream(id: nat, cmd: OrderCmd, ts: int64, created: int64)
    requires StreamOrder(cmd)
    ensures StreamRow(Outbox.EventRow(id, cmd.orderId, cmd.eventId, ts, created))
  {
    assert ("evt-" + cmd.eventId)[4..] == cmd.eventId;
  }

  lemma NextStream(s: State, a: Action)
    requires Inv(s) && StreamInv(s) && Enabled(s, a) && FromTicks(a)
    ensures StreamInv(Next(s, a))
  {
    NextStreamRecords(s, a);
    match a
    case Insert(h, created, _, _) =>
      assert HandlerOk(s, s.handlers[h]) && StreamRecord(s.commands[s.handlers[h].offset]);
      InsertStream(s.drain, InsertOp(s, h, created), s.handlers[h].run.cmd);
    case Publish(op) => PublishStream(s.drain, op);
    case _ =>
  }

  lemma NextStreamRecords(s: State, a: Action)
    requires StreamInv(s) && Enabled(s, a) && FromTicks(a)
    ensures forall i | 0 <= i < |Next(s, a).commands| :: StreamRecord(Next(s, a).commands[i])
  {
    if a.Produce? {
      ProducedFromTick(a.value);
    }
  }

  lemma InsertStream(d: Drain.State, op: Drain.Op, cmd: OrderCmd)
    requires op.Add? && op.orderId == cmd.orderId && op.commandEventId == cmd.eventId && StreamOrder(cmd)
    requires forall x | 0 <= x < |d.dbs| :: StreamRows(d.dbs[x].outbox)
    ensures Drain.Enabled(d, op) ==> forall x | 0 <= x < |d.dbs| :: StreamRows(Drain.Next(d, op).dbs[x].outbox)
  {
    if Drain.Enabled(d, op) {
      RowFromStream(d.dbs[op.x].nextId, cmd, op.ts, op.created);
      assert StreamRows(d.dbs[op.x].outbox);
    }
  }

  lemma PublishStream(d: Drain.State, op: Drain.Op)
    requires op.Publish? && Drain.Enabled(d, op)
    requires forall x | 0 <= x < |d.dbs| :: StreamRows(d.dbs[x].outbox)
    ensures forall x | 0 <= x < |d.dbs| :: StreamRows(Drain.Next(d, op).dbs[x].outbox)
  {
    var rows, rows' := d.dbs[op.x].outbox, Drain.Next(d, op).dbs[op.x].outbox;
    assert StreamRows(rows);
    assert forall i | 0 <= i < |rows| :: rows'[i].eventId == rows[i].eventId && rows'[i].orderId == rows[i].orderId;
  }

  lemma {:induction false} StreamRunInv(executors: nat, nodes: nat, actions: seq<Action>)
    requires forall a | a in actions :: FromTicks(a)
    ensures StreamInv(RunAll(Init(executors, nodes), actions))
  {
    if actions != [] {
      var before, a := RunAll(Init(executors, nodes), actions[..|actions| - 1]), actions[|actions| - 1];
      StreamRunInv(executors, nodes, actions[..|actions| - 1]);
      RunInv(executors, nodes, actions[..|actions| - 1]);
      if Enabled(before, a) {
        NextStream(before, a);
      }
    }
  }

  lemma HeldCounts(s: State, h: nat)
    requires h < |s.handlers| && HeldToken(s.handlers[h]).Some?
    ensures Held(s, HeldToken(s.handlers[h]).value) > 0
  {
    assert HeldTokens(s.handlers)[h] in multiset(HeldTokens(s.handlers));
  }

  predicate AboutToInsert(s: State, h: nat) {
    IsBusy(s, h) && s.handlers[h].run.stage.Inserting?
  }

  /** The table would take the row. */
  predicate Accepts(s: State, h: nat, created: int64)
    requires AboutToInsert(s, h)
  {
    Drain.Enabled(s.drain, InsertOp(s, h, created))
  }

  lemma NoClash(s: State, h: nat, created: int64)
    requires Inv(s) && StreamInv(s) && AboutToInsert(s, h)
    ensures Accepts(s, h, created)
  {
    var hd := s.handlers[h];
    var cmd := hd.run.cmd;
    assert HandlerOk(s, hd) && StreamRecord(s.commands[hd.offset]);
    assert ConservedFor(s, cmd.orderId);
    HeldCounts(s, h);
    var rows := s.drain.dbs[hd.x].outbox;
    assert StreamRows(rows);
    if i :| 0 <= i < |rows| && rows[i].eventId == "evt-" + cmd.eventId {
      assert ("evt-" + cmd.eventId)[4..] == cmd.eventId && StreamRow(rows[i]);
      RowsAtLeast(s.drain.dbs, hd.x, i, hd.x, i);
      assert false;
    }
  }

  /** An insert after a fresh acknowledgement never meets the UNIQUE constraint on event_id. */
  lemma InsertNeverRefused(executors: nat, nodes: nat, actions: seq<Action>, h: nat, created: int64)
    requires forall a | a in actions :: FromTicks(a)
    requires AboutToInsert(RunAll(Init(executors, nodes), actions), h)
    ensures Accepts(RunAll(Init(executors, nodes), actions), h, created)
  {
    RunInv(executors, nodes, actions);
    StreamRunInv(executors, nodes, actions);
    NoClash(RunAll(Init(executors, nodes), actions), h, created);
  }

  /** However often a tick is redelivered, at most one row is for it: two rows, in whatever executors,
      whose event ids are equal are the same row, and so are two whose order ids are. */
  lemma OneRowPerTick(executors: nat, nodes: nat, actions: seq<Action>, x: nat, i: nat, y: nat, j: nat)
    requires forall a | a in actions :: FromTicks(a)
    requires var dbs := RunAll(Init(executors, nodes), actions).drain.dbs;
             && x < |dbs| && i < |dbs[x].outbox| && y < |dbs| && j < |dbs[y].outbox|
             && (dbs[x].outbox[i].orderId == dbs[y].outbox[j].orderId
                || dbs[x].outbox[i].eventId == dbs[y].outbox[j].eventId)
    ensures x == y && i == j
    ensures var row := RunAll(Init(executors, nodes), actions).drain.dbs[x].outbox[i];
            exists tickId: string :: row.orderId == "ord-" + tickId && row.eventId == "evt-" + tickId
  {
    StreamRunInv(executors, nodes, actions);
    var dbs := RunAll(Init(executors, nodes), actions).drain.dbs;
    assert StreamRows(dbs[x].outbox) && StreamRows(dbs[y].outbox);
    assert StreamRow(dbs[x].outbox[i]) && StreamRow(dbs[y].outbox[j]);
    RowsAreUnique(executors, nodes, actions, x, i, y, j);
  }

  /** The step fails the order: it drops a fresh acknowledgement of it, crashes a handler that holds one,
      or is an insert for it that fails without landing. */
  predicate Fails(s: State, a: Action, o: string) {
    Loses(s, a, o) && (a.Insert? ==> a.fails && !a.landed)
  }

  predicate FailedIn(executors: nat, nodes: nat, actions: seq<Action>, o: string) {
    Happens(executors, nodes, actions, (s, a) => Fails(s, a, o))
  }

  /** No step loses an order without failing it. */
  lemma LosesIsFails(s: State, a: Action, o: string)
    requires Inv(s) && StreamInv(s)
    ensures Loses(s, a, o) <==> Fails(s, a, o)
  {
    if Enabled(s, a) && a.Insert? {
      NoClash(s, a.h, a.created);
    }
  }

  lemma SameKind(executors: nat, nodes: nat, actions: seq<Action>, p: (State, Action) -> bool,
                 q: (State, Action) -> bool)
    requires forall k: nat | k < |actions| ::
               p(RunAll(Init(executors, nodes), actions[..k]), actions[k]) <==>
                   q(RunAll(Init(executors, nodes), actions[..k]), actions[k])
    ensures Happens(executors, nodes, actions, p) <==> Happens(executors, nodes, actions, q)
  {
  }

  /** With commands from ticks alone, an order is lost exactly when a step fails it. */
  lemma LostExactlyByFailure(executors: nat, nodes: nat, actions: seq<Action>, o: string)
    requires forall a | a in actions :: FromTicks(a)
    ensures LostIn(executors, nodes, actions, o) <==> FailedIn(executors, nodes, actions, o)
  {
    forall k: nat | k < |actions|
      ensures Loses(RunAll(Init(executors, nodes), actions[..k]), actions[k], o)
         <==> Fails(RunAll(Init(executors, nodes), actions[..k]), actions[k], o)
    {
      RunInv(executors, nodes, actions[..k]);
      StreamRunInv(executors, nodes, actions[..k]);
      LosesIsFails(RunAll(Init(executors, nodes), actions[..k]), actions[k], o);
    }
    SameKind(executors, nodes, actions, (s, a) => Loses(s, a, o), (s, a) => Fails(s, a, o));
  }

  /** Exactly once, where it does hold, for orders made from ticks: whatever else happens (lost requests,
      late and lost duplicates, crashes, leader changes, restarts, stale reads, redelivery, retries), once
      nothing of an order is on its way it has its row if and only if it is replicated and no step failed
      it; and once its row has been published, one event if and only if, besides, each publish of the row
      was clean. */
  lemma ExactlyOnceWithoutLoss(executors: nat, nodes: nat, actions: seq<Action>, o: string)
    requires forall a | a in actions :: FromTicks(a)
    requires Quiet(RunAll(Init(executors, nodes), actions), o)
    ensures var s := RunAll(Init(executors, nodes), actions);
            && (Rows(s, o) == 1 <==> o in Table(s) && !FailedIn(executors, nodes, actions, o))
            && (RowsPublished(s.drain.dbs, o) ==>
                  (EventCount(s.drain.topic, o) == 1 <==>
                     o in Table(s) && !FailedIn(executors, nodes, actions, o)
                       && !SpoiltIn(executors, nodes, actions, o)))
  {
    LostExactlyByFailure(executors, nodes, actions, o);
    RowExactlyUnlessLost(executors, nodes, actions, o);
    if RowsPublished(RunAll(Init(executors, nodes), actions).drain.dbs, o) {
      OneEventExactly(executors, nodes, actions, o);
    }
  }
}
