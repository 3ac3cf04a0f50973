/** What the replicated table, the outboxes and the events topic say about the commands they come from. */
module PipelineContent {
  import opened Wrappers
  import opened Json
  import opened Messages
  import opened Executor
  import opened Pipeline
  import opened PipelineSafety
  import opened PipelineResults
  import opened PipelineLoss
  import Fsm
  import Outbox
  import Publisher
  import Drain

  /** Some record on orders.commands is a valid order with this id and event id. */
  predicate Commanded(commands: seq<CommandRecord>, orderId: string, eventId: string) {
    exists i | 0 <= i < |commands| ::
      commands[i].order.Ok? && commands[i].order.value.orderId == orderId && commands[i].order.value.eventId == eventId
  }

  predicate UpsertCommanded(commands: seq<CommandRecord>, u: UpsertCommand) {
    Commanded(commands, u.orderId, u.commandEventId) && u.status == "ACCEPTED" && u.reason == "accepted"
  }

  predicate RecordCommanded(commands: seq<CommandRecord>, o: string, p: ProcessedOrder) {
    p.orderId == o && Commanded(commands, o, p.commandEventId) && p.status == "ACCEPTED" && p.reason == "accepted"
  }

  predicate RowCommanded(commands: seq<CommandRecord>, r: Outbox.OutboxRow) {
    && |r.eventId| >= 4 && r.eventId[..4] == "evt-"
    && Commanded(commands, r.orderId, r.eventId[4..])
  }

  predicate RowsCommanded(commands: seq<CommandRecord>, rows: seq<Outbox.OutboxRow>) {
    forall i | 0 <= i < |rows| :: RowCommanded(commands, rows[i])
  }

  ghost predicate AllCommanded(s: State) {
    && (forall r | 0 <= r < |s.rpcs| :: UpsertCommanded(s.commands, s.rpcs[r].upsert))
    && (forall o | o in Table(s) :: RecordCommanded(s.commands, o, Table(s)[o]))
    && (forall x | 0 <= x < |s.drain.dbs| :: RowsCommanded(s.commands, s.drain.dbs[x].outbox))
  }

  lemma StillCommanded(s: State, a: Action, orderId: string, eventId: string)
    requires Commanded(s.commands, orderId, eventId)
    ensures Commanded(Next(s, a).commands, orderId, eventId)
  {
    ListsGrow(s, a);
    var i :| 0 <= i < |s.commands| && s.commands[i].order.Ok? && s.commands[i].order.value.orderId == orderId
      && s.commands[i].order.value.eventId == eventId;
    assert Next(s, a).commands[i] == s.commands[i];
  }

  lemma BusyCommanded(s: State, h: nat)
    requires HandlersOk(s) && IsBusy(s, h)
    ensures Commanded(s.commands, s.handlers[h].run.cmd.orderId, s.handlers[h].run.cmd.eventId)
  {
    assert HandlerOk(s, s.handlers[h]);
    assert s.commands[s.handlers[h].offset].order == Ok(s.handlers[h].run.cmd);
  }

  lemma RpcsStep(s: State, a: Action)
    requires HandlersOk(s) && AllCommanded(s)
    ensures forall r | 0 <= r < |Next(s, a).rpcs| :: UpsertCommanded(Next(s, a).commands, Next(s, a).rpcs[r].upsert)
  {
    var s' := Next(s, a);
    ListsGrow(s, a);
    forall r | 0 <= r < |s'.rpcs| ensures UpsertCommanded(s'.commands, s'.rpcs[r].upsert) {
      if r < |s.rpcs| {
        assert UpsertCommanded(s.commands, s.rpcs[r].upsert);
        StillCommanded(s, a, s.rpcs[r].upsert.orderId, s.rpcs[r].upsert.commandEventId);
      } else {
        NewRpc(s, a, r);
        BusyCommanded(s, a.h);
        StillCommanded(s, a, s.handlers[a.h].run.cmd.orderId, s.handlers[a.h].run.cmd.eventId);
      }
    }
  }

  lemma NewRpc(s: State, a: Action, r: nat)
    requires |s.rpcs| <= r < |Next(s, a).rpcs|
    ensures a.Send? && IsBusy(s, a.h)
    ensures Next(s, a).rpcs[r].upsert == UpsertFor(s.handlers[a.h].run.cmd, s.handlers[a.h].run.ts)
  {
  }

  lemma TableStep(s: State, a: Action)
    requires AllCommanded(s)
    ensures forall o | o in Table(Next(s, a)) :: RecordCommanded(Next(s, a).commands, o, Table(Next(s, a))[o])
  {
    var s' := Next(s, a);
    if a.Append? && Enabled(s, a) {
      Fsm.ReplayAppend(map[], s.cluster.log, Fsm.Upsert(s.rpcs[a.r].upsert));
      assert UpsertCommanded(s.commands, s.rpcs[a.r].upsert);
    } else {
      LogStays(s, a);
    }
    forall o | o in Table(s') ensures RecordCommanded(s'.commands, o, Table(s')[o]) {
      if o in Table(s) {
        assert RecordCommanded(s.commands, o, Table(s)[o]);
      }
      StillCommanded(s, a, o, Table(s')[o].commandEventId);
    }
  }

  lemma RowsStep(s: State, a: Action)
    requires HandlersOk(s) && AllCommanded(s) && Enabled(s, a)
    ensures forall x | 0 <= x < |Next(s, a).drain.dbs| ::
              RowsCommanded(Next(s, a).commands, Next(s, a).drain.dbs[x].outbox)
  {
    var s' := Next(s, a);
    DrainStep(s, a);
    forall x, i | 0 <= x < |s'.drain.dbs| && 0 <= i < |s'.drain.dbs[x].outbox|
      ensures RowCommanded(s'.commands, s'.drain.dbs[x].outbox[i])
    {
      var row := s'.drain.dbs[x].outbox[i];
      if i < |s.drain.dbs[x].outbox| {
        assert RowsCommanded(s.commands, s.drain.dbs[x].outbox) && RowCommanded(s.commands, s.drain.dbs[x].outbox[i]);
        RowKept(s, a, x, i);
        StillCommanded(s, a, row.orderId, row.eventId[4..]);
      } else {
        NewRow(s, a, x, i);
        BusyCommanded(s, a.h);
        var cmd := s.handlers[a.h].run.cmd;
        assert ("evt-" + cmd.eventId)[4..] == cmd.eventId && ("evt-" + cmd.eventId)[..4] == "evt-";
        StillCommanded(s, a, cmd.orderId, cmd.eventId);
      }
    }
  }

  lemma RowKept(s: State, a: Action, x: nat, i: nat)
    requires Enabled(s, a) && x < |s.drain.dbs| && i < |s.drain.dbs[x].outbox|
    ensures x < |Next(s, a).drain.dbs| && i < |Next(s, a).drain.dbs[x].outbox|
    ensures Next(s, a).drain.dbs[x].outbox[i].orderId == s.drain.dbs[x].outbox[i].orderId
    ensures Next(s, a).drain.dbs[x].outbox[i].eventId == s.drain.dbs[x].outbox[i].eventId
  {
    DrainStep(s, a);
  }

  lemma NewRow(s: State, a: Action, x: nat, i: nat)
    requires Enabled(s, a) && x < |Next(s, a).drain.dbs| && i < |Next(s, a).drain.dbs[x].outbox|
    requires x < |s.drain.dbs| && i >= |s.drain.dbs[x].outbox|
    ensures a.Insert? && IsBusy(s, a.h)
    ensures var row := Next(s, a).drain.dbs[x].outbox[i]; var cmd := s.handlers[a.h].run.cmd;
            row.orderId == cmd.orderId && row.eventId == "evt-" + cmd.eventId
  {
    DrainStep(s, a);
  }

  lemma {:induction false} RunCommanded(executors: nat, nodes: nat, actions: seq<Action>)
    ensures AllCommanded(RunAll(Init(executors, nodes), actions))
  {
    if actions != [] {
      var before, a := RunAll(Init(executors, nodes), actions[..|actions| - 1]), actions[|actions| - 1];
      RunCommanded(executors, nodes, actions[..|actions| - 1]);
      RunInv(executors, nodes, actions[..|actions| - 1]);
      RpcsStep(before, a);
      TableStep(before, a);
      if Enabled(before, a) {
        RowsStep(before, a);
      }
    }
  }

  /** Every record of the replicated table is for a valid order on orders.commands, under that order's id, with the
      event id of a command for it and the verdict ACCEPTED. */
  lemma TableSays(executors: nat, nodes: nat, actions: seq<Action>, o: string)
    requires o in Table(RunAll(Init(executors, nodes), actions))
    ensures var s := RunAll(Init(executors, nodes), actions); var p := Table(s)[o];
            && p.orderId == o && p.status == "ACCEPTED" && p.reason == "accepted"
            && exists i | 0 <= i < |s.commands| ::
                 && ParseOrder(s.commands[i].value).Ok?
                 && ParseOrder(s.commands[i].value).value.orderId == o
                 && ParseOrder(s.commands[i].value).value.eventId == p.commandEventId
  {
    RunCommanded(executors, nodes, actions);
    var s := RunAll(Init(executors, nodes), actions);
    assert RecordCommanded(s.commands, o, Table(s)[o]);
    var i := CommandOf(executors, nodes, actions, o, Table(s)[o].commandEventId);
  }

  lemma CommandOf(executors: nat, nodes: nat, actions: seq<Action>, o: string, eventId: string) returns (i: nat)
    requires Commanded(RunAll(Init(executors, nodes), actions).commands, o, eventId)
    ensures var s := RunAll(Init(executors, nodes), actions);
            && i < |s.commands| && ParseOrder(s.commands[i].value).Ok?
            && ParseOrder(s.commands[i].value).value.orderId == o
            && ParseOrder(s.commands[i].value).value.eventId == eventId
  {
    RunInv(executors, nodes, actions);
    var s := RunAll(Init(executors, nodes), actions);
    i :| 0 <= i < |s.commands| && s.commands[i].order.Ok? && s.commands[i].order.value.orderId == o
      && s.commands[i].order.value.eventId == eventId;
    assert s.commands[i] == ToRecord(s.commands[i].value);
  }

  /** Every event on the topic went to orders.events under its order's id, and accepts a valid order on
      orders.commands, its own event id being that of the command with "evt-" before it. */
  lemma EventsSay(executors: nat, nodes: nat, actions: seq<Action>, k: nat)
    requires k < |RunAll(Init(executors, nodes), actions).drain.topic|
    ensures var s := RunAll(Init(executors, nodes), actions); var r := s.drain.topic[k];
            && r.topic == "orders.events" && r.key == r.event.orderId
            && r.event.status == "ACCEPTED" && r.event.reason == "accepted"
            && exists i | 0 <= i < |s.commands| ::
                 && ParseOrder(s.commands[i].value).Ok?
                 && ParseOrder(s.commands[i].value).value.orderId == r.event.orderId
                 && "evt-" + ParseOrder(s.commands[i].value).value.eventId == r.event.eventId
  {
    RunCommanded(executors, nodes, actions);
    DrainFacts(executors, nodes, actions);
    var s := RunAll(Init(executors, nodes), actions);
    var r := s.drain.topic[k];
    var x, j := RowBehind(s.drain, r);
    var row := s.drain.dbs[x].outbox[j];
    assert Drain.AllWellFormed(s.drain.dbs[x].outbox) && Outbox.WellFormed(row);
    assert RowsCommanded(s.commands, s.drain.dbs[x].outbox) && RowCommanded(s.commands, row);
    var i := CommandOf(executors, nodes, actions, row.orderId, row.eventId[4..]);
    assert "evt-" + row.eventId[4..] == row.eventId;
  }
}
