/** The invariant of the order path, kept by every step of every run. */
module PipelineSafety {
  import opened Wrappers
  import opened Json
  import opened Messages
  import opened RaftServer
  import opened RaftClient
  import opened Executor
  import opened Pipeline
  import Fsm
  import Outbox
  import Drain
  import Replica

  // ----- where an order's one event can be -----

  function RpcTokens(log: seq<Fsm.Request>, rpcs: seq<Rpc>): (r: seq<Option<string>>)
    ensures |r| == |rpcs|
  {
    seq(|rpcs|, i requires 0 <= i < |rpcs| => RpcToken(log, rpcs[i]))
  }

  function HeldTokens(handlers: seq<Handler>): (r: seq<Option<string>>)
    ensures |r| == |handlers|
  {
    seq(|handlers|, i requires 0 <= i < |handlers| => HeldToken(handlers[i]))
  }

  /** Outbox rows for an order, in all executors. */
  function Rows(s: State, o: string): nat { Drain.RowCount(s.drain.dbs, o) }

  /** Fresh acknowledgements for it still on their way. */
  function InTransit(s: State, o: string): nat { multiset(RpcTokens(s.cluster.log, s.rpcs))[Some(o)] }

  /** Handlers holding one. */
  function Held(s: State, o: string): nat { multiset(HeldTokens(s.handlers))[Some(o)] }

  function Present(s: State, o: string): nat { if o in Table(s) then 1 else 0 }

  /** Every order in the replicated table is in exactly one place, every other order in none. */
  ghost predicate Conserved(s: State) {
    forall o: string :: ConservedFor(s, o)
  }

  ghost predicate ConservedFor(s: State, o: string) {
    Rows(s, o) + InTransit(s, o) + Held(s, o) + s.lost[o] == Present(s, o)
  }

  // ----- the rest of the invariant -----

  predicate RpcOk(log: seq<Fsm.Request>, r: Rpc) {
    match r.phase
    case InLog(index) => index < |log| && log[index] == Fsm.Upsert(r.upsert)
    case Answered(index, duplicate) =>
      && index < |log| && log[index] == Fsm.Upsert(r.upsert)
      && duplicate == Fsm.Answers(map[], log)[index].duplicate
    case _ => true
  }

  ghost predicate RunOk(s: State, offset: nat, run: Run)
    requires offset < |s.commands|
  {
    var order := s.commands[offset].order;
    match run
    case Busy(cmd, ts, stage, rpc) =>
      && order == Ok(cmd) && !stage.Finished?
      && (rpc.Some? ==> stage.Trying? && rpc.value < |s.rpcs| && s.rpcs[rpc.value].upsert == UpsertFor(cmd, ts))
      && (stage.Inserting? ==> cmd.orderId in Table(s))
    case Done(Nil(_)) => order.Ok? && order.value.orderId in Table(s)
    case Committed => order.Ok? && order.value.orderId in Table(s)
    case _ => true
  }

  ghost predicate HandlerOk(s: State, h: Handler) {
    h.x < |s.drain.dbs| && h.offset < |s.commands| && RunOk(s, h.offset, h.run)
  }

  ghost predicate HandlersOk(s: State) {
    forall h | 0 <= h < |s.handlers| :: HandlerOk(s, s.handlers[h])
  }

  ghost predicate RpcsOk(s: State) {
    forall r | 0 <= r < |s.rpcs| :: RpcOk(s.cluster.log, s.rpcs[r])
  }

  ghost predicate OffsetOk(s: State, offset: nat) {
    && offset < |s.commands| && s.commands[offset].order.Ok?
    && s.commands[offset].order.value.orderId in Table(s)
  }

  ghost predicate CommittedOk(s: State) {
    forall offset | offset in s.committed :: OffsetOk(s, offset)
  }

  predicate CommandsOk(s: State) {
    forall i | 0 <= i < |s.commands| :: s.commands[i] == ToRecord(s.commands[i].value)
  }

  ghost predicate Inv(s: State) {
    && Replica.ClusterInv(s.cluster) && Drain.Inv(s.drain)
    && RpcsOk(s) && HandlersOk(s) && CommittedOk(s) && CommandsOk(s) && Conserved(s)
  }

  lemma InitInv(executors: nat, nodes: nat)
    ensures Inv(Init(executors, nodes))
  {
    Replica.ClusterRunInv(nodes, []);
    Drain.InitInv(executors);
  }

  // ----- what a step leaves as it was -----

  /** Records and requests are never taken back, and the table only gains orders. */
  ghost predicate Grows(s: State, s': State) {
    && |s.commands| <= |s'.commands| && (forall i | 0 <= i < |s.commands| :: s'.commands[i] == s.commands[i])
    && |s.rpcs| <= |s'.rpcs| && (forall r | 0 <= r < |s.rpcs| :: s'.rpcs[r].upsert == s.rpcs[r].upsert)
    && |s'.drain.dbs| == |s.drain.dbs|
    && Table(s).Keys <= Table(s').Keys
  }

  lemma NextGrows(s: State, a: Action)
    ensures Grows(s, Next(s, a))
  {
    ListsGrow(s, a);
    if a.Append? && Enabled(s, a) {
      Fsm.ReplayAppend(map[], s.cluster.log, Fsm.Upsert(s.rpcs[a.r].upsert));
    } else {
      LogStays(s, a);
    }
  }

  lemma LogStays(s: State, a: Action)
    ensures !a.Append? ==> Next(s, a).cluster.log == s.cluster.log
  {
  }

  lemma ListsGrow(s: State, a: Action)
    ensures var s' := Next(s, a);
            && |s.commands| <= |s'.commands| && (forall i | 0 <= i < |s.commands| :: s'.commands[i] == s.commands[i])
            && |s.rpcs| <= |s'.rpcs| && (forall r | 0 <= r < |s.rpcs| :: s'.rpcs[r].upsert == s.rpcs[r].upsert)
            && |s'.drain.dbs| == |s.drain.dbs|
  {
  }

  lemma RunStaysOk(s: State, s': State, offset: nat, run: Run)
    requires Grows(s, s') && offset < |s.commands| && RunOk(s, offset, run)
    ensures RunOk(s', offset, run)
  {
  }

  // ----- requests -----

  lemma RpcStaysOk(log: seq<Fsm.Request>, entry: Fsm.Request, r: Rpc)
    requires RpcOk(log, r)
    ensures RpcOk(log + [entry], r)
    ensures RpcToken(log + [entry], r) == RpcToken(log, r)
  {
    Fsm.ReplayAppend(map[], log, entry);
  }

  lemma NextRpcs(s: State, a: Action)
    requires Inv(s) && Enabled(s, a)
    ensures RpcsOk(Next(s, a))
  {
    var s' := Next(s, a);
    forall r | 0 <= r < |s'.rpcs| ensures RpcOk(s'.cluster.log, s'.rpcs[r]) {
      if r < |s.rpcs| {
        assert RpcOk(s.cluster.log, s.rpcs[r]);
        match a
        case Append(q) =>
          RpcStaysOk(s.cluster.log, Fsm.Upsert(s.rpcs[q].upsert), s.rpcs[r]);
        case Answer(q, n) =>
          assert Replica.NodeInv(s.cluster.nodes[n], s.cluster.log);
        case _ =>
      }
    }
  }

  // ----- handlers -----

  lemma BeginOk(s: State, offset: nat, ts: int64)
    requires offset < |s.commands|
    ensures RunOk(s, offset, Begin(s.commands[offset], ts))
  {
  }

  /** A fresh or duplicate answer to a handler's own request means its order is in the table. */
  lemma AnsweredInTable(s: State, r: Rpc)
    requires RpcOk(s.cluster.log, r) && r.phase.Answered?
    ensures r.upsert.orderId in Table(s)
  {
    assert Fsm.Upserts(s.cluster.log, r.phase.index, r.upsert.orderId);
    Fsm.TableKeys(s.cluster.log, r.upsert.orderId);
  }

  /** A node that answers a read with `found` has the order, and so does the whole log. */
  lemma FoundInTable(s: State, n: nat, orderId: string, fault: Option<Code>)
    requires Inv(s) && n < |s.cluster.nodes|
    requires var r := AnswerRead(OrderQuery("query", orderId), fault, s.cluster.nodes[n].table); r.ReadResp? && r.found
    ensures orderId in Table(s)
  {
    OrderQueryAnswer("query", orderId, s.cluster.nodes[n].table);
    var node := s.cluster.nodes[n];
    assert Replica.NodeInv(node, s.cluster.log);
    Fsm.PrefixContained(map[], s.cluster.log, node.applied, |s.cluster.log|);
    assert s.cluster.log[..|s.cluster.log|] == s.cluster.log;
  }

  lemma TryMoves(s: State, offset: nat, run: Run, a: Attempt)
    requires offset < |s.commands| && RunOk(s, offset, run) && run.Busy? && run.stage.Trying?
    requires a.Replied? && a.reply.Ack? && a.reply.applied ==> run.cmd.orderId in Table(s)
    ensures RunOk(s, offset, MoveTo(run, Advance(run.stage, Tried(a))))
  {
  }

  lemma ReadMoves(s: State, offset: nat, run: Run, n: nat, fault: Option<Code>)
    requires Inv(s) && n < |s.cluster.nodes|
    requires offset < |s.commands| && RunOk(s, offset, run) && run.Busy? && run.stage.Reading?
    ensures var reply := AnswerRead(OrderQuery("query", run.cmd.orderId), fault, s.cluster.nodes[n].table);
            RunOk(s, offset, MoveTo(run, Advance(run.stage, WasRead(reply))))
  {
    var reply := AnswerRead(OrderQuery("query", run.cmd.orderId), fault, s.cluster.nodes[n].table);
    if reply.ReadResp? && reply.found {
      FoundInTable(s, n, run.cmd.orderId, fault);
    }
  }

  lemma NextHandlers(s: State, a: Action)
    requires Inv(s) && Enabled(s, a)
    ensures HandlersOk(Next(s, a))
  {
    var s' := Next(s, a);
    NextGrows(s, a);
    forall k | 0 <= k < |s'.handlers| ensures HandlerOk(s', s'.handlers[k]) {
      if k < |s.handlers| {
        assert HandlerOk(s, s.handlers[k]);
        RunStaysOk(s, s', s.handlers[k].offset, s.handlers[k].run);
      }
      NextHandler(s, a, k);
    }
  }

  lemma NextHandler(s: State, a: Action, k: nat)
    requires Inv(s) && Enabled(s, a) && k < |Next(s, a).handlers|
    requires Grows(s, Next(s, a))
    requires k < |s.handlers| ==> HandlerOk(Next(s, a), s.handlers[k])
    ensures HandlerOk(Next(s, a), Next(s, a).handlers[k])
  {
    var s' := Next(s, a);
    if k == |s.handlers| {
      BeginOk(s', a.offset, a.ts);
    } else if s'.handlers[k] != s.handlers[k] {
      assert HandlerOk(s, s.handlers[k]);
      if a.AckArrives? {
        AckMoves(s, a.h);
      } else if a.ReadReturns? {
        ReadMoves(s, s.handlers[k].offset, s.handlers[k].run, a.n, a.fault);
        RunStaysOk(s, s', s.handlers[k].offset, s'.handlers[k].run);
      } else {
        OtherMoves(s, a, k);
      }
    }
  }

  lemma AckMoves(s: State, h: nat)
    requires Inv(s) && Enabled(s, AckArrives(h))
    requires HandlerOk(Next(s, AckArrives(h)), s.handlers[h])
    ensures HandlerOk(Next(s, AckArrives(h)), Next(s, AckArrives(h)).handlers[h])
  {
    var run := s.handlers[h].run;
    assert HandlerOk(s, s.handlers[h]);
    var r := s.rpcs[run.rpc.value];
    assert RpcOk(s.cluster.log, r);
    AnsweredInTable(s, r);
    TryMoves(Next(s, AckArrives(h)), s.handlers[h].offset, run, Replied(AckOf(r.phase.duplicate)));
  }

  lemma OtherMoves(s: State, a: Action, k: nat)
    requires Enabled(s, a) && !a.AckArrives? && !a.ReadReturns? && k < |s.handlers|
    requires HandlerOk(s, s.handlers[k]) && HandlerOk(Next(s, a), s.handlers[k])
    requires Next(s, a).handlers[k] != s.handlers[k]
    ensures HandlerOk(Next(s, a), Next(s, a).handlers[k])
  {
    var h := s.handlers[k];
    match a
    case DialFails(_) => TryMoves(Next(s, a), h.offset, h.run, DialFailed);
    case NoAck(_, reply) => TryMoves(Next(s, a), h.offset, h.run, Replied(reply));
    case Retry(_, ts) => BeginOk(Next(s, a), h.offset, ts);
    case _ =>
  }

  lemma NextCommitted(s: State, a: Action)
    requires Inv(s) && Enabled(s, a)
    ensures CommittedOk(Next(s, a)) && CommandsOk(Next(s, a))
  {
    NextGrows(s, a);
    var s' := Next(s, a);
    forall offset | offset in s'.committed ensures OffsetOk(s', offset) {
      if offset in s.committed {
        assert OffsetOk(s, offset);
      } else {
        assert HandlerOk(s, s.handlers[a.h]);
      }
    }
  }

  // ----- conservation -----

  function One(token: Option<string>, o: string): nat { if token == Some(o) then 1 else 0 }

  lemma SetRunHeld(s: State, h: nat, run: Run, o: string)
    requires h < |s.handlers|
    ensures Held(SetRun(s, h, run), o) + One(HeldToken(s.handlers[h]), o)
         == Held(s, o) + One(HeldToken(s.handlers[h].(run := run)), o)
  {
    var tokens := HeldTokens(s.handlers);
    assert HeldTokens(SetRun(s, h, run).handlers) == tokens[h := HeldToken(s.handlers[h].(run := run))];
    assert tokens[h] in multiset(tokens);
  }

  lemma SetPhaseTransit(s: State, r: nat, phase: Phase, o: string)
    requires r < |s.rpcs|
    ensures InTransit(SetPhase(s, r, phase), o) + One(RpcToken(s.cluster.log, s.rpcs[r]), o)
         == InTransit(s, o) + One(RpcToken(s.cluster.log, s.rpcs[r].(phase := phase)), o)
  {
    var tokens := RpcTokens(s.cluster.log, s.rpcs);
    assert RpcTokens(s.cluster.log, SetPhase(s, r, phase).rpcs)
        == tokens[r := RpcToken(s.cluster.log, s.rpcs[r].(phase := phase))];
    assert tokens[r] in multiset(tokens);
  }

  /** Appending a request to the log: the table gains its order exactly when the request becomes the
      carrier of a fresh acknowledgement. */
  lemma AppendConserves(s: State, r: nat, o: string)
    requires ConservedFor(s, o) && RpcsOk(s) && Enabled(s, Append(r))
    ensures ConservedFor(Next(s, Append(r)), o)
    ensures Present(Next(s, Append(r)), o) == if o == s.rpcs[r].upsert.orderId then 1 else Present(s, o)
    ensures InTransit(Next(s, Append(r)), o) + Present(s, o) == InTransit(s, o) + Present(Next(s, Append(r)), o)
  {
    var log, entry := s.cluster.log, Fsm.Upsert(s.rpcs[r].upsert);
    var s' := Next(s, Append(r));
    Fsm.ReplayAppend(map[], log, entry);
    assert s.rpcs[r] == s.rpcs[r].(phase := Requested);
    forall i | 0 <= i < |s.rpcs| ensures RpcToken(log + [entry], s.rpcs[i]) == RpcToken(log, s.rpcs[i]) {
      assert RpcOk(log, s.rpcs[i]);
      RpcStaysOk(log, entry, s.rpcs[i]);
    }
    var grown := s.(cluster := s'.cluster);
    assert RpcTokens(log + [entry], s.rpcs) == RpcTokens(log, s.rpcs);
    SetPhaseTransit(grown, r, InLog(|log|), o);
    assert s' == SetPhase(grown, r, InLog(|log|));
  }

  lemma AckConserves(s: State, h: nat, o: string)
    requires ConservedFor(s, o) && HandlersOk(s) && Enabled(s, AckArrives(h))
    ensures ConservedFor(Next(s, AckArrives(h)), o)
    ensures var token := One(RpcToken(s.cluster.log, s.rpcs[s.handlers[h].run.rpc.value]), o);
            && InTransit(Next(s, AckArrives(h)), o) + token == InTransit(s, o)
            && Held(Next(s, AckArrives(h)), o) == Held(s, o) + token
  {
    var run := s.handlers[h].run;
    var r := run.rpc.value;
    assert HandlerOk(s, s.handlers[h]);
    var moved := SetRun(s, h, MoveTo(run, Advance(run.stage, Tried(Replied(AckOf(s.rpcs[r].phase.duplicate))))));
    SetRunHeld(s, h, moved.handlers[h].run, o);
    SetPhaseTransit(moved, r, Closed, o);
    AckDecides(run.stage.attempt, s.rpcs[r].phase.duplicate);
  }

  lemma AckDecides(attempt: nat, duplicate: bool)
    ensures AfterTry(attempt, Replied(AckOf(duplicate))) == if duplicate then Finished(Nil(Duplicate)) else Inserting
  {
    assert "applied"[0] != "duplicate"[0];
  }

  lemma InsertConserves(s: State, a: Action, o: string)
    requires ConservedFor(s, o) && Enabled(s, a) && a.Insert?
    ensures ConservedFor(Next(s, a), o)
    ensures var given := One(Some(s.handlers[a.h].run.cmd.orderId), o);
            var lands := Drain.Enabled(s.drain, InsertOp(s, a.h, a.created)) && (!a.fails || a.landed);
            && Held(Next(s, a), o) + given == Held(s, o)
            && Rows(Next(s, a), o) == Rows(s, o) + (if lands then given else 0)
            && Next(s, a).lost[o] == s.lost[o] + (if lands then 0 else given)
  {
    var h, s' := a.h, Next(s, a);
    var cmd := s.handlers[h].run.cmd;
    SetRunHeld(s, h, s'.handlers[h].run, o);
    assert s' == SetRun(s, h, s'.handlers[h].run).(drain := s'.drain, lost := s'.lost);
    var op := InsertOp(s, h, a.created);
    if Drain.Enabled(s.drain, op) && (!a.fails || a.landed) {
      AddCounts(s.drain, op, o);
    }
  }

  lemma AddCounts(d: Drain.State, op: Drain.Op, o: string)
    requires Drain.Enabled(d, op) && op.Add?
    ensures Drain.RowCount(Drain.Next(d, op).dbs, o) == Drain.RowCount(d.dbs, o) + One(Some(op.orderId), o)
  {
    var db := d.dbs[op.x];
    var row := Outbox.EventRow(db.nextId, op.orderId, op.commandEventId, op.ts, op.created);
    Drain.AppendedRow(db.outbox, row);
    Drain.RowCountUpdate(d.dbs, op.x, Drain.Next(d, op).dbs[op.x], o);
  }

  lemma PublishCounts(d: Drain.State, op: Drain.Op, o: string)
    requires Drain.Inv(d) && Drain.Enabled(d, op) && op.Publish?
    ensures Drain.RowCount(Drain.Next(d, op).dbs, o) == Drain.RowCount(d.dbs, o)
  {
    Drain.MarkedRow(d.dbs[op.x].outbox, op.row, op.now);
    Drain.RowCountUpdate(d.dbs, op.x, Drain.Next(d, op).dbs[op.x], o);
  }

  lemma CrashConserves(s: State, h: nat, o: string)
    requires ConservedFor(s, o) && Enabled(s, Crash(h))
    ensures ConservedFor(Next(s, Crash(h)), o)
  {
    SetRunHeld(s, h, Dead, o);
  }

  lemma LoseConserves(s: State, r: nat, o: string)
    requires ConservedFor(s, o) && Enabled(s, LoseAck(r))
    ensures ConservedFor(Next(s, LoseAck(r)), o)
  {
    SetPhaseTransit(s, r, Closed, o);
  }

  lemma AnswerConserves(s: State, r: nat, n: nat, o: string)
    requires ConservedFor(s, o) && RpcsOk(s) && Replica.ClusterInv(s.cluster) && Enabled(s, Answer(r, n))
    ensures ConservedFor(Next(s, Answer(r, n)), o)
  {
    assert RpcOk(s.cluster.log, s.rpcs[r]) && Replica.NodeInv(s.cluster.nodes[n], s.cluster.log);
    SetPhaseTransit(s, r, Next(s, Answer(r, n)).rpcs[r].phase, o);
  }

  /** A handler that moves without taking up or giving away an acknowledgement. */
  lemma MoveConserves(s: State, h: nat, run: Run, o: string)
    requires ConservedFor(s, o) && h < |s.handlers|
    requires HeldToken(s.handlers[h]) == None == HeldToken(s.handlers[h].(run := run))
    ensures ConservedFor(SetRun(s, h, run), o)
  {
    SetRunHeld(s, h, run, o);
  }

  lemma TryConserves(s: State, h: nat, a: Attempt, o: string)
    requires ConservedFor(s, o) && IsBusy(s, h) && s.handlers[h].run.stage.Trying?
    requires !(a.Replied? && a.reply.Ack? && a.reply.applied)
    ensures ConservedFor(SetRun(s, h, MoveTo(s.handlers[h].run, Advance(s.handlers[h].run.stage, Tried(a)))), o)
  {
    var run := s.handlers[h].run;
    NoAckHolds(run.stage.attempt, a);
    MoveConserves(s, h, MoveTo(run, Advance(run.stage, Tried(a))), o);
  }

  lemma NoAckHolds(attempt: nat, a: Attempt)
    requires !(a.Replied? && a.reply.Ack? && a.reply.applied)
    ensures !AfterTry(attempt, a).Inserting?
  {
  }

  lemma ReadConserves(s: State, a: Action, o: string)
    requires ConservedFor(s, o) && Enabled(s, a) && a.ReadReturns?
    ensures ConservedFor(Next(s, a), o)
  {
    MoveConserves(s, a.h, Next(s, a).handlers[a.h].run, o);
  }

  lemma CommitConserves(s: State, h: nat, o: string)
    requires ConservedFor(s, o) && Enabled(s, CommitOffset(h))
    ensures ConservedFor(Next(s, CommitOffset(h)), o)
  {
    MoveConserves(s, h, Run.Committed, o);
  }

  lemma DeliverConserves(s: State, a: Action, o: string)
    requires ConservedFor(s, o) && Enabled(s, a) && (a.Deliver? || a.Retry?)
    ensures ConservedFor(Next(s, a), o)
  {
    var s' := Next(s, a);
    if a.Deliver? {
      assert HeldTokens(s'.handlers) == HeldTokens(s.handlers) + [None];
    } else {
      assert HeldTokens(s'.handlers) == HeldTokens(s.handlers);
    }
  }

  lemma SendConserves(s: State, h: nat, o: string)
    requires ConservedFor(s, o) && Enabled(s, Send(h))
    ensures ConservedFor(Next(s, Send(h)), o)
  {
    var run := s.handlers[h].run;
    var waiting := SetRun(s, h, run.(rpc := Some(|s.rpcs|)));
    MoveConserves(s, h, run.(rpc := Some(|s.rpcs|)), o);
    NewRequest(waiting, UpsertFor(run.cmd, run.ts), o);
  }

  lemma NewRequest(s: State, upsert: UpsertCommand, o: string)
    requires ConservedFor(s, o)
    ensures ConservedFor(s.(rpcs := s.rpcs + [Rpc(upsert, Requested)]), o)
  {
    var s' := s.(rpcs := s.rpcs + [Rpc(upsert, Requested)]);
    assert RpcTokens(s.cluster.log, s'.rpcs) == RpcTokens(s.cluster.log, s.rpcs) + [None];
  }

  lemma DropConserves(s: State, r: nat, o: string)
    requires ConservedFor(s, o) && Enabled(s, Drop(r))
    ensures ConservedFor(Next(s, Drop(r)), o)
  {
    SetPhaseTransit(s, r, Closed, o);
  }

  /** Steps that touch neither requests, handlers nor the log. */
  lemma OtherConserves(s: State, s': State, o: string)
    requires ConservedFor(s, o) && Rows(s', o) == Rows(s, o)
    requires s'.cluster.log == s.cluster.log && s'.rpcs == s.rpcs && s'.handlers == s.handlers && s'.lost == s.lost
    ensures ConservedFor(s', o)
  {
  }

  /** A step of a handler, or a new or crashed one. */
  lemma HandlerConserves(s: State, a: Action, o: string)
    requires ConservedFor(s, o) && HandlersOk(s) && Enabled(s, a)
    requires a.Deliver? || a.DialFails? || a.Send? || a.NoAck? || a.AckArrives? || a.ReadReturns? || a.Insert?
             || a.Crash? || a.Retry? || a.CommitOffset?
    ensures ConservedFor(Next(s, a), o)
  {
    match a
    case AckArrives(h) => AckConserves(s, h, o);
    case Insert(_, _, _, _) => InsertConserves(s, a, o);
    case Crash(h) => CrashConserves(s, h, o);
    case DialFails(h) => TryConserves(s, h, DialFailed, o);
    case NoAck(h, reply) => TryConserves(s, h, Replied(reply), o);
    case ReadReturns(_, _, _) => ReadConserves(s, a, o);
    case CommitOffset(h) => CommitConserves(s, h, o);
    case Send(h) => SendConserves(s, h, o);
    case _ => DeliverConserves(s, a, o);
  }

  /** What happens to a request. */
  lemma RequestConserves(s: State, a: Action, o: string)
    requires ConservedFor(s, o) && RpcsOk(s) && Replica.ClusterInv(s.cluster) && Enabled(s, a)
    requires a.Append? || a.LoseAck? || a.Answer? || a.Drop?
    ensures ConservedFor(Next(s, a), o)
  {
    match a
    case Append(r) => AppendConserves(s, r, o);
    case LoseAck(r) => LoseConserves(s, r, o);
    case Answer(r, n) => AnswerConserves(s, r, n, o);
    case Drop(r) => DropConserves(s, r, o);
  }

  lemma PublishConserves(s: State, op: Drain.Op, o: string)
    requires ConservedFor(s, o) && Drain.Inv(s.drain) && op.Publish? && Drain.Enabled(s.drain, op)
    ensures ConservedFor(s.(drain := Drain.Next(s.drain, op)), o)
  {
    PublishCounts(s.drain, op, o);
    OtherConserves(s, s.(drain := Drain.Next(s.drain, op)), o);
  }

  lemma RestConserves(s: State, a: Action, o: string)
    requires ConservedFor(s, o) && Enabled(s, a) && (a.Produce? || a.AtCluster?)
    ensures ConservedFor(Next(s, a), o)
  {
    LogStays(s, a);
    OtherConserves(s, Next(s, a), o);
  }

  lemma NextConserves(s: State, a: Action, o: string)
    requires Inv(s) && Enabled(s, a)
    ensures ConservedFor(Next(s, a), o)
  {
    assert ConservedFor(s, o);
    if a.Append? || a.LoseAck? || a.Answer? || a.Drop? {
      RequestConserves(s, a, o);
    } else if a.Publish? {
      PublishConserves(s, a.op, o);
    } else if a.Produce? || a.AtCluster? {
      RestConserves(s, a, o);
    } else {
      HandlerConserves(s, a, o);
    }
  }

  lemma NextInv(s: State, a: Action)
    requires Inv(s)
    ensures Inv(Next(s, a))
  {
    if Enabled(s, a) {
      NextRpcs(s, a);
      NextHandlers(s, a);
      NextCommitted(s, a);
      NextParts(s, a);
      forall o: string ensures ConservedFor(Next(s, a), o) {
        NextConserves(s, a, o);
      }
    }
  }

  lemma NextParts(s: State, a: Action)
    requires Inv(s) && Enabled(s, a)
    ensures Replica.ClusterInv(Next(s, a).cluster) && Drain.Inv(Next(s, a).drain)
  {
    match a
    case Append(r) => Replica.ClusterStepInv(s.cluster, Replica.Commit(Fsm.Upsert(s.rpcs[r].upsert)));
    case AtCluster(event) => Replica.ClusterStepInv(s.cluster, event);
    case Publish(op) => Drain.NextInv(s.drain, op);
    case Insert(h, created, _, _) =>
      if Drain.Enabled(s.drain, InsertOp(s, h, created)) {
        Drain.NextInv(s.drain, InsertOp(s, h, created));
      }
    case _ =>
  }

  /** Every reachable state, under any interleaving. */
  lemma {:induction false} RunInv(executors: nat, nodes: nat, actions: seq<Action>)
    ensures Inv(RunAll(Init(executors, nodes), actions))
  {
    if actions == [] {
      InitInv(executors, nodes);
    } else {
      RunInv(executors, nodes, actions[..|actions| - 1]);
      NextInv(RunAll(Init(executors, nodes), actions[..|actions| - 1]), actions[|actions| - 1]);
    }
  }
}
