/** Where the order path falls short of exactly once: a replicated order, its offset committed, nothing
    left on its way, and no event, now or ever. */
module PipelineGap {
  import opened Wrappers
  import opened Json
  import opened Messages
  import opened RaftServer
  import opened Executor
  import opened Pipeline
  import opened PipelineSafety
  import opened PipelineResults
  import opened PipelineLoss
  import Fsm
  import Outbox
  import Publisher
  import Drain
  import Replica

  lemma {:induction false} RunAllSplit(s: State, a: seq<Action>, b: seq<Action>)
    ensures RunAll(s, a + b) == RunAll(RunAll(s, a), b)
  {
    if b == [] {
      assert a + b == a;
    } else {
      assert (a + b)[..|a + b| - 1] == a + b[..|b| - 1];
      RunAllSplit(s, a, b[..|b| - 1]);
    }
  }

  lemma RunOne(s: State, a: Action, rest: seq<Action>)
    ensures RunAll(s, [a] + rest) == RunAll(Next(s, a), rest)
  {
    RunAllSplit(s, [a], rest);
    assert RunAll(s, [a]) == Next(RunAll(s, [a][..0]), a);
  }

  /** A lost order stays without a row, however the run goes on. */
  lemma LostForever(executors: nat, nodes: nat, actions: seq<Action>, more: seq<Action>, o: string)
    requires o in RunAll(Init(executors, nodes), actions).lost
    ensures Rows(RunAll(Init(executors, nodes), actions + more), o) == 0
  {
    RunAllSplit(Init(executors, nodes), actions, more);
    LostGrows(RunAll(Init(executors, nodes), actions), more, o);
    EachOrderInOnePlace(executors, nodes, actions + more, o);
  }

  lemma {:induction false} LostGrows(s: State, more: seq<Action>, o: string)
    ensures RunAll(s, more).lost[o] >= s.lost[o]
  {
    if more != [] {
      LostGrows(s, more[..|more| - 1], o);
    }
  }

  // ----- an acknowledgement nobody waits for -----

  predicate WaitsFor(run: Run, r: nat) {
    run.Busy? && run.rpc == Some(r)
  }

  predicate Awaited(s: State, r: nat) {
    exists h | 0 <= h < |s.handlers| :: WaitsFor(s.handlers[h].run, r)
  }

  /** Request `r` carries the fresh acknowledgement of an order, and no handler waits for it. */
  predicate Orphan(s: State, r: nat, o: string) {
    r < |s.rpcs| && RpcToken(s.cluster.log, s.rpcs[r]) == Some(o) && !Awaited(s, r)
  }

  lemma NoNewWait(s: State, a: Action, r: nat, h: nat)
    requires r < |s.rpcs| && h < |Next(s, a).handlers| && WaitsFor(Next(s, a).handlers[h].run, r)
    ensures h < |s.handlers| && WaitsFor(s.handlers[h].run, r)
  {
  }

  lemma NeverAwaitedAgain(s: State, a: Action, r: nat)
    requires r < |s.rpcs| && !Awaited(s, r)
    ensures !Awaited(Next(s, a), r)
  {
    if h :| 0 <= h < |Next(s, a).handlers| && WaitsFor(Next(s, a).handlers[h].run, r) {
      NoNewWait(s, a, r, h);
    }
  }

  lemma OrphanStep(s: State, a: Action, r: nat, o: string)
    requires Inv(s) && Orphan(s, r, o)
    ensures Orphan(Next(s, a), r, o) || o in Next(s, a).lost
  {
    if Enabled(s, a) {
      NeverAwaitedAgain(s, a, r);
      if a.Append? {
        assert RpcOk(s.cluster.log, s.rpcs[r]);
        RpcStaysOk(s.cluster.log, Fsm.Upsert(s.rpcs[a.r].upsert), s.rpcs[r]);
      } else if a.Answer? && a.r == r {
        assert RpcOk(s.cluster.log, s.rpcs[r]) && Replica.NodeInv(s.cluster.nodes[a.n], s.cluster.log);
      } else {
        OrphanKept(s, a, r, o);
      }
    }
  }

  lemma OrphanKept(s: State, a: Action, r: nat, o: string)
    requires Enabled(s, a) && Orphan(s, r, o) && !a.Append? && !(a.Answer? && a.r == r)
    ensures RpcToken(Next(s, a).cluster.log, Next(s, a).rpcs[r]) == Some(o) || o in Next(s, a).lost
  {
    LogStays(s, a);
    if a.AckArrives? {
      assert !WaitsFor(s.handlers[a.h].run, r);
    }
  }

  /** A fresh acknowledgement that no handler waits for is as good as lost: its order has no row and never
      will have one. */
  lemma OrphanedForever(executors: nat, nodes: nat, actions: seq<Action>, more: seq<Action>, r: nat, o: string)
    requires Orphan(RunAll(Init(executors, nodes), actions), r, o)
    ensures Rows(RunAll(Init(executors, nodes), actions + more), o) == 0
  {
    OrphanStays(executors, nodes, actions, more, r, o);
    EachOrderInOnePlace(executors, nodes, actions + more, o);
    var s := RunAll(Init(executors, nodes), actions + more);
    if o !in s.lost {
      assert RpcTokens(s.cluster.log, s.rpcs)[r] in multiset(RpcTokens(s.cluster.log, s.rpcs));
    }
  }

  lemma {:induction false} OrphanStays(executors: nat, nodes: nat, actions: seq<Action>, more: seq<Action>, r: nat,
                                       o: string)
    requires Orphan(RunAll(Init(executors, nodes), actions), r, o)
    ensures var s := RunAll(Init(executors, nodes), actions + more); Orphan(s, r, o) || o in s.lost
  {
    if more == [] {
      assert actions + more == actions;
    } else {
      var front, a := actions + more[..|more| - 1], more[|more| - 1];
      assert (actions + more)[..|actions + more| - 1] == front;
      OrphanStays(executors, nodes, actions, more[..|more| - 1], r, o);
      RunInv(executors, nodes, front);
      var s := RunAll(Init(executors, nodes), front);
      if Orphan(s, r, o) {
        OrphanStep(s, a, r, o);
      } else {
        LostStays(s, a, o);
      }
    }
  }

  lemma LostStays(s: State, a: Action, o: string)
    ensures o in s.lost ==> o in Next(s, a).lost
  {
  }

  // ----- a run that loses an order -----

  /** One executor with one handler for one record, and one Raft node. */
  function Single(rec: CommandRecord, log: seq<Fsm.Request>, node: Replica.Node, rpcs: seq<Rpc>, run: Run,
                  committed: set<nat>, lost: multiset<string>): State {
    State([rec], Replica.Cluster(log, [node]), Drain.Init(1), rpcs, [Handler(0, 0, 1, run)], committed, lost)
  }

  /** The first request commits but its acknowledgement is lost; the second is answered "duplicate", so
      the handler returns nil and the offset is committed. */
  function LosingRun(value: Json, ts: int64): seq<Action> {
    [Produce(value), Deliver(0, 0, ts), Send(0), Append(0), LoseAck(0), NoAck(0, RpcError(DeadlineExceeded))]
    + [Send(0), Append(1), AtCluster(Replica.ApplyNext(0)), AtCluster(Replica.ApplyNext(0)), Answer(1, 0),
      AckArrives(0)]
    + [CommitOffset(0)]
  }

  lemma StartRun(value: Json, rec: CommandRecord, cmd: OrderCmd, ts: int64)
    requires rec == ToRecord(value) && rec.order == Ok(cmd)
    ensures Next(Next(Init(1, 1), Produce(value)), Deliver(0, 0, ts))
         == Single(rec, [], Replica.FRESH_NODE, [], Busy(cmd, ts, Trying(0), None), {}, multiset{})
  {
    var s := Next(Init(1, 1), Produce(value));
    assert s.commands == [rec] && |s.drain.dbs| == 1;
    var s' := Next(s, Deliver(0, 0, ts));
    assert s'.handlers == [Handler(0, 0, 1, Busy(cmd, ts, Trying(0), None))];
    assert s'.cluster.nodes == [Replica.FRESH_NODE];
  }

  lemma SendStep(rec: CommandRecord, log: seq<Fsm.Request>, node: Replica.Node, rpcs: seq<Rpc>, cmd: OrderCmd,
                 ts: int64, k: nat, lost: multiset<string>)
    ensures Next(Single(rec, log, node, rpcs, Busy(cmd, ts, Trying(k), None), {}, lost), Send(0))
         == Single(rec, log, node, rpcs + [Rpc(UpsertFor(cmd, ts), Requested)],
           Busy(cmd, ts, Trying(k), Some(|rpcs|)), {}, lost)
  {
  }

  lemma AppendStep(rec: CommandRecord, log: seq<Fsm.Request>, node: Replica.Node, rpcs: seq<Rpc>, run: Run,
                   lost: multiset<string>, r: nat)
    requires r < |rpcs| && rpcs[r].phase.Requested?
    ensures Next(Single(rec, log, node, rpcs, run, {}, lost), Append(r))
         == Single(rec, log + [Fsm.Upsert(rpcs[r].upsert)], node, rpcs[r := rpcs[r].(phase := InLog(|log|))], run,
           {}, lost)
  {
  }

  lemma LoseStep(rec: CommandRecord, u: UpsertCommand, run: Run)
    ensures Next(Single(rec, [Fsm.Upsert(u)], Replica.FRESH_NODE, [Rpc(u, InLog(0))], run, {}, multiset{}), LoseAck(0))
         == Single(rec, [Fsm.Upsert(u)], Replica.FRESH_NODE, [Rpc(u, Closed)], run, {}, multiset{u.orderId})
  {
    FirstIsFresh(u);
  }

  lemma FirstIsFresh(u: UpsertCommand)
    ensures FreshAt([Fsm.Upsert(u)], 0)
    ensures u.orderId in Fsm.Replay(map[], [Fsm.Upsert(u)])
  {
    assert [] + [Fsm.Upsert(u)] == [Fsm.Upsert(u)];
    Fsm.ReplayAppend(map[], [], Fsm.Upsert(u));
  }

  lemma TimeoutStep(rec: CommandRecord, log: seq<Fsm.Request>, rpcs: seq<Rpc>, cmd: OrderCmd, ts: int64,
                    lost: multiset<string>)
    ensures Next(Single(rec, log, Replica.FRESH_NODE, rpcs, Busy(cmd, ts, Trying(0), Some(0)), {}, lost),
            NoAck(0, RpcError(DeadlineExceeded)))
         == Single(rec, log, Replica.FRESH_NODE, rpcs, Busy(cmd, ts, Trying(1), None), {}, lost)
  {
  }

  /** A node that has applied the order twice. */
  function TwiceApplied(u: UpsertCommand): Replica.Node {
    Replica.Node(2, map[u.orderId := Fsm.RecordOf(u)],
                 map[0 := Fsm.UpsertResult(false, u.orderId), 1 := Fsm.UpsertResult(true, u.orderId)], None, None)
  }

  lemma ApplySteps(rec: CommandRecord, u: UpsertCommand, rpcs: seq<Rpc>, run: Run, lost: multiset<string>)
    ensures var log := [Fsm.Upsert(u), Fsm.Upsert(u)];
            var s := Single(rec, log, Replica.FRESH_NODE, rpcs, run, {}, lost);
            Next(Next(s, AtCluster(Replica.ApplyNext(0))), AtCluster(Replica.ApplyNext(0)))
                == Single(rec, log, TwiceApplied(u), rpcs, run, {}, lost)
  {
    var log := [Fsm.Upsert(u), Fsm.Upsert(u)];
    var once := Replica.NodeStep(Replica.FRESH_NODE, log, Replica.ApplyNext(0));
    var twice := Replica.NodeStep(once, log, Replica.ApplyNext(0));
    assert twice == TwiceApplied(u);
    var s := Single(rec, log, Replica.FRESH_NODE, rpcs, run, {}, lost);
    assert Next(s, AtCluster(Replica.ApplyNext(0))) == Single(rec, log, once, rpcs, run, {}, lost);
  }

  lemma DuplicateSteps(rec: CommandRecord, u: UpsertCommand, cmd: OrderCmd, ts: int64, lost: multiset<string>)
    ensures var log := [Fsm.Upsert(u), Fsm.Upsert(u)];
            var s := Single(rec, log, TwiceApplied(u), [Rpc(u, Closed), Rpc(u, InLog(1))],
              Busy(cmd, ts, Trying(1), Some(1)), {}, lost);
            Next(Next(s, Answer(1, 0)), AckArrives(0))
                == Single(rec, log, TwiceApplied(u), [Rpc(u, Closed), Rpc(u, Closed)], Done(Nil(Duplicate)), {}, lost)
  {
    var log := [Fsm.Upsert(u), Fsm.Upsert(u)];
    var run := Busy(cmd, ts, Trying(1), Some(1));
    var s := Single(rec, log, TwiceApplied(u), [Rpc(u, Closed), Rpc(u, InLog(1))], run, {}, lost);
    assert Next(s, Answer(1, 0))
        == Single(rec, log, TwiceApplied(u), [Rpc(u, Closed), Rpc(u, Answered(1, true))], run, {}, lost);
    AckDecides(1, true);
  }

  lemma CommitStep(rec: CommandRecord, log: seq<Fsm.Request>, node: Replica.Node, rpcs: seq<Rpc>,
                   lost: multiset<string>)
    ensures Next(Single(rec, log, node, rpcs, Done(Nil(Duplicate)), {}, lost), CommitOffset(0))
         == Single(rec, log, node, rpcs, Run.Committed, {0}, lost)
  {
  }

  lemma SixSteps(s: State, p: seq<Action>)
    requires |p| == 6
    ensures RunAll(s, p) == Next(Next(Next(Next(Next(Next(s, p[0]), p[1]), p[2]), p[3]), p[4]), p[5])
  {
    assert p == [p[0]] + ([p[1]] + ([p[2]] + ([p[3]] + ([p[4]] + ([p[5]] + [])))));
    RunOne(s, p[0], [p[1]] + ([p[2]] + ([p[3]] + ([p[4]] + ([p[5]] + [])))));
    var s1 := Next(s, p[0]);
    RunOne(s1, p[1], [p[2]] + ([p[3]] + ([p[4]] + ([p[5]] + []))));
    var s2 := Next(s1, p[1]);
    RunOne(s2, p[2], [p[3]] + ([p[4]] + ([p[5]] + [])));
    var s3 := Next(s2, p[2]);
    RunOne(s3, p[3], [p[4]] + ([p[5]] + []));
    var s4 := Next(s3, p[3]);
    RunOne(s4, p[4], [p[5]] + []);
    var s5 := Next(s4, p[4]);
    RunOne(s5, p[5], []);
  }

  lemma LosingRunEnds(value: Json, cmd: OrderCmd, ts: int64)
    requires ToRecord(value).order == Ok(cmd)
    ensures var u := UpsertFor(cmd, ts);
            RunAll(Init(1, 1), LosingRun(value, ts))
                == Single(ToRecord(value), [Fsm.Upsert(u), Fsm.Upsert(u)], TwiceApplied(u),
                  [Rpc(u, Closed), Rpc(u, Closed)], Run.Committed, {0}, multiset{cmd.orderId})
  {
    var rec, u, node0 := ToRecord(value), UpsertFor(cmd, ts), Replica.FRESH_NODE;
    var p := [Produce(value), Deliver(0, 0, ts), Send(0), Append(0), LoseAck(0), NoAck(0, RpcError(DeadlineExceeded))];
    var q := [Send(0), Append(1), AtCluster(Replica.ApplyNext(0)), AtCluster(Replica.ApplyNext(0)), Answer(1, 0),
      AckArrives(0)];
    var log1, log2 := [Fsm.Upsert(u)], [Fsm.Upsert(u), Fsm.Upsert(u)];
    StartRun(value, rec, cmd, ts);
    SendStep(rec, [], node0, [], cmd, ts, 0, multiset{});
    AppendStep(rec, [], node0, [Rpc(u, Requested)], Busy(cmd, ts, Trying(0), Some(0)), multiset{}, 0);
    assert [] + [Fsm.Upsert(u)] == log1 && [Rpc(u, Requested)][0 := Rpc(u, InLog(0))] == [Rpc(u, InLog(0))];
    assert [] + [Rpc(u, Requested)] == [Rpc(u, Requested)];
    LoseStep(rec, u, Busy(cmd, ts, Trying(0), Some(0)));
    var lost := multiset{cmd.orderId};
    TimeoutStep(rec, log1, [Rpc(u, Closed)], cmd, ts, lost);
    SixSteps(Init(1, 1), p);
    var mid := Single(rec, log1, node0, [Rpc(u, Closed)], Busy(cmd, ts, Trying(1), None), {}, lost);
    assert RunAll(Init(1, 1), p) == mid;
    SecondHalf(rec, cmd, ts, mid, q);
    CommitStep(rec, log2, TwiceApplied(u), [Rpc(u, Closed), Rpc(u, Closed)], lost);
    RunAllSplit(Init(1, 1), p, q);
    RunAllSplit(Init(1, 1), p + q, [CommitOffset(0)]);
    RunOne(RunAll(Init(1, 1), p + q), CommitOffset(0), []);
    assert [CommitOffset(0)] + [] == [CommitOffset(0)];
  }

  lemma SecondHalf(rec: CommandRecord, cmd: OrderCmd, ts: int64, mid: State, q: seq<Action>)
    requires var u := UpsertFor(cmd, ts);
             mid == Single(rec, [Fsm.Upsert(u)], Replica.FRESH_NODE, [Rpc(u, Closed)],
               Busy(cmd, ts, Trying(1), None), {}, multiset{cmd.orderId})
    requires q == [Send(0), Append(1), AtCluster(Replica.ApplyNext(0)), AtCluster(Replica.ApplyNext(0)),
             Answer(1, 0), AckArrives(0)]
    ensures var u := UpsertFor(cmd, ts);
            RunAll(mid, q)
                == Single(rec, [Fsm.Upsert(u), Fsm.Upsert(u)], TwiceApplied(u), [Rpc(u, Closed), Rpc(u, Closed)],
                  Done(Nil(Duplicate)), {}, multiset{cmd.orderId})
  {
    var u, node0, lost := UpsertFor(cmd, ts), Replica.FRESH_NODE, multiset{cmd.orderId};
    var log1, log2 := [Fsm.Upsert(u)], [Fsm.Upsert(u), Fsm.Upsert(u)];
    var run := Busy(cmd, ts, Trying(1), Some(1));
    SendStep(rec, log1, node0, [Rpc(u, Closed)], cmd, ts, 1, lost);
    var rpcs := [Rpc(u, Closed)] + [Rpc(u, Requested)];
    AppendStep(rec, log1, node0, rpcs, run, lost, 1);
    assert log1 + [Fsm.Upsert(u)] == log2 && rpcs[1 := Rpc(u, InLog(1))] == [Rpc(u, Closed), Rpc(u, InLog(1))];
    ApplySteps(rec, u, [Rpc(u, Closed), Rpc(u, InLog(1))], run, lost);
    DuplicateSteps(rec, u, cmd, ts, lost);
    SixSteps(mid, q);
  }

  /** Any valid order can be lost: its offset is committed, the log holds it, nothing is left on its way,
      and it has no outbox row, nor will it ever have one. */
  lemma ReplicatedWithoutEvent(value: Json, ts: int64, more: seq<Action>)
    requires ParseOrder(value).Ok?
    ensures var s := RunAll(Init(1, 1), LosingRun(value, ts));
            var o := ParseOrder(value).value.orderId;
            && s.commands == [ToRecord(value)] && 0 in s.committed
            && o in Table(s) && Settled(s)
            && Rows(RunAll(Init(1, 1), LosingRun(value, ts) + more), o) == 0
  {
    var cmd := ParseOrder(value).value;
    LosingRunEnds(value, cmd, ts);
    var u := UpsertFor(cmd, ts);
    FirstIsFresh(u);
    Fsm.ReplayAppend(map[], [Fsm.Upsert(u)], Fsm.Upsert(u));
    assert [Fsm.Upsert(u)] + [Fsm.Upsert(u)] == [Fsm.Upsert(u), Fsm.Upsert(u)];
    LostForever(1, 1, LosingRun(value, ts), more, cmd.orderId);
  }

  // ----- a run that gives an order two events -----

  /** An order is accepted, acknowledged as fresh, and written to the outbox. */
  function FreshRun(value: Json, ts: int64): seq<Action> {
    [Produce(value), Deliver(0, 0, ts), Send(0), Append(0), AtCluster(Replica.ApplyNext(0)), Answer(0, 0)]
    + [AckArrives(0)] + [Insert(0, ts, false, false)]
  }

  function OnceApplied(u: UpsertCommand): Replica.Node {
    Replica.Node(1, map[u.orderId := Fsm.RecordOf(u)], map[0 := Fsm.UpsertResult(false, u.orderId)], None, None)
  }

  lemma ApplyOnce(rec: CommandRecord, u: UpsertCommand, run: Run)
    ensures var log, rpcs := [Fsm.Upsert(u)], [Rpc(u, InLog(0))];
            Next(Single(rec, log, Replica.FRESH_NODE, rpcs, run, {}, multiset{}), AtCluster(Replica.ApplyNext(0)))
              == Single(rec, log, OnceApplied(u), rpcs, run, {}, multiset{})
  {
    var log := [Fsm.Upsert(u)];
    assert Replica.NodeStep(Replica.FRESH_NODE, log, Replica.ApplyNext(0)) == OnceApplied(u);
  }

  lemma AnswerStep(rec: CommandRecord, u: UpsertCommand, run: Run)
    ensures var log := [Fsm.Upsert(u)];
            Next(Single(rec, log, OnceApplied(u), [Rpc(u, InLog(0))], run, {}, multiset{}), Answer(0, 0))
              == Single(rec, log, OnceApplied(u), [Rpc(u, Answered(0, false))], run, {}, multiset{})
  {
  }

  lemma FreshStep(rec: CommandRecord, u: UpsertCommand, cmd: OrderCmd, ts: int64)
    ensures var log, run := [Fsm.Upsert(u)], Busy(cmd, ts, Trying(0), Some(0));
            Next(Single(rec, log, OnceApplied(u), [Rpc(u, Answered(0, false))], run, {}, multiset{}), AckArrives(0))
              == Single(rec, log, OnceApplied(u), [Rpc(u, Closed)], Busy(cmd, ts, Inserting, None), {}, multiset{})
  {
    AckDecides(0, false);
  }

  lemma InsertStep(s: State, cmd: OrderCmd, ts: int64)
    requires |s.handlers| == 1 && s.handlers[0] == Handler(0, 0, 1, Busy(cmd, ts, Inserting, None))
             && s.drain == Drain.Init(1)
    ensures var dbs := Next(s, Insert(0, ts, false, false)).drain.dbs;
            |dbs| == 1 && dbs[0].outbox == [Outbox.EventRow(1, cmd.orderId, cmd.eventId, ts, ts)]
  {
    var op := InsertOp(s, 0, ts);
    assert s.drain.dbs[0] == Outbox.EMPTY_DB;
    assert Drain.Enabled(s.drain, op);
  }

  lemma FreshRunEnds(value: Json, cmd: OrderCmd, ts: int64)
    requires ToRecord(value).order == Ok(cmd)
    ensures var dbs := RunAll(Init(1, 1), FreshRun(value, ts)).drain.dbs;
            |dbs| == 1 && dbs[0].outbox == [Outbox.EventRow(1, cmd.orderId, cmd.eventId, ts, ts)]
  {
    var rec, u := ToRecord(value), UpsertFor(cmd, ts);
    var run := Busy(cmd, ts, Trying(0), Some(0));
    var p := [Produce(value), Deliver(0, 0, ts), Send(0), Append(0), AtCluster(Replica.ApplyNext(0)), Answer(0, 0)];
    StartRun(value, rec, cmd, ts);
    SendStep(rec, [], Replica.FRESH_NODE, [], cmd, ts, 0, multiset{});
    AppendStep(rec, [], Replica.FRESH_NODE, [Rpc(u, Requested)], run, multiset{}, 0);
    assert [] + [Fsm.Upsert(u)] == [Fsm.Upsert(u)] && [Rpc(u, Requested)][0 := Rpc(u, InLog(0))] == [Rpc(u, InLog(0))];
    assert [] + [Rpc(u, Requested)] == [Rpc(u, Requested)];
    ApplyOnce(rec, u, run);
    AnswerStep(rec, u, run);
    SixSteps(Init(1, 1), p);
    FreshStep(rec, u, cmd, ts);
    RunAppend(Init(1, 1), p, AckArrives(0));
    RunAppend(Init(1, 1), p + [AckArrives(0)], Insert(0, ts, false, false));
    InsertStep(RunAll(Init(1, 1), p + [AckArrives(0)]), cmd, ts);
  }

  lemma RunAppend(s: State, actions: seq<Action>, a: Action)
    ensures RunAll(s, actions + [a]) == Next(RunAll(s, actions), a)
  {
    assert (actions + [a])[..|actions|] == actions;
  }

  /** The row is produced, its mark fails, and the next tick produces it again. */
  function Twice(x: nat, i: nat, now: int64): seq<Action> {
    [Publish(Drain.Publish(x, i, now, Publisher.RowOutcome(1, true, false)))]
    + [Publish(Drain.Publish(x, i, now, Publisher.RowOutcome(1, true, true)))]
  }

  /** Row `i` has been marked, and its event is on the topic twice more. */
  ghost predicate Duplicated(d: Drain.State, d': Drain.State, x: nat, i: nat, now: int64)
    requires x < |d.dbs| && i < |d.dbs[x].outbox|
  {
    var row := d.dbs[x].outbox[i];
    && d'.topic == d.topic + [Publisher.RecordOf(row)] + [Publisher.RecordOf(row)]
    && EventCount(d'.topic, row.orderId) >= 2
    && d'.dbs == d.dbs[x := d.dbs[x].(outbox := Outbox.Marked(d.dbs[x].outbox, row.eventId, now))]
  }

  lemma TwoPublishes(d: Drain.State, first: Drain.Op, second: Drain.Op)
    requires Drain.Inv(d) && first.Publish? && Drain.Enabled(d, first)
    requires first.o == Publisher.RowOutcome(1, true, false)
             && second == first.(o := Publisher.RowOutcome(1, true, true))
    ensures Drain.Enabled(Drain.Next(d, first), second)
    ensures Duplicated(d, Drain.Next(Drain.Next(d, first), second), first.x, first.row, first.now)
  {
    var row := d.dbs[first.x].outbox[first.row];
    var r := Publisher.RecordOf(row);
    assert Drain.AllWellFormed(d.dbs[first.x].outbox) && Outbox.WellFormed(row);
    OrderOfRow(d, first.x, first.row);
    assert Publisher.Copies(r, 1) == [r];
    var one := Drain.Next(d, first);
    assert one.dbs == d.dbs && one.topic == d.topic + [r];
    var two := Drain.Next(one, second);
    assert two.topic == d.topic + [r] + [r];
    CountsTwo(TopicOrders(two.topic), |d.topic|, |d.topic| + 1);
  }

  lemma TwoSteps(s: State, a: Action, b: Action)
    ensures RunAll(s, [a] + [b]) == Next(Next(s, a), b)
  {
    RunAppend(s, [a], b);
    assert [] + [a] == [a];
    RunAppend(s, [], a);
  }

  /** From every reachable state, one failed mark gives an unpublished row's order two events. */
  lemma FailedMarkDuplicates(executors: nat, nodes: nat, actions: seq<Action>, x: nat, i: nat, now: int64)
    requires var dbs := RunAll(Init(executors, nodes), actions).drain.dbs;
             x < |dbs| && i < |dbs[x].outbox| && dbs[x].outbox[i].published.None?
    ensures Duplicated(RunAll(Init(executors, nodes), actions).drain,
                       RunAll(Init(executors, nodes), actions + Twice(x, i, now)).drain, x, i, now)
  {
    RunInv(executors, nodes, actions);
    RunAllSplit(Init(executors, nodes), actions, Twice(x, i, now));
    TwiceFrom(RunAll(Init(executors, nodes), actions), x, i, now);
  }

  lemma TwiceFrom(s: State, x: nat, i: nat, now: int64)
    requires Drain.Inv(s.drain)
    requires x < |s.drain.dbs| && i < |s.drain.dbs[x].outbox| && s.drain.dbs[x].outbox[i].published.None?
    ensures Duplicated(s.drain, RunAll(s, Twice(x, i, now)).drain, x, i, now)
  {
    var first := Drain.Publish(x, i, now, Publisher.RowOutcome(1, true, false));
    var second := Drain.Publish(x, i, now, Publisher.RowOutcome(1, true, true));
    TwoSteps(s, Publish(first), Publish(second));
    TwoPublishes(s.drain, first, second);
    DrainStep(s, Publish(first));
    DrainStep(Next(s, Publish(first)), Publish(second));
  }

  /** So any valid order can get two events, with its row published. */
  lemma TwoEventsReachable(value: Json, ts: int64, now: int64)
    requires ParseOrder(value).Ok?
    ensures var d := RunAll(Init(1, 1), FreshRun(value, ts) + Twice(0, 0, now)).drain;
            EventCount(d.topic, ParseOrder(value).value.orderId) >= 2 && AllPublished(d.dbs)
  {
    FreshRunEnds(value, ParseOrder(value).value, ts);
    FailedMarkDuplicates(1, 1, FreshRun(value, ts), 0, 0, now);
  }
}
