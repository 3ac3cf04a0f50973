/** What the steps of a handler come to. */
module PipelineSteps {
  import opened Wrappers
  import opened Json
  import opened Messages
  import opened RaftServer
  import opened RaftClient
  import opened Executor
  import opened Pipeline
  import Fsm
  import Outbox
  import PipelineSafety

  /** The run of handler `h` after a step. */
  function RunAfter(s: State, a: Action, h: nat): Run
    requires Enabled(s, a) && h < |s.handlers|
  {
    Next(s, a).handlers[h].run
  }

  predicate Retryable(code: Code) {
    code == Unavailable || code == DeadlineExceeded || code == ResourceExhausted
  }

  /** The handler's run, moved to `stage` and waiting for nothing. */
  function At(run: Run, stage: Stage): Run
    requires run.Busy?
  {
    Busy(run.cmd, run.ts, stage, None)
  }

  /** A failed dial, or an answer that is no acknowledgement, leads to the next of five tries, and from the last
      one to the read; an error that is not retried leads there at once. */
  lemma TryEnds(s: State, h: nat, reply: ApplyReply)
    requires IsBusy(s, h) && s.handlers[h].run.stage.Trying?
    ensures var run := s.handlers[h].run; var k := run.stage.attempt;
            && (Enabled(s, DialFails(h)) ==>
                  RunAfter(s, DialFails(h), h) == if k < 4 then At(run, Trying(k + 1))
                    else At(run, Reading(AfterError)))
            && (Enabled(s, NoAck(h, reply)) <==> !(reply.Ack? && reply.applied))
            && (reply.RpcError? ==>
                  RunAfter(s, NoAck(h, reply), h) ==
                    if Retryable(reply.code) && k < 4 then At(run, Trying(k + 1)) else At(run, Reading(AfterError)))
            && (reply.Ack? && !reply.applied ==>
                  RunAfter(s, NoAck(h, reply), h) ==
                    if k < 4 then At(run, Trying(k + 1)) else At(run, Reading(AfterNotApplied(reply.message))))
  {
  }

  /** Whatever a server answers without having committed the entry is one of these answers; after a commit it never
      is. */
  lemma OnlyCommitsAcknowledge(s: State, h: nat, cmd: Command, fault: Option<Code>, raft: RaftOutcome)
    requires IsBusy(s, h) && s.handlers[h].run.stage.Trying?
    ensures Enabled(s, NoAck(h, AnswerApply(cmd, fault, raft))) <==>
              !(cmd.commandId != "" && cmd.kind != "" && fault == None && raft.Committed?)
  {
    AcknowledgedExactly(cmd, fault, raft);
  }

  /** Request `r` with another phase. */
  function Moved(s: State, r: nat, phase: Phase): seq<Rpc>
    requires r < |s.rpcs|
  {
    s.rpcs[r := Rpc(s.rpcs[r].upsert, phase)]
  }

  /** A request is appended to the log once, and answered as the node that applied it answers. */
  lemma RequestCommits(s: State, r: nat, n: nat)
    ensures Enabled(s, Append(r)) ==>
              && Next(s, Append(r)).cluster.log == s.cluster.log + [Fsm.Upsert(s.rpcs[r].upsert)]
              && Next(s, Append(r)).rpcs == Moved(s, r, InLog(|s.cluster.log|))
    ensures Enabled(s, Answer(r, n)) ==>
              var k := s.rpcs[r].phase.index;
              Next(s, Answer(r, n)).rpcs == Moved(s, r, Answered(k, s.cluster.nodes[n].answers[k].duplicate))
  {
  }

  /** It is of no effect once it is dropped or its acknowledgement is lost. */
  lemma RequestEnds(s: State, r: nat, a: Action)
    ensures Enabled(s, Drop(r)) ==> Next(s, Drop(r)).rpcs == Moved(s, r, Closed)
    ensures Enabled(s, LoseAck(r)) ==> Next(s, LoseAck(r)).rpcs == Moved(s, r, Closed)
    ensures r < |s.rpcs| && s.rpcs[r].phase == Closed ==> r < |Next(s, a).rpcs| && Next(s, a).rpcs[r] == s.rpcs[r]
  {
  }

  /** A crash ends a handler. */
  lemma CrashEnds(s: State, h: nat)
    requires h < |s.handlers|
    ensures Enabled(s, Crash(h)) && RunAfter(s, Crash(h), h) == Dead
  {
  }

  /** A crashed handler takes no further step. */
  lemma DeadStays(s: State, a: Action, h: nat)
    requires h < |s.handlers| && s.handlers[h].run == Dead
    ensures h < |Next(s, a).handlers| && Next(s, a).handlers[h] == s.handlers[h]
  {
  }

  /** No handler waits for ever: in every run, one that is trying can send or fail to dial unless it has a request
      out, and can meet any answer but an acknowledgement; one that is reading can be answered by any node, with
      any fault or none; one that is to insert can. */
  lemma HandlersCanMove(executors: nat, nodes: nat, actions: seq<Action>, h: nat, reply: ApplyReply, n: nat,
                        fault: Option<Code>, created: int64, fails: bool, landed: bool)
    requires IsBusy(RunAll(Init(executors, nodes), actions), h)
    ensures var s := RunAll(Init(executors, nodes), actions); var run := s.handlers[h].run;
            && (run.stage.Trying? && run.rpc.None? ==> Enabled(s, Send(h)) && Enabled(s, DialFails(h)))
            && (run.stage.Trying? && !(reply.Ack? && reply.applied) ==> Enabled(s, NoAck(h, reply)))
            && (run.stage.Trying? && run.rpc.Some? ==>
                  run.rpc.value < |s.rpcs|
                  && (s.rpcs[run.rpc.value].phase.Answered? ==> Enabled(s, AckArrives(h))))
            && (run.stage.Reading? && n < |s.cluster.nodes| ==> Enabled(s, ReadReturns(h, n, fault)))
            && (run.stage.Inserting? ==> Enabled(s, Insert(h, created, fails, landed)))
            && !run.stage.Finished?
  {
    PipelineSafety.RunInv(executors, nodes, actions);
    var s := RunAll(Init(executors, nodes), actions);
    assert PipelineSafety.HandlerOk(s, s.handlers[h]);
  }

  /** An acknowledgement that arrives ends the handler with nil when it says "duplicate", and lets it insert when
      it is fresh. */
  lemma AckEnds(s: State, h: nat)
    requires Enabled(s, AckArrives(h))
    ensures var run := s.handlers[h].run;
            RunAfter(s, AckArrives(h), h) ==
              if s.rpcs[run.rpc.value].phase.duplicate then Done(Nil(Duplicate)) else At(run, Inserting)
  {
    assert "applied"[0] != "duplicate"[0];
  }

  /** A read ends the handler with nil exactly when it reaches a node that has the order, whatever made the handler
      read; otherwise with the error that did. */
  lemma ReadEnds(s: State, h: nat, n: nat, fault: Option<Code>)
    requires Enabled(s, ReadReturns(h, n, fault))
    ensures var run := s.handlers[h].run;
            var found := fault == None && run.cmd.orderId in s.cluster.nodes[n].table;
            RunAfter(s, ReadReturns(h, n, fault), h) == Done(
              match run.stage.cause
              case AfterError => if found then Nil(FoundAfterError) else Error(ApplyError)
              case AfterNotApplied(message) => if found then Nil(FoundAfterNotApplied) else Error(NotApplied(message)))
  {
    FoundExactly("query", "GET_PROCESSED_ORDER", s.handlers[h].run.cmd.orderId, fault, s.cluster.nodes[n].table, Null);
  }

  /** An insert ends the handler with nil exactly when it reports success. */
  lemma InsertEnds(s: State, h: nat, created: int64, fails: bool, landed: bool)
    requires Enabled(s, Insert(h, created, fails, landed))
    ensures var run := s.handlers[h].run;
            var taken := Outbox.HasEvent(s.drain.dbs[s.handlers[h].x].outbox, "evt-" + run.cmd.eventId);
            RunAfter(s, Insert(h, created, fails, landed), h) ==
              Done(if !taken && !fails then Nil(Fresh) else Error(InsertError))
  {
  }

  /** A delivered record gets a handler on its first run, a failed handler its next one; an invalid record fails at
      once, a valid one starts with the first try. */
  lemma Starts(s: State, x: nat, offset: nat, h: nat, ts: int64)
    ensures Enabled(s, Deliver(x, offset, ts)) ==>
              var hs := Next(s, Deliver(x, offset, ts)).handlers;
              hs == s.handlers + [Handler(x, offset, 1, FirstRun(s.commands[offset], ts))]
    ensures Enabled(s, Retry(h, ts)) ==>
              var was := s.handlers[h]; var now := Next(s, Retry(h, ts)).handlers[h];
              now == Handler(was.x, was.offset, was.tries + 1, FirstRun(s.commands[was.offset], ts))
    ensures Enabled(s, Retry(h, ts)) <==>
              && h < |s.handlers| && s.handlers[h].run.Done? && s.handlers[h].run.outcome.Error?
              && s.handlers[h].tries < 3 && s.handlers[h].offset < |s.commands|
  {
  }

  function FirstRun(rec: CommandRecord, ts: int64): Run {
    match rec.order
    case Ok(cmd) => Busy(cmd, ts, Trying(0), None)
    case Err(e) => Done(Error(e))
  }

  /** No record's handler runs more than three times. */
  lemma {:induction false} ThreeRuns(executors: nat, nodes: nat, actions: seq<Action>, h: nat)
    requires h < |RunAll(Init(executors, nodes), actions).handlers|
    ensures 1 <= RunAll(Init(executors, nodes), actions).handlers[h].tries <= 3
  {
    if actions != [] {
      var before, a := RunAll(Init(executors, nodes), actions[..|actions| - 1]), actions[|actions| - 1];
      if h < |before.handlers| {
        ThreeRuns(executors, nodes, actions[..|actions| - 1], h);
      }
      TriesAfter(before, a, h);
    }
  }

  lemma TriesAfter(s: State, a: Action, h: nat)
    requires h < |Next(s, a).handlers|
    requires h < |s.handlers| ==> 1 <= s.handlers[h].tries <= 3
    ensures 1 <= Next(s, a).handlers[h].tries <= 3
  {
  }
}
