/** The Raft cluster as the service sees it: one committed log, and nodes that have each applied some
    prefix of it, take snapshots, restart and catch up (internal/raft/fsm.go, node.go). */
module Replica {
  import opened Wrappers
  import opened Json
  import opened Fsm
  import RaftServer

  /** A snapshot on disk, and the number of entries it covers. */
  datatype Saved = Saved(index: nat, doc: Json)

  /** A snapshot taken but not yet written: the copied table. */
  datatype Taken = Taken(index: nat, table: Table)

  /** `answers` holds what the machine answered to entries applied since the last restart, for the
      callers still waiting on this node. */
  datatype Node = Node(
    applied: nat, table: Table, answers: map<nat, UpsertResult>, taken: Option<Taken>, saved: Option<Saved>)

  const FRESH_NODE := Node(0, map[], map[], None, None)

  datatype Cluster = Cluster(log: seq<Request>, nodes: seq<Node>)

  datatype Event =
    | Commit(entry: Request)
    | ApplyNext(n: nat)
    | TakeSnapshot(n: nat)
    | PersistSnapshot(n: nat, doc: Json)
    | PersistFails(n: nat)
    | Restart(n: nat)
    | InstallSnapshot(n: nat, from: nat)

  function InitCluster(size: nat): Cluster {
    Cluster([], seq(size, x => FRESH_NODE))
  }

  /** A node whose machine is the one in `saved`, or an empty one. */
  function Restored(saved: Option<Saved>): Node {
    match saved
    case None => FRESH_NODE
    case Some(s) =>
      var t := DecodeSnapshot(s.doc);
      if t.None? then FRESH_NODE else Node(s.index, t.value, map[], None, saved)
  }

  function NodeStep(node: Node, log: seq<Request>, e: Event): Node {
    match e
    case ApplyNext(_) =>
      if node.applied >= |log| then node
      else
        var step := ApplyEntry(node.table, log[node.applied]);
        node.(applied := node.applied + 1, table := step.table, answers := node.answers[node.applied := step.answer])
    case TakeSnapshot(_) => node.(taken := Some(Taken(node.applied, node.table)))
    case PersistSnapshot(_, doc) =>
      // Any document that reads back as the copied table, as `FsmSnapshot.Persist` ensures.
      if node.taken.Some? && DecodeSnapshot(doc) == Some(node.taken.value.table)
      then node.(taken := None, saved := Some(Saved(node.taken.value.index, doc)))
      else node
    case PersistFails(_) => node.(taken := None)
    case Restart(_) => Restored(node.saved)
    case _ => node
  }

  function ClusterStep(c: Cluster, e: Event): Cluster {
    match e
    case Commit(entry) => c.(log := c.log + [entry])
    case InstallSnapshot(n, from) =>
      if n < |c.nodes| && from < |c.nodes| && c.nodes[from].saved.Some?
      then c.(nodes := c.nodes[n := Restored(c.nodes[from].saved)])
      else c
    case _ =>
      if e.n < |c.nodes| then c.(nodes := c.nodes[e.n := NodeStep(c.nodes[e.n], c.log, e)]) else c
  }

  function ClusterRun(c: Cluster, es: seq<Event>): Cluster {
    if es == [] then c else ClusterStep(ClusterRun(c, es[..|es| - 1]), es[|es| - 1])
  }

  // ----- what every run keeps -----

  ghost predicate SavedInv(saved: Option<Saved>, log: seq<Request>) {
    saved.Some? ==>
      && saved.value.index <= |log|
      && DecodeSnapshot(saved.value.doc) == Some(Replay(map[], log[..saved.value.index]))
  }

  ghost predicate TakenInv(taken: Option<Taken>, log: seq<Request>) {
    taken.Some? ==> taken.value.index <= |log| && taken.value.table == Replay(map[], log[..taken.value.index])
  }

  ghost predicate AnswersInv(answers: map<nat, UpsertResult>, log: seq<Request>) {
    forall i | i in answers :: i < |log| && answers[i] == Answers(map[], log)[i]
  }

  /** However often it was snapshotted, restarted and caught up, a node's table is that of the whole
      log up to its position, and every answer it gave is the one the whole log gives. */
  ghost predicate NodeInv(node: Node, log: seq<Request>) {
    && node.applied <= |log| && node.table == Replay(map[], log[..node.applied])
    && AnswersInv(node.answers, log) && TakenInv(node.taken, log) && SavedInv(node.saved, log)
  }

  ghost predicate ClusterInv(c: Cluster) {
    forall n | 0 <= n < |c.nodes| :: NodeInv(c.nodes[n], c.log)
  }

  lemma LogGrows(node: Node, log: seq<Request>, entry: Request)
    requires NodeInv(node, log)
    ensures NodeInv(node, log + [entry])
  {
    var longer := log + [entry];
    forall i | 0 <= i <= |log| ensures longer[..i] == log[..i] {}
    ReplayAppend(map[], log, entry);
  }

  lemma RestoredInv(saved: Option<Saved>, log: seq<Request>)
    requires SavedInv(saved, log)
    ensures NodeInv(Restored(saved), log)
  {
    assert log[..0] == [];
  }

  lemma NodeStepInv(node: Node, log: seq<Request>, e: Event)
    requires NodeInv(node, log)
    ensures NodeInv(NodeStep(node, log, e), log)
  {
    match e
    case ApplyNext(_) =>
      if node.applied < |log| {
        AnswerAt(map[], log, node.applied);
        ReplayAppend(map[], log[..node.applied], log[node.applied]);
        assert log[..node.applied + 1] == log[..node.applied] + [log[node.applied]];
      }
    case Restart(_) => RestoredInv(node.saved, log);
    case _ =>
  }

  lemma ClusterStepInv(c: Cluster, e: Event)
    requires ClusterInv(c)
    ensures ClusterInv(ClusterStep(c, e))
  {
    var c' := ClusterStep(c, e);
    forall n | 0 <= n < |c'.nodes| ensures NodeInv(c'.nodes[n], c'.log) {
      assert NodeInv(c.nodes[n], c.log);
      match e
      case Commit(entry) => LogGrows(c.nodes[n], c.log, entry);
      case InstallSnapshot(m, from) =>
        if m == n && from < |c.nodes| && c.nodes[from].saved.Some? {
          assert NodeInv(c.nodes[from], c.log);
          RestoredInv(c.nodes[from].saved, c.log);
        }
      case _ => NodeStepInv(c.nodes[n], c.log, e);
    }
  }

  lemma {:induction false} ClusterRunInv(size: nat, es: seq<Event>)
    ensures ClusterInv(ClusterRun(InitCluster(size), es))
  {
    if es == [] {
      assert InitCluster(size).log[..0] == [];
    } else {
      ClusterRunInv(size, es[..|es| - 1]);
      ClusterStepInv(ClusterRun(InitCluster(size), es[..|es| - 1]), es[|es| - 1]);
    }
  }

  /** The log only grows. */
  lemma {:induction false} LogOnlyGrows(c: Cluster, es: seq<Event>)
    ensures |c.log| <= |ClusterRun(c, es).log| && ClusterRun(c, es).log[..|c.log|] == c.log
    ensures |ClusterRun(c, es).nodes| == |c.nodes|
  {
    if es != [] {
      LogOnlyGrows(c, es[..|es| - 1]);
    }
  }

  /** A node that has stopped anywhere, been restored from a snapshot and applied the rest of the log
      has the table of a machine that applied the whole log from empty. */
  lemma CaughtUp(size: nat, es: seq<Event>, n: nat)
    requires n < size
    ensures var c := ClusterRun(InitCluster(size), es);
            && |c.nodes| == size
            && (c.nodes[n].applied == |c.log| ==> c.nodes[n].table == Replay(map[], c.log))
            && (forall i | i in c.nodes[n].answers :: i < |c.log| && c.nodes[n].answers[i] == Answers(map[], c.log)[i])
  {
    ClusterRunInv(size, es);
    LogOnlyGrows(InitCluster(size), es);
    var c := ClusterRun(InitCluster(size), es);
    assert NodeInv(c.nodes[n], c.log);
    assert c.log[..|c.log|] == c.log;
  }

  /** A read is never wrong, only late: what any node answers, however far behind, every node that has
      applied at least as much answers too, then and at any later time, with the same record. */
  lemma StaleReadHolds(size: nat, es: seq<Event>, later: seq<Event>, c: Cluster, c': Cluster, n: nat, m: nat,
                       queryId: string, orderId: string)
    requires c == ClusterRun(InitCluster(size), es) && c' == ClusterRun(c, later)
    requires n < |c.nodes| && m < |c'.nodes| && c'.nodes[m].applied >= c.nodes[n].applied
    requires var r := RaftServer.AnswerRead(RaftServer.OrderQuery(queryId, orderId), None, c.nodes[n].table);
             r.ReadResp? && r.found
    ensures RaftServer.AnswerRead(RaftServer.OrderQuery(queryId, orderId), None, c'.nodes[m].table)
         == RaftServer.AnswerRead(RaftServer.OrderQuery(queryId, orderId), None, c.nodes[n].table)
  {
    ClusterRunInv(size, es);
    RunInvFrom(c, later);
    LogOnlyGrows(c, later);
    var i, j := c.nodes[n].applied, c'.nodes[m].applied;
    assert NodeInv(c.nodes[n], c.log) && NodeInv(c'.nodes[m], c'.log);
    assert c.log[..i] == c'.log[..i];
    PrefixContained(map[], c'.log, i, j);
    RaftServer.OrderQueryAnswer(queryId, orderId, c.nodes[n].table);
    RaftServer.OrderQueryAnswer(queryId, orderId, c'.nodes[m].table);
  }

  lemma {:induction false} RunInvFrom(c: Cluster, es: seq<Event>)
    requires ClusterInv(c)
    ensures ClusterInv(ClusterRun(c, es))
  {
    if es != [] {
      RunInvFrom(c, es[..|es| - 1]);
      ClusterStepInv(ClusterRun(c, es[..|es| - 1]), es[|es| - 1]);
    }
  }

  // ----- what a node can do -----

  function CatchUp(n: nat, steps: nat): (es: seq<Event>)
    ensures |es| == steps
  {
    seq(steps, i => ApplyNext(n))
  }

  /** A node that goes on applying reaches the end of the log. */
  lemma {:induction false} CatchesUp(c: Cluster, n: nat, steps: nat)
    requires n < |c.nodes| && c.nodes[n].applied + steps <= |c.log|
    ensures var c' := ClusterRun(c, CatchUp(n, steps));
            && c'.log == c.log && |c'.nodes| == |c.nodes| && c'.nodes[n].applied == c.nodes[n].applied + steps
            && (forall m | 0 <= m < |c.nodes| && m != n :: c'.nodes[m] == c.nodes[m])
  {
    if steps > 0 {
      var es := CatchUp(n, steps);
      assert es[..|es| - 1] == CatchUp(n, steps - 1);
      CatchesUp(c, n, steps - 1);
    }
  }

  /** The node is at a position of the log with that position's table, and has no answers to give. */
  ghost predicate StandsAt(node: Node, log: seq<Request>, index: nat) {
    node.applied == index <= |log| && node.table == Replay(map[], log[..index]) && node.answers == map[]
  }

  /** A node restarts where its own last snapshot was taken, or from empty if it has none. */
  lemma RestartsAt(size: nat, es: seq<Event>, n: nat)
    requires n < size
    ensures var c := ClusterRun(InitCluster(size), es);
            && |c.nodes| == size
            && StandsAt(ClusterStep(c, Restart(n)).nodes[n], c.log,
                        if c.nodes[n].saved.Some? then c.nodes[n].saved.value.index else 0)
            && ClusterStep(c, Restart(n)).nodes[n].saved == c.nodes[n].saved
  {
    LogOnlyGrows(InitCluster(size), es);
    ClusterRunInv(size, es);
    var c := ClusterRun(InitCluster(size), es);
    assert NodeInv(c.nodes[n], c.log);
    RestoredInv(c.nodes[n].saved, c.log);
  }

  /** A node that is sent another's snapshot goes on from where that was taken. */
  lemma InstallsAt(size: nat, es: seq<Event>, n: nat, from: nat)
    requires n < size && from < size
    ensures var c := ClusterRun(InitCluster(size), es);
            && |c.nodes| == size
            && (c.nodes[from].saved.Some? ==>
                  StandsAt(ClusterStep(c, InstallSnapshot(n, from)).nodes[n], c.log, c.nodes[from].saved.value.index))
  {
    LogOnlyGrows(InitCluster(size), es);
    ClusterRunInv(size, es);
    var c := ClusterRun(InitCluster(size), es);
    assert NodeInv(c.nodes[from], c.log);
    RestoredInv(c.nodes[from].saved, c.log);
  }

  /** A snapshot covers what the node had applied when it was taken, however much it applies before it is written. */
  lemma SnapshotCovers(c: Cluster, n: nat, steps: nat, doc: Json)
    requires n < |c.nodes| && c.nodes[n].applied + steps <= |c.log| && DecodeSnapshot(doc) == Some(c.nodes[n].table)
    ensures var taken := ClusterStep(c, TakeSnapshot(n));
            var later := ClusterRun(taken, CatchUp(n, steps));
            |later.nodes| == |c.nodes| &&
            ClusterStep(later, PersistSnapshot(n, doc)).nodes[n].saved == Some(Saved(c.nodes[n].applied, doc))
  {
    TakenStays(ClusterStep(c, TakeSnapshot(n)), n, steps);
  }

  lemma {:induction false} TakenStays(c: Cluster, n: nat, steps: nat)
    requires n < |c.nodes| && c.nodes[n].applied + steps <= |c.log|
    ensures var c' := ClusterRun(c, CatchUp(n, steps)); |c'.nodes| == |c.nodes| && c'.nodes[n].taken == c.nodes[n].taken
  {
    if steps > 0 {
      var es := CatchUp(n, steps);
      assert es[..|es| - 1] == CatchUp(n, steps - 1);
      TakenStays(c, n, steps - 1);
    }
  }
}
