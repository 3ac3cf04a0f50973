/** What the client's calls come to while the network stays as it is: one leader, some addresses that cannot
    be dialled, some nodes that are down. */
module FixedNetwork {
  import opened RaftServer
  import opened RaftClient
  import opened LeaderSearch
  import opened LeaderRoute

  /** The leader applies; a node that is down answers with an error that is retried. */
  ghost predicate Fixed(net: Net, leader: string, dialable: string -> bool, down: string -> bool) {
    && (forall k: nat, a: string :: net.dialOk(k, a) == dialable(a))
    && !down(leader)
    && (forall k: nat :: net.answer(k, leader).Ack? && net.answer(k, leader).applied)
    && (forall a: string | down(a) :: DownAt(net, a, 0))
  }

  /** Every other node says it is not the leader without naming one the client can turn into an address. */
  ghost predicate NoHints(net: Net, leader: string, down: string -> bool) {
    forall k: nat, a: string | a != leader && !down(a) ::
      var r := net.answer(k, a);
      r.Ack? && !r.applied && (r.leaderHint == "" || FindLeaderGrpcAddr(r.leaderHint) == "")
  }

  /** Every other node says it is not the leader and names the leader. */
  ghost predicate AllHint(net: Net, leader: string, down: string -> bool) {
    forall k: nat, a: string | a != leader && !down(a) ::
      var r := net.answer(k, a);
      r.Ack? && !r.applied && r.leaderHint != "" && FindLeaderGrpcAddr(r.leaderHint) == leader
  }

  predicate Applied(r: ApplyResult) {
    r.Acked? && r.applied
  }

  /** Once connected to a node that is down, a call stays there. */
  lemma {:induction false} StaysDown(known: seq<string>, net: Net, st: Conn, e: nat, d: nat)
    requires st.idx < |known| && e <= d
    requires SpotAt(known, net, st, e).up && DownAt(net, SpotAt(known, net, st, e).addr, 0)
    ensures SpotAt(known, net, st, d) == SpotAt(known, net, st, e)
    ensures !Applies(net, Trail(known, net, st), d)
  {
    assert net.answer(d, SpotAt(known, net, st, e).addr).RpcError?;
    if e < d {
      StaysDown(known, net, st, e, d - 1);
      assert net.answer(d - 1, SpotAt(known, net, st, e).addr).RpcError?;
    }
  }

  // ----- without hints: round robin -----

  /** The address whose turn it is in attempt `d`: the current one, then round robin. */
  function Walk(known: seq<string>, st: Conn, d: nat): string
    requires st.idx < |known|
  {
    if d == 0 then st.addr else known[IdxAfter(known, st.idx, d)]
  }

  /** The client has a connection for attempt `j` or can get one: the address can be dialled, or it is the
      one the client has been connected to from the start. */
  predicate Connects(known: seq<string>, st: Conn, dialable: string -> bool, j: nat)
    requires st.idx < |known|
  {
    dialable(Walk(known, st, j)) || forall k: nat | k <= j :: Walk(known, st, k) == st.addr
  }

  function WalkRoute(known: seq<string>, st: Conn, dialable: string -> bool): Route
    requires st.idx < |known|
  {
    (d: nat) => Spot(Walk(known, st, d), IdxAfter(known, st.idx, d), Connects(known, st, dialable, d))
  }

  predicate Hangs(known: seq<string>, st: Conn, dialable: string -> bool, down: string -> bool, e: nat)
    requires st.idx < |known|
  {
    down(Walk(known, st, e)) && Connects(known, st, dialable, e)
  }

  /** Attempt `e` connects to a node that is down, or returns, through failed dials only, to the last address
      the client was connected to. */
  predicate Blocked(known: seq<string>, st: Conn, dialable: string -> bool, down: string -> bool, e: nat)
    requires st.idx < |known|
  {
    Hangs(known, st, dialable, down, e) || Stuck(WalkRoute(known, st, dialable), e)
  }

  predicate BlockedBy(known: seq<string>, st: Conn, dialable: string -> bool, down: string -> bool, d: nat)
    requires st.idx < |known|
  {
    exists e: nat | e <= d :: Blocked(known, st, dialable, down, e)
  }

  /** One of the first `tries` attempts connects to the leader, and none up to there is blocked. */
  predicate Reaches(known: seq<string>, st: Conn, dialable: string -> bool, down: string -> bool, leader: string,
                    tries: nat)
    requires st.idx < |known|
  {
    exists d: nat | d < tries ::
      Walk(known, st, d) == leader && Connects(known, st, dialable, d) && !BlockedBy(known, st, dialable, down, d)
  }

  lemma ConnectsStep(known: seq<string>, st: Conn, dialable: string -> bool, d: nat)
    requires st.idx < |known| && d > 0
    ensures Connects(known, st, dialable, d) <==>
              || (Walk(known, st, d) == Walk(known, st, d - 1) && Connects(known, st, dialable, d - 1))
              || dialable(Walk(known, st, d))
  {
    if forall k: nat | k <= d :: Walk(known, st, k) == st.addr {
      assert Walk(known, st, d - 1) == st.addr == Walk(known, st, d);
    }
  }

  lemma WalkNext(known: seq<string>, net: Net, leader: string, dialable: string -> bool, down: string -> bool,
                 st: Conn, d: nat)
    requires st.idx < |known| && Fixed(net, leader, dialable, down) && NoHints(net, leader, down)
    requires !Hangs(known, st, dialable, down, d)
    ensures NextStop(known, net, d, WalkRoute(known, st, dialable)(d))
         == Place(Walk(known, st, d + 1), IdxAfter(known, st.idx, d + 1))
  {
    var r := net.answer(d, Walk(known, st, d));
    assert Connects(known, st, dialable, d) ==>
             r.Ack? && (r.applied || r.leaderHint == "" || FindLeaderGrpcAddr(r.leaderHint) == "");
  }

  /** As long as no attempt hangs on a node that is down, the call follows the walk. */
  lemma {:induction false} FollowsWalk(known: seq<string>, net: Net, leader: string, dialable: string -> bool,
                                       down: string -> bool, st: Conn, d: nat)
    requires st.idx < |known| && Fixed(net, leader, dialable, down) && NoHints(net, leader, down)
    requires forall e: nat | e < d :: !Hangs(known, st, dialable, down, e)
    ensures SpotAt(known, net, st, d) == WalkRoute(known, st, dialable)(d)
  {
    if d > 0 {
      FollowsWalk(known, net, leader, dialable, down, st, d - 1);
      WalkNext(known, net, leader, dialable, down, st, d - 1);
      ConnectsStep(known, st, dialable, d);
      assert net.dialOk(d, Walk(known, st, d)) == dialable(Walk(known, st, d));
    }
  }

  lemma SameStuck(a: Route, b: Route, e: nat)
    requires forall k: nat | k <= e :: a(k) == b(k)
    ensures Stuck(a, e) == Stuck(b, e)
  {
    forall j: nat | j < e ensures LastUp(a, j, e) == LastUp(b, j, e) {
    }
  }

  /** What the two routes have in common up to an attempt before which none hangs. */
  lemma Agreement(known: seq<string>, net: Net, leader: string, dialable: string -> bool, down: string -> bool,
                  st: Conn, d: nat)
    requires st.idx < |known| && Fixed(net, leader, dialable, down) && NoHints(net, leader, down)
    requires forall e: nat | e <= d :: !Hangs(known, st, dialable, down, e)
    ensures EndsBy(net, Trail(known, net, st), 0, d) <==> BlockedBy(known, st, dialable, down, d)
    ensures Applies(net, Trail(known, net, st), d) <==> Walk(known, st, d) == leader && Connects(known, st, dialable, d)
  {
    var trail, walk := Trail(known, net, st), WalkRoute(known, st, dialable);
    forall k: nat | k <= d ensures trail(k) == walk(k) {
      FollowsWalk(known, net, leader, dialable, down, st, k);
    }
    forall e: nat | e <= d ensures Ends(net, trail, e) <==> Blocked(known, st, dialable, down, e) {
      SameStuck(trail, walk, e);
      assert !Hangs(known, st, dialable, down, e);
      assert !Rejects(net, trail, e);
    }
  }

  lemma {:induction false} FirstHang(known: seq<string>, st: Conn, dialable: string -> bool, down: string -> bool,
                                     e: nat) returns (first: nat)
    requires st.idx < |known| && Hangs(known, st, dialable, down, e)
    ensures first <= e && Hangs(known, st, dialable, down, first)
    ensures forall k: nat | k < first :: !Hangs(known, st, dialable, down, k)
  {
    if k: nat :| k < e && Hangs(known, st, dialable, down, k) {
      first := FirstHang(known, st, dialable, down, k);
    } else {
      first := e;
    }
  }

  lemma HangsNeverApplies(known: seq<string>, net: Net, leader: string, dialable: string -> bool, down: string -> bool,
                          st: Conn, e: nat, d: nat)
    requires st.idx < |known| && Fixed(net, leader, dialable, down) && NoHints(net, leader, down)
    requires e <= d && Hangs(known, st, dialable, down, e)
    ensures !Applies(net, Trail(known, net, st), d)
  {
    var first := FirstHang(known, st, dialable, down, e);
    FollowsWalk(known, net, leader, dialable, down, st, first);
    StaysDown(known, net, st, first, d);
  }

  /** With one leader, no usable hints, and whatever addresses cannot be dialled and whatever nodes are down, a
      call returns an applied acknowledgement exactly when the client is connected and its walk comes to the
      leader, and can connect to it, within its tries, before it connects to a node that is down and before
      it returns, through failed dials only, to the last address it was connected to. */
  lemma FindsLeaderExactly(known: seq<string>, net: Net, dialable: string -> bool, down: string -> bool, leader: string,
                           tries: nat, st: Conn)
    requires st.idx < |known| && tries > 0 && Fixed(net, leader, dialable, down) && NoHints(net, leader, down)
    ensures Applied(CallOf(known, net, tries, st).result) <==>
              st.open && Reaches(known, st, dialable, down, leader, tries)
  {
    CallExactly(known, net, tries, st);
    var trail := Trail(known, net, st);
    forall d: nat | d < tries
      ensures Applies(net, trail, d) && !EndsBy(net, trail, 0, d) <==>
              Walk(known, st, d) == leader && Connects(known, st, dialable, d)
                && !BlockedBy(known, st, dialable, down, d)
    {
      if e: nat :| e <= d && Hangs(known, st, dialable, down, e) {
        HangsNeverApplies(known, net, leader, dialable, down, st, e, d);
        assert Blocked(known, st, dialable, down, e);
      } else {
        Agreement(known, net, leader, dialable, down, st, d);
      }
    }
  }

  /** The walk comes to position `p` of the known addresses in attempt `CallsTo`. */
  lemma WalkReaches(known: seq<string>, st: Conn, p: nat)
    requires st.idx < |known| && p < |known|
    ensures 1 <= CallsTo(|known|, st.idx, p) <= |known|
    ensures Walk(known, st, CallsTo(|known|, st.idx, p)) == known[p]
  {
    VisitsEachOnce(known, st.idx, p);
  }

  /** If every known address can be dialled and no node is down, one try more than there are known addresses
      is always enough, wherever the search starts. */
  lemma FindsKnownLeader(known: seq<string>, net: Net, dialable: string -> bool, down: string -> bool, leader: string,
                         tries: nat, st: Conn)
    requires st.idx < |known| && st.open && Fixed(net, leader, dialable, down) && NoHints(net, leader, down)
    requires !down(st.addr) && forall a | a in known :: dialable(a) && !down(a)
    requires leader in known && tries >= |known| + 1
    ensures Applied(CallOf(known, net, tries, st).result)
  {
    var p: nat :| p < |known| && known[p] == leader;
    var d := CallsTo(|known|, st.idx, p);
    WalkReaches(known, st, p);
    forall e: nat ensures !Blocked(known, st, dialable, down, e) {
      var walk := WalkRoute(known, st, dialable);
      forall j: nat | j + 1 < e ensures !LastUp(walk, j, e) {
        assert walk(j + 1).up;
      }
    }
    FindsLeaderExactly(known, net, dialable, down, leader, tries, st);
  }

  /** The walk has not yet come to the leader. */
  predicate Ahead(known: seq<string>, st: Conn, leader: string, e: nat)
    requires st.idx < |known|
  {
    forall k: nat | k <= e :: Walk(known, st, k) != leader
  }

  /** The first attempt that comes to the leader. */
  lemma {:induction false} FirstVisit(known: seq<string>, st: Conn, leader: string, d: nat) returns (first: nat)
    requires st.idx < |known| && Walk(known, st, d) == leader
    ensures first <= d && Walk(known, st, first) == leader
    ensures forall k: nat | k < first :: Walk(known, st, k) != leader
  {
    if k: nat :| k < d && Walk(known, st, k) == leader {
      first := FirstVisit(known, st, leader, k);
    } else {
      first := d;
    }
  }

  lemma FreeAtFirst(known: seq<string>, st: Conn, dialable: string -> bool, down: string -> bool, leader: string,
                    first: nat)
    requires st.idx < |known| && Walk(known, st, first) == leader && !down(leader)
    requires forall k: nat | k < first :: Walk(known, st, k) != leader
    ensures !Blocked(known, st, dialable, down, first)
  {
  }

  /** A known leader is lost exactly when it cannot be dialled, or when the walk is blocked, by a node that is
      down or by failed dials, before it has ever come to the leader. */
  lemma LosesKnownLeaderExactly(known: seq<string>, net: Net, dialable: string -> bool, down: string -> bool,
                                leader: string, tries: nat, st: Conn)
    requires st.idx < |known| && st.open && Fixed(net, leader, dialable, down) && NoHints(net, leader, down)
    requires leader in known && st.addr != leader && tries >= |known| + 1
    ensures !Applied(CallOf(known, net, tries, st).result) <==>
              || !dialable(leader)
              || exists e: nat | e < tries :: Blocked(known, st, dialable, down, e) && Ahead(known, st, leader, e)
  {
    var p: nat :| p < |known| && known[p] == leader;
    WalkReaches(known, st, p);
    var first := FirstVisit(known, st, leader, CallsTo(|known|, st.idx, p));
    FindsLeaderExactly(known, net, dialable, down, leader, tries, st);
    FreeAtFirst(known, st, dialable, down, leader, first);
    if e: nat :| e <= first && Blocked(known, st, dialable, down, e) {
      assert e < first && Ahead(known, st, leader, e);
      forall d: nat | d < tries && Walk(known, st, d) == leader ensures BlockedBy(known, st, dialable, down, d) {
        assert d >= first;
      }
    } else {
      forall e: nat | e < tries && Blocked(known, st, dialable, down, e) ensures !Ahead(known, st, leader, e) {
        assert e >= first;
      }
    }
  }

  lemma DistinctPositions(known: seq<string>, idx: nat, j: nat, e: nat)
    requires idx < |known| && j < e < |known|
    ensures IdxAfter(known, idx, j) != IdxAfter(known, idx, e)
  {
    var n := |known|;
    IdxAfterIs(known, idx, j);
    IdxAfterIs(known, idx, e);
    ModUnique(idx + j, if idx + j < n then 0 else 1, if idx + j < n then idx + j else idx + j - n, n);
    ModUnique(idx + e, if idx + e < n then 0 else 1, if idx + e < n then idx + e else idx + e - n, n);
  }

  /** The client's index is that of its address in a list of distinct addresses. */
  predicate InStep(known: seq<string>, st: Conn) {
    && (forall i, j :: 0 <= i < j < |known| ==> known[i] != known[j])
    && st.idx < |known| && known[st.idx] == st.addr
  }

  lemma InStepNeverStuck(known: seq<string>, st: Conn, dialable: string -> bool, e: nat)
    requires InStep(known, st) && e < |known|
    ensures !Stuck(WalkRoute(known, st, dialable), e)
  {
    assert Walk(known, st, 0) == known[IdxAfter(known, st.idx, 0)];
    forall j: nat | j < e ensures Walk(known, st, j) != Walk(known, st, e) {
      DistinctPositions(known, st.idx, j, e);
    }
  }

  /** In step, failed dials of other nodes lose nothing: a leader that can be dialled is lost exactly when a node
      that is down and can be connected to comes before it. */
  lemma InStepExactly(known: seq<string>, net: Net, dialable: string -> bool, down: string -> bool, leader: string,
                      tries: nat, st: Conn)
    requires InStep(known, st) && st.open && Fixed(net, leader, dialable, down) && NoHints(net, leader, down)
    requires leader in known && dialable(leader) && tries >= |known|
    ensures Applied(CallOf(known, net, tries, st).result) <==>
              !exists e: nat | e < |known| :: Hangs(known, st, dialable, down, e) && Ahead(known, st, leader, e)
  {
    var n := |known|;
    var p: nat :| p < n && known[p] == leader;
    WalkReaches(known, st, p);
    var first := FirstVisit(known, st, leader, if p == st.idx then 0 else CallsTo(n, st.idx, p));
    FindsLeaderExactly(known, net, dialable, down, leader, tries, st);
    forall e: nat | e < n ensures Blocked(known, st, dialable, down, e) <==> Hangs(known, st, dialable, down, e) {
      InStepNeverStuck(known, st, dialable, e);
    }
    FreeAtFirst(known, st, dialable, down, leader, first);
    if e: nat :| e <= first && Blocked(known, st, dialable, down, e) {
      assert e < first && Ahead(known, st, leader, e);
      forall d: nat | d < tries && Walk(known, st, d) == leader ensures BlockedBy(known, st, dialable, down, d) {
        assert d >= first;
      }
    } else {
      forall e: nat | e < n && Hangs(known, st, dialable, down, e) ensures !Ahead(known, st, leader, e) {
        assert e >= first;
      }
    }
  }

  /** Three nodes: the client is connected to the third, the second cannot be dialled, and the walk is back at
      the third, its connection closed, before it has come to the first, which is the leader. */
  lemma FailedDialLosesLeader(net: Net, dialable: string -> bool, down: string -> bool)
    requires Fixed(net, "a", dialable, down) && NoHints(net, "a", down) && !dialable("b") && !down("c")
    ensures var c := CallOf(["a", "b", "c"], net, 5, Conn("c", 0, true));
            c.result == ApplyFailed && c.sends == 1 && !c.state.open
  {
    var known, st := ["a", "b", "c"], Conn("c", 0, true);
    var r := net.answer(0, "c");
    assert r.Ack? && !r.applied;
    assert TurnOf(known, net, 5, 0, "c", st) == Turn(Replied(r), 1, Conn("c", 1, true), Go("b"));
    assert !net.dialOk(1, "b");
    assert TurnOf(known, net, 5, 1, "b", Conn("c", 1, true)) == Turn(DialFailed, 0, Conn("c", 2, false), Go("c"));
    ClosedConnectionFails(known, net, 5, 2, 400, Conn("c", 2, false));
  }

  // ----- with hints -----

  lemma {:induction false} NeverAtLeader(known: seq<string>, net: Net, leader: string, dialable: string -> bool,
                                         down: string -> bool, st: Conn, d: nat)
    requires st.idx < |known| && Fixed(net, leader, dialable, down)
    requires !dialable(leader) && st.addr != leader
    ensures SpotAt(known, net, st, d).addr == leader ==> !SpotAt(known, net, st, d).up
  {
    if d > 0 {
      NeverAtLeader(known, net, leader, dialable, down, st, d - 1);
      assert net.dialOk(d, leader) == dialable(leader);
    }
  }

  /** When every node that is up names the leader, a call finds it exactly when the client is connected to the
      leader, or to some node that is up while the leader can be dialled and there is a second try. The
      known addresses do not matter. */
  lemma HintedLeaderExactly(known: seq<string>, net: Net, dialable: string -> bool, down: string -> bool,
                            leader: string, tries: nat, st: Conn)
    requires st.idx < |known| && tries > 0 && leader != ""
    requires Fixed(net, leader, dialable, down) && AllHint(net, leader, down)
    ensures Applied(CallOf(known, net, tries, st).result) <==>
              st.open && (st.addr == leader || (!down(st.addr) && dialable(leader) && tries >= 2))
  {
    CallExactly(known, net, tries, st);
    var trail := Trail(known, net, st);
    if st.addr == leader {
      assert Applies(net, trail, 0) && !EndsBy(net, trail, 0, 0);
    } else if down(st.addr) {
      forall d: nat ensures !Applies(net, trail, d) {
        StaysDown(known, net, st, 0, d);
      }
    } else if !dialable(leader) {
      forall d: nat ensures !Applies(net, trail, d) {
        NeverAtLeader(known, net, leader, dialable, down, st, d);
        if trail(d).addr != leader {
          OnlyLeaderApplies(net, leader, dialable, down, d, trail(d).addr);
        }
      }
    } else {
      FollowsHint(known, net, dialable, down, leader, st);
    }
  }

  lemma FollowsHint(known: seq<string>, net: Net, dialable: string -> bool, down: string -> bool, leader: string,
                    st: Conn)
    requires st.idx < |known| && leader != "" && st.addr != leader && !down(st.addr) && dialable(leader)
    requires Fixed(net, leader, dialable, down) && AllHint(net, leader, down)
    ensures var trail := Trail(known, net, st);
            !Applies(net, trail, 0) && Applies(net, trail, 1) && !EndsBy(net, trail, 0, 1)
  {
    var trail := Trail(known, net, st);
    var r := net.answer(0, st.addr);
    assert r.Ack? && !r.applied;
    assert net.dialOk(1, leader) == dialable(leader);
    var start := SpotAt(known, net, st, 0);
    assert NextStop(known, net, 0, start) == Place(leader, st.idx);
    assert SpotAt(known, net, st, 1) == Spot(leader, st.idx, true);
    assert !Ends(net, trail, 0) && !Ends(net, trail, 1);
  }

  lemma OnlyLeaderApplies(net: Net, leader: string, dialable: string -> bool, down: string -> bool, d: nat, a: string)
    requires Fixed(net, leader, dialable, down) && AllHint(net, leader, down) && a != leader
    ensures !(net.answer(d, a).Ack? && net.answer(d, a).applied)
  {
    if down(a) {
      assert DownAt(net, a, 0);
    }
  }
}
