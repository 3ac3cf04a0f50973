/** Which calls of the client are answered by a leader, and which leave it without a connection. */
module LeaderRoute {
  import opened RaftServer
  import opened RaftClient
  import opened LeaderSearch

  // ----- the route of a call -----

  /** Where the client is in an attempt: the address whose turn it is, its round-robin index, and whether it
      has a connection to that address or can get one. */
  datatype Spot = Spot(addr: string, idx: nat, up: bool)

  type Route = nat -> Spot

  datatype Place = Place(addr: string, idx: nat)

  /** The address after this one: the same after an error, the one a hint names, else the next in turn. */
  function NextStop(known: seq<string>, net: Net, d: nat, spot: Spot): (r: Place)
    requires spot.idx < |known|
    ensures r.idx < |known|
  {
    var turn := NextIdx(known, spot.idx);
    if !spot.up then Place(known[turn], turn)
    else
      match net.answer(d, spot.addr)
      case RpcError(_) => Place(spot.addr, spot.idx)
      case Ack(applied, hint, _) =>
        if !applied && hint != "" && FindLeaderGrpcAddr(hint) != "" then Place(FindLeaderGrpcAddr(hint), spot.idx)
        else Place(known[turn], turn)
  }

  function SpotAt(known: seq<string>, net: Net, st: Conn, d: nat): (r: Spot)
    requires st.idx < |known|
    ensures r.idx < |known|
  {
    if d == 0 then Spot(st.addr, st.idx, true)
    else
      var before := SpotAt(known, net, st, d - 1);
      var next := NextStop(known, net, d - 1, before);
      Spot(next.addr, next.idx, (next.addr == before.addr && before.up) || net.dialOk(d, next.addr))
  }

  /** The route a call takes as long as nothing ends it. */
  function Trail(known: seq<string>, net: Net, st: Conn): Route
    requires st.idx < |known|
  {
    (d: nat) => SpotAt(known, net, st, d)
  }

  /** From attempt `j` to attempt `e` all dials fail, none of them of the address of attempt `j`. */
  predicate DialsFail(route: Route, j: nat, e: nat) {
    forall k: nat | j < k < e :: !route(k).up && route(k).addr != route(j).addr
  }

  /** Attempt `j` is the last before `d` that had a connection. */
  predicate LastUp(route: Route, j: nat, d: nat) {
    j < d && route(j).up && DialsFail(route, j, d)
  }

  /** Attempt `e` returns, through failed dials only, to the last address the client was connected to. */
  predicate Stuck(route: Route, e: nat) {
    exists j: nat | j + 1 < e :: LastUp(route, j, e) && route(j).addr == route(e).addr
  }

  predicate Applies(net: Net, route: Route, d: nat) {
    route(d).up && var r := net.answer(d, route(d).addr); r.Ack? && r.applied
  }

  /** The node reached answers with an error that is not retried. */
  predicate Rejects(net: Net, route: Route, d: nat) {
    route(d).up && var r := net.answer(d, route(d).addr); r.RpcError? && !IsRetryable(r.code)
  }

  predicate Ends(net: Net, route: Route, e: nat) {
    Stuck(route, e) || Rejects(net, route, e)
  }

  predicate EndsBy(net: Net, route: Route, from: nat, d: nat) {
    exists e: nat | from <= e <= d :: Ends(net, route, e)
  }

  /** From attempt `from` on, the route comes to a node that applies before anything ends the call. */
  predicate Finds(net: Net, route: Route, from: nat, tries: nat) {
    exists d: nat | from <= d < tries :: Applies(net, route, d) && !EndsBy(net, route, from, d)
  }

  predicate OverBefore(net: Net, route: Route, from: nat, e: nat) {
    exists k: nat | from <= k < e :: Ends(net, route, k) || Applies(net, route, k)
  }

  /** From attempt `from` on, the call gets stuck, or runs out of tries on a failed dial. */
  predicate Closes(net: Net, route: Route, from: nat, tries: nat)
    requires tries > 0
  {
    || SticksFirst(net, route, from, tries)
    || (!OverBefore(net, route, from, tries) && !route(tries - 1).up)
  }

  lemma EndsByStep(net: Net, route: Route, from: nat, d: nat)
    requires from < d
    ensures EndsBy(net, route, from, d) <==> Ends(net, route, from) || EndsBy(net, route, from + 1, d)
  {
  }

  lemma FindsStep(net: Net, route: Route, from: nat, tries: nat)
    requires from < tries
    ensures Finds(net, route, from, tries) <==>
              !Ends(net, route, from) && (Applies(net, route, from) || Finds(net, route, from + 1, tries))
  {
    assert EndsBy(net, route, from, from) <==> Ends(net, route, from);
    forall d: nat | from < d
      ensures EndsBy(net, route, from, d) <==> Ends(net, route, from) || EndsBy(net, route, from + 1, d)
    {
      EndsByStep(net, route, from, d);
    }
    if d: nat :| from <= d < tries && Applies(net, route, d) && !EndsBy(net, route, from, d) && d > from {
      assert !EndsBy(net, route, from + 1, d);
    }
    if !Ends(net, route, from) {
      if d: nat :| from + 1 <= d < tries && Applies(net, route, d) && !EndsBy(net, route, from + 1, d) {
        assert !EndsBy(net, route, from, d);
      }
    }
  }

  lemma OverBeforeStep(net: Net, route: Route, from: nat, e: nat)
    requires from < e
    ensures OverBefore(net, route, from, e) <==>
              Ends(net, route, from) || Applies(net, route, from) || OverBefore(net, route, from + 1, e)
  {
  }

  predicate SticksFirst(net: Net, route: Route, from: nat, tries: nat) {
    exists e: nat | from <= e < tries :: Stuck(route, e) && !OverBefore(net, route, from, e)
  }

  lemma SticksFirstStep(net: Net, route: Route, from: nat, tries: nat)
    requires from < tries
    ensures SticksFirst(net, route, from, tries) <==>
              || Stuck(route, from)
              || (!Ends(net, route, from) && !Applies(net, route, from) && SticksFirst(net, route, from + 1, tries))
  {
    assert !OverBefore(net, route, from, from);
    forall e: nat | from < e
      ensures OverBefore(net, route, from, e) <==>
                Ends(net, route, from) || Applies(net, route, from) || OverBefore(net, route, from + 1, e)
    {
      OverBeforeStep(net, route, from, e);
    }
    if e: nat :| from <= e < tries && Stuck(route, e) && !OverBefore(net, route, from, e) && e > from {
      assert !OverBefore(net, route, from + 1, e);
    }
    if !Ends(net, route, from) && !Applies(net, route, from) {
      if e: nat :| from + 1 <= e < tries && Stuck(route, e) && !OverBefore(net, route, from + 1, e) {
        assert !OverBefore(net, route, from, e);
      }
    }
  }

  lemma ClosesStep(net: Net, route: Route, from: nat, tries: nat)
    requires from < tries
    ensures Closes(net, route, from, tries) <==>
              || Stuck(route, from)
              || (!Ends(net, route, from) && !Applies(net, route, from) && Closes(net, route, from + 1, tries))
  {
    SticksFirstStep(net, route, from, tries);
    OverBeforeStep(net, route, from, tries);
  }

  lemma StuckExactly(route: Route, j: nat, d: nat)
    requires LastUp(route, j, d)
    ensures Stuck(route, d) <==> route(d).addr == route(j).addr && j + 1 < d
  {
    forall i: nat | LastUp(route, i, d) ensures i == j {
    }
  }

  ghost predicate Goes(net: Net, route: Route, d: nat, tries: nat, c: Call)
    requires tries > 0
  {
    && ((c.result.Acked? && c.result.applied) <==> Finds(net, route, d, tries))
    && (!c.state.open <==> Closes(net, route, d, tries))
  }

  /** What an attempt with a connection comes to. */
  lemma AskTurn(known: seq<string>, net: Net, tries: nat, d: nat, st: Conn)
    requires st.idx < |known| && d < tries && Trail(known, net, st)(d).up
    ensures var route := Trail(known, net, st);
            var here := Conn(route(d).addr, route(d).idx, true);
            var t := TurnOf(known, net, tries, d, here.addr, here);
            match t.move
            case Go(next) =>
              && next == route(d + 1).addr && t.state == Conn(route(d).addr, route(d + 1).idx, true)
              && !Applies(net, route, d) && !Rejects(net, route, d)
            case Stop(result) =>
              && t.state.open && (result.Acked? && result.applied <==> Applies(net, route, d))
              && (Applies(net, route, d) || Rejects(net, route, d) || d + 1 == tries)
  {
  }

  /** What an attempt whose dial fails comes to. */
  lemma FailTurn(known: seq<string>, net: Net, tries: nat, d: nat, st: Conn, cur: Conn)
    requires st.idx < |known|
    requires var spot := Trail(known, net, st)(d);
             !spot.up && spot.addr != cur.addr && !net.dialOk(d, spot.addr) && cur.idx == spot.idx
    ensures var route := Trail(known, net, st);
            var t := TurnOf(known, net, tries, d, route(d).addr, cur);
            t.move == Go(route(d + 1).addr) && t.state == Conn(cur.addr, route(d + 1).idx, false)
  {
  }

  lemma LastUpGrows(route: Route, j: nat, d: nat)
    ensures route(d).up ==> LastUp(route, d, d + 1)
    ensures LastUp(route, j, d) && !route(d).up && route(d).addr != route(j).addr ==> LastUp(route, j, d + 1)
  {
  }

  /** In attempt `d` the client has a connection to the address whose turn it is. */
  lemma {:induction false} AsksFrom(known: seq<string>, net: Net, tries: nat, d: nat, backoff: nat, st: Conn)
    requires st.idx < |known| && d < tries
    requires var route := Trail(known, net, st); route(d).up && !Stuck(route, d)
    ensures var route := Trail(known, net, st);
            var here := Conn(route(d).addr, route(d).idx, true);
            Goes(net, route, d, tries, Loop(known, net, tries, d, here.addr, backoff, here))
    decreases tries - d, 0
  {
    var route := Trail(known, net, st);
    var here := Conn(route(d).addr, route(d).idx, true);
    var t := TurnOf(known, net, tries, d, here.addr, here);
    AskTurn(known, net, tries, d, st);
    FindsStep(net, route, d, tries);
    ClosesStep(net, route, d, tries);
    if t.move.Go? {
      LastUpGrows(route, d, d);
      SearchFrom(known, net, tries, d, d + 1, 2 * backoff, st, t.state);
    } else if d + 1 == tries {
      assert !OverBefore(net, route, tries, tries);
    }
  }

  /** Whether attempt `d` has a connection, the last one that had one being `j`. */
  lemma UpExactly(known: seq<string>, net: Net, st: Conn, j: nat, d: nat)
    requires st.idx < |known| && LastUp(Trail(known, net, st), j, d)
    ensures var route := Trail(known, net, st);
            && (route(d).addr != route(j).addr ==> route(d).up == net.dialOk(d, route(d).addr))
            && (route(d).addr == route(j).addr && j + 1 == d ==> route(d).up)
  {
    var route := Trail(known, net, st);
    assert route(d - 1).up <==> d - 1 == j;
  }

  /** A dial that works makes the attempt one of a client connected there. */
  lemma Dialled(known: seq<string>, net: Net, tries: nat, d: nat, here: string, backoff: nat, cur: Conn)
    requires d < tries && here != cur.addr && net.dialOk(d, here)
    ensures Loop(known, net, tries, d, here, backoff, cur)
              == Loop(known, net, tries, d, here, backoff, Conn(here, cur.idx, true))
  {
  }

  /** Before attempt `d`, the last one that had a connection being `j`. */
  lemma {:induction false} SearchFrom(known: seq<string>, net: Net, tries: nat, j: nat, d: nat, backoff: nat,
                                      st: Conn, cur: Conn)
    requires st.idx < |known| && 0 < d <= tries
    requires var route := Trail(known, net, st);
             LastUp(route, j, d) && cur == Conn(route(j).addr, route(d).idx, j + 1 == d)
    ensures var route := Trail(known, net, st);
            Goes(net, route, d, tries, Loop(known, net, tries, d, route(d).addr, backoff, cur))
    decreases tries - d, 1
  {
    var route := Trail(known, net, st);
    var here := route(d).addr;
    if d == tries {
      assert !OverBefore(net, route, tries, tries);
    } else {
      StuckExactly(route, j, d);
      UpExactly(known, net, st, j, d);
      if here == cur.addr && !cur.open {
        FindsStep(net, route, d, tries);
        ClosesStep(net, route, d, tries);
        ClosedConnectionFails(known, net, tries, d, backoff, cur);
      } else if here == cur.addr || net.dialOk(d, here) {
        if here != cur.addr {
          Dialled(known, net, tries, d, here, backoff, cur);
        }
        AsksFrom(known, net, tries, d, backoff, st);
      } else {
        FailsFrom(known, net, tries, j, d, backoff, st, cur);
      }
    }
  }

  lemma {:induction false} FailsFrom(known: seq<string>, net: Net, tries: nat, j: nat, d: nat, backoff: nat,
                                     st: Conn, cur: Conn)
    requires st.idx < |known| && 0 < d < tries
    requires var route := Trail(known, net, st);
             && LastUp(route, j, d) && cur == Conn(route(j).addr, route(d).idx, j + 1 == d)
             && route(d).addr != cur.addr && !net.dialOk(d, route(d).addr) && !route(d).up
    ensures var route := Trail(known, net, st);
            Goes(net, route, d, tries, Loop(known, net, tries, d, route(d).addr, backoff, cur))
    decreases tries - d, 0
  {
    var route := Trail(known, net, st);
    var t := TurnOf(known, net, tries, d, route(d).addr, cur);
    FailTurn(known, net, tries, d, st, cur);
    StuckExactly(route, j, d);
    FindsStep(net, route, d, tries);
    ClosesStep(net, route, d, tries);
    LastUpGrows(route, j, d);
    SearchFrom(known, net, tries, j, d + 1, 2 * backoff, st, t.state);
  }

  /** What any call comes to, in any network, however it changes from attempt to attempt. It returns an
      applied acknowledgement exactly when the client is connected and its route comes to a node that
      applies, within its tries and before a node answers with an error that is not retried or the route
      returns, through failed dials only, to the last address the client was connected to. It leaves the
      client without a connection exactly when the client had none, the route gets stuck in that way before
      a node ends the call, or the last try is a failed dial. */
  lemma CallExactly(known: seq<string>, net: Net, tries: nat, st: Conn)
    requires st.idx < |known| && tries > 0
    ensures var c := CallOf(known, net, tries, st);
            && ((c.result.Acked? && c.result.applied) <==> st.open && Finds(net, Trail(known, net, st), 0, tries))
            && (c.state.open <==> st.open && !Closes(net, Trail(known, net, st), 0, tries))
  {
    if st.open {
      assert !Stuck(Trail(known, net, st), 0);
      AsksFrom(known, net, tries, 0, 100, st);
    } else {
      ClosedConnectionFails(known, net, tries, 0, 100, st);
    }
  }

  // ----- a closed connection -----

  /** Once a failed dial has closed the connection, a try at the address the client still believes
      itself connected to sends nothing and ends the call in failure, whoever is at that address. */
  lemma ClosedConnectionFails(known: seq<string>, net: Net, tries: nat, attempt: nat, backoff: nat, st: Conn)
    requires !st.open && attempt < tries
    ensures Loop(known, net, tries, attempt, st.addr, backoff, st)
         == Call(ApplyFailed, st, [Replied(RpcError(Canceled))], 0, 0, 0)
  {
  }

  /** The client's fields after one call in each of the networks. */
  function StateAfter(known: seq<string>, nets: seq<Net>, tries: nat, st: Conn): Conn {
    if nets == [] then st
    else CallOf(known, nets[|nets| - 1], tries, StateAfter(known, nets[..|nets| - 1], tries, st)).state
  }

  /** A call that ends without a connection is the last one to send anything: every later call of that client
      fails without a request, whatever the network has become. */
  lemma {:induction false} ClosedForGood(known: seq<string>, nets: seq<Net>, net: Net, tries: nat, st: Conn)
    requires !st.open && tries > 0
    ensures StateAfter(known, nets, tries, st) == st
    ensures var c := CallOf(known, net, tries, StateAfter(known, nets, tries, st));
            c.result == ApplyFailed && c.sends == 0
  {
    if nets != [] {
      ClosedForGood(known, nets[..|nets| - 1], nets[|nets| - 1], tries, st);
      ClosedConnectionFails(known, nets[|nets| - 1], tries, 0, 100, st);
    }
    ClosedConnectionFails(known, net, tries, 0, 100, st);
  }

  // ----- a node that is down -----

  ghost predicate DownAt(net: Net, a: string, from: nat) {
    forall k: nat | from <= k :: net.answer(k, a).RpcError? && IsRetryable(net.answer(k, a).code)
  }

  /** A call never leaves a node that is down: all its remaining tries go there. */
  lemma {:induction false} NeverLeavesDown(known: seq<string>, net: Net, tries: nat, d: nat, backoff: nat, st: Conn)
    requires st.open && d <= tries && DownAt(net, st.addr, d)
    ensures var c := Loop(known, net, tries, d, st.addr, backoff, st);
            c.result == ApplyFailed && c.sends == tries - d && c.state == st
    decreases tries - d
  {
    if d < tries {
      assert net.answer(d, st.addr).RpcError?;
      NeverLeavesDown(known, net, tries, d + 1, 2 * backoff, st);
    }
  }
}
