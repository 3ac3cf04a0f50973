/** String cutting: the producer's hand-written splitter and trimmer (cmd/producer/main.go), and the
    same functions as used from Go's `strings` package elsewhere. */
module Text {

  predicate OccursAt(s: string, sep: string, i: nat) {
    i + |sep| <= |s| && s[i..i + |sep|] == sep
  }

  predicate Contains(s: string, sep: string) {
    exists i: nat | i <= |s| :: OccursAt(s, sep, i)
  }

  /** The parts of `s[start..]` between occurrences of `sep`, found left to right from `i` on. */
  function SplitFrom(s: string, sep: string, start: nat, i: nat): (parts: seq<string>)
    requires sep != "" && start <= i <= |s|
    ensures parts != []
    decreases |s| - i
  {
    if i == |s| then [s[start..]]
    else if OccursAt(s, sep, i) then [s[start..i]] + SplitFrom(s, sep, i + |sep|, i + |sep|)
    else SplitFrom(s, sep, start, i + 1)
  }

  function Split(s: string, sep: string): (parts: seq<string>)
    requires sep != ""
    ensures parts != []
  {
    SplitFrom(s, sep, 0, 0)
  }

  function Join(parts: seq<string>, sep: string): string {
    if parts == [] then ""
    else if |parts| == 1 then parts[0]
    else parts[0] + sep + Join(parts[1..], sep)
  }

  lemma {:induction false} JoinOfSplitFrom(s: string, sep: string, start: nat, i: nat)
    requires sep != "" && start <= i <= |s|
    ensures Join(SplitFrom(s, sep, start, i), sep) == s[start..]
    decreases |s| - i
  {
    if i < |s| {
      if OccursAt(s, sep, i) {
        var rest := SplitFrom(s, sep, i + |sep|, i + |sep|);
        JoinOfSplitFrom(s, sep, i + |sep|, i + |sep|);
        assert ([s[start..i]] + rest)[1..] == rest;
        assert s[start..] == s[start..i] + s[i..i + |sep|] + s[i + |sep|..];
      } else {
        JoinOfSplitFrom(s, sep, start, i + 1);
      }
    }
  }

  lemma SliceHasNone(s: string, sep: string, a: nat, b: nat)
    requires sep != "" && a <= b <= |s|
    requires forall k: nat | a <= k < b :: !OccursAt(s, sep, k)
    ensures !Contains(s[a..b], sep)
  {
    forall k: nat | k <= b - a ensures !OccursAt(s[a..b], sep, k) {
      if OccursAt(s[a..b], sep, k) {
        var x, y := s[a..b][k..k + |sep|], s[a + k..a + k + |sep|];
        assert forall j | 0 <= j < |sep| :: x[j] == s[a + k + j] == y[j];
        assert x == y;
        assert OccursAt(s, sep, a + k);
      }
    }
  }

  lemma {:induction false} PartsOfSplitFrom(s: string, sep: string, start: nat, i: nat)
    requires sep != "" && start <= i <= |s|
    requires forall k: nat | start <= k < i :: !OccursAt(s, sep, k)
    ensures forall p | p in SplitFrom(s, sep, start, i) :: !Contains(p, sep)
    decreases |s| - i
  {
    if i == |s| || OccursAt(s, sep, i) {
      SliceHasNone(s, sep, start, i);
      assert i == |s| ==> s[start..i] == s[start..];
    }
    if i < |s| {
      if OccursAt(s, sep, i) {
        PartsOfSplitFrom(s, sep, i + |sep|, i + |sep|);
      } else {
        PartsOfSplitFrom(s, sep, start, i + 1);
      }
    }
  }

  /** Splitting loses nothing, and no part still contains the separator. */
  lemma SplitIsExact(s: string, sep: string)
    requires sep != ""
    ensures Join(Split(s, sep), sep) == s
    ensures forall p | p in Split(s, sep) :: !Contains(p, sep)
  {
    JoinOfSplitFrom(s, sep, 0, 0);
    PartsOfSplitFrom(s, sep, 0, 0);
  }

  // ----- splitting on one character -----

  lemma OccursOne(s: string, c: char, i: nat)
    requires i < |s|
    ensures OccursAt(s, [c], i) <==> s[i] == c
  {
    if s[i] == c {
      assert s[i..i + 1] == [c];
    }
  }

  lemma {:induction false} SplitFromSuffix(s: string, c: char, start: nat, i: nat)
    requires start <= i <= |s|
    ensures SplitFrom(s, [c], start, i) == SplitFrom(s[start..], [c], 0, i - start)
    decreases |s| - i
  {
    var t := s[start..];
    if i < |s| {
      OccursOne(s, c, i);
      OccursOne(t, c, i - start);
      if s[i] == c {
        SplitFromSuffix(s, c, i + 1, i + 1);
        SplitFromSuffix(t, c, i - start + 1, i - start + 1);
        assert t[i - start + 1..] == s[i + 1..];
        assert t[0..i - start] == s[start..i];
      } else {
        SplitFromSuffix(s, c, start, i + 1);
      }
    }
  }

  lemma {:induction false} SplitFromSkips(s: string, c: char, i: nat, j: nat)
    requires i <= j <= |s| && c !in s[i..j]
    ensures SplitFrom(s, [c], 0, i) == SplitFrom(s, [c], 0, j)
    decreases j - i
  {
    if i < j {
      OccursOne(s, c, i);
      assert s[i] == s[i..j][0] && s[i + 1..j] == s[i..j][1..];
      SplitFromSkips(s, c, i + 1, j);
    }
  }

  lemma SplitNone(x: string, c: char)
    requires c !in x
    ensures Split(x, [c]) == [x]
  {
    assert x[0..|x|] == x;
    SplitFromSkips(x, c, 0, |x|);
  }

  /** The first part ends at the first separator. */
  lemma SplitAtFirst(x: string, c: char, y: string)
    requires c !in x
    ensures Split(x + [c] + y, [c]) == [x] + Split(y, [c])
  {
    var s := x + [c] + y;
    assert s[0..|x|] == x && s[|x| + 1..] == y;
    SplitFromSkips(s, c, 0, |x|);
    OccursOne(s, c, |x|);
    SplitFromSuffix(s, c, |x| + 1, |x| + 1);
  }

  /** Splitting undoes joining, for parts free of the separator. */
  lemma {:induction false} SplitOfJoin(parts: seq<string>, c: char)
    requires parts != [] && forall p | p in parts :: c !in p
    ensures Split(Join(parts, [c]), [c]) == parts
  {
    if |parts| == 1 {
      SplitNone(parts[0], c);
    } else {
      SplitAtFirst(parts[0], c, Join(parts[1..], [c]));
      SplitOfJoin(parts[1..], c);
    }
  }

  // ----- trimming -----

  function TrimLeft(s: string, space: set<char>): string {
    if s != [] && s[0] in space then TrimLeft(s[1..], space) else s
  }

  function TrimRight(s: string, space: set<char>): string {
    if s != [] && s[|s| - 1] in space then TrimRight(s[..|s| - 1], space) else s
  }

  function Trim(s: string, space: set<char>): string {
    TrimRight(TrimLeft(s, space), space)
  }

  predicate AllIn(s: string, space: set<char>) {
    forall c | c in s :: c in space
  }

  /** `r` is what is left of `s` when all spaces at both ends, and only those, are cut. */
  ghost predicate IsTrimmed(s: string, r: string, space: set<char>) {
    && (exists a: nat, b: nat | a <= b <= |s| :: r == s[a..b] && AllIn(s[..a], space) && AllIn(s[b..], space))
    && (r != [] ==> r[0] !in space && r[|r| - 1] !in space)
  }

  lemma {:induction false} TrimLeftCuts(s: string, space: set<char>) returns (a: nat)
    ensures a <= |s| && TrimLeft(s, space) == s[a..] && AllIn(s[..a], space)
    ensures a < |s| ==> s[a] !in space
  {
    if s != [] && s[0] in space {
      var a' := TrimLeftCuts(s[1..], space);
      a := a' + 1;
      assert s[..a] == [s[0]] + s[1..][..a'];
    } else {
      a := 0;
    }
  }

  lemma {:induction false} TrimRightCuts(s: string, space: set<char>) returns (b: nat)
    ensures b <= |s| && TrimRight(s, space) == s[..b] && AllIn(s[b..], space)
    ensures b > 0 ==> s[b - 1] !in space
  {
    if s != [] && s[|s| - 1] in space {
      var front := s[..|s| - 1];
      b := TrimRightCuts(front, space);
      assert s[..b] == front[..b];
      forall i | b <= i < |s| ensures s[i] in space {
        assert i < |front| ==> s[i] == front[b..][i - b];
      }
    } else {
      b := |s|;
    }
  }

  lemma TrimCutsSpace(s: string, space: set<char>)
    ensures IsTrimmed(s, Trim(s, space), space)
  {
    var a := TrimLeftCuts(s, space);
    var b := TrimRightCuts(s[a..], space);
    assert s[a..][..b] == s[a..a + b] && s[a..][b..] == s[a + b..];
  }

  lemma {:induction false} TrimPadded(left: string, core: string, right: string, space: set<char>)
    requires AllIn(left, space) && AllIn(right, space)
    requires core != [] && core[0] !in space && core[|core| - 1] !in space
    ensures Trim(left + core + right, space) == core
  {
    TrimLeftPadded(left, core + right, space);
    assert left + core + right == left + (core + right);
    TrimRightPadded(core, right, space);
  }

  lemma {:induction false} TrimLeftPadded(left: string, s: string, space: set<char>)
    requires AllIn(left, space) && s != [] && s[0] !in space
    ensures TrimLeft(left + s, space) == s
  {
    if left == [] {
      assert left + s == s;
    } else {
      assert (left + s)[1..] == left[1..] + s;
      TrimLeftPadded(left[1..], s, space);
    }
  }

  lemma {:induction false} TrimRightPadded(s: string, right: string, space: set<char>)
    requires AllIn(right, space) && s != [] && s[|s| - 1] !in space
    ensures TrimRight(s + right, space) == s
  {
    if right == [] {
      assert s + right == s;
    } else {
      assert (s + right)[..|s + right| - 1] == s + right[..|right| - 1];
      TrimRightPadded(s, right[..|right| - 1], space);
    }
  }
}
