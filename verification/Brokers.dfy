/** The producer's broker-list parser (cmd/producer/main.go). */
module Brokers {
  import opened Text

  /** The four characters `trimSpace` cuts. */
  const SPACE: set<char> := {' ', '\t', '\n', '\r'}

  method SplitString(s: string, sep: string) returns (result: seq<string>)
    ensures sep == "" ==> result == [s]
    ensures sep != "" ==> result == Split(s, sep)
  {
    if sep == "" {
      return [s];
    }
    result := [];
    var start := 0;
    var i := 0;
    while i < |s|
      invariant 0 <= start <= i <= |s|
      invariant result + SplitFrom(s, sep, start, i) == Split(s, sep)
    {
      if i + |sep| <= |s| && s[i..i + |sep|] == sep {
        result := result + [s[start..i]];
        start := i + |sep|;
        i := i + |sep| - 1;
      }
      i := i + 1;
    }
    result := result + [s[start..]];
  }

  method TrimSpace(s: string) returns (r: string)
    ensures r == Trim(s, SPACE)
  {
    var start := 0;
    var end := |s|;
    while start < end && (s[start] == ' ' || s[start] == '\t' || s[start] == '\n' || s[start] == '\r')
      invariant 0 <= start <= end == |s|
      invariant TrimLeft(s, SPACE) == TrimLeft(s[start..], SPACE)
    {
      start := start + 1;
    }
    assert s[start..] == s[start..end];
    while end > start && (s[end - 1] == ' ' || s[end - 1] == '\t' || s[end - 1] == '\n' || s[end - 1] == '\r')
      invariant start <= end <= |s|
      invariant Trim(s, SPACE) == TrimRight(s[start..end], SPACE)
    {
      assert s[start..end][..end - start - 1] == s[start..end - 1];
      end := end - 1;
    }
    r := s[start..end];
  }

  /** The trimmed, non-empty parts, in order. */
  function Trimmed(parts: seq<string>): seq<string> {
    if parts == [] then []
    else
      var p := Trim(parts[|parts| - 1], SPACE);
      Trimmed(parts[..|parts| - 1]) + (if p != "" then [p] else [])
  }

  function BrokerList(brokers: string): seq<string> {
    Trimmed(Split(brokers, ","))
  }

  method SplitAndTrim(s: string, sep: string) returns (parts: seq<string>)
    requires sep != ""
    ensures parts == Trimmed(Split(s, sep))
  {
    parts := [];
    var pieces := SplitString(s, sep);
    for i := 0 to |pieces|
      invariant parts == Trimmed(pieces[..i])
    {
      var trimmed := TrimSpace(pieces[i]);
      if trimmed != "" {
        parts := parts + [trimmed];
      }
      assert pieces[..i + 1][..i] == pieces[..i];
    }
    assert pieces[..|pieces|] == pieces;
  }

  method ParseBrokers(brokers: string) returns (brokerList: seq<string>)
    ensures brokerList == BrokerList(brokers)
  {
    brokerList := [];
    var parts := SplitAndTrim(brokers, ",");
    TrimmedNonEmpty(Split(brokers, ","));
    for i := 0 to |parts|
      invariant brokerList == parts[..i]
    {
      assert parts[i] in parts;
      if parts[i] != "" {
        brokerList := brokerList + [parts[i]];
      }
    }
  }

  lemma {:induction false} TrimmedNonEmpty(parts: seq<string>)
    ensures forall p | p in Trimmed(parts) :: p != ""
  {
    if parts != [] {
      TrimmedNonEmpty(parts[..|parts| - 1]);
    }
  }

  predicate BrokerName(b: string) {
    b != "" && ',' !in b && b[0] !in SPACE && b[|b| - 1] !in SPACE
  }

  /** Parsing undoes printing: any list of broker names, each with any spaces around it, is read
      back from its comma-separated text. */
  lemma BrokerListRoundTrip(names: seq<string>, lefts: seq<string>, rights: seq<string>)
    requires |names| == |lefts| == |rights| > 0
    requires forall i | 0 <= i < |names| :: BrokerName(names[i]) && AllIn(lefts[i], SPACE) && AllIn(rights[i], SPACE)
    ensures BrokerList(Join(seq(|names|, i requires 0 <= i < |names| => lefts[i] + names[i] + rights[i]), ",")) == names
  {
    var parts := seq(|names|, i requires 0 <= i < |names| => lefts[i] + names[i] + rights[i]);
    forall p | p in parts ensures ',' !in p {
      var i :| 0 <= i < |parts| && parts[i] == p;
      assert BrokerName(names[i]) && ',' !in lefts[i] && ',' !in rights[i];
    }
    SplitOfJoin(parts, ',');
    TrimmedNames(parts, names, lefts, rights);
  }

  /** A broker name with spaces around it. */
  predicate Padded(part: string, left: string, name: string, right: string) {
    BrokerName(name) && AllIn(left, SPACE) && AllIn(right, SPACE) && part == left + name + right
  }

  lemma TrimmedName(part: string, left: string, name: string, right: string)
    requires Padded(part, left, name, right)
    ensures Trim(part, SPACE) == name && name != ""
  {
    TrimPadded(left, name, right, SPACE);
  }

  lemma {:induction false} TrimmedNames(parts: seq<string>, names: seq<string>, lefts: seq<string>, rights: seq<string>)
    requires |parts| == |names| == |lefts| == |rights|
    requires forall i | 0 <= i < |names| :: Padded(parts[i], lefts[i], names[i], rights[i])
    ensures Trimmed(parts) == names
  {
    if parts != [] {
      var n := |parts| - 1;
      TrimmedNames(parts[..n], names[..n], lefts[..n], rights[..n]);
      TrimmedName(parts[n], lefts[n], names[n], rights[n]);
      assert names == names[..n] + [names[n]];
    }
  }
}
