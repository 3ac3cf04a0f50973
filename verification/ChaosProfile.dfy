/** The chaos profile parser (internal/chaos/config.go:49-80). */
module ChaosProfile {
  import opened Wrappers
  import opened Json
  import opened Text

  /** The characters Go's `strings.TrimSpace` cuts. */
  const SPACE: set<char> :=
    {' ', '\t', '\n', '\U{0B}', '\U{0C}', '\r', '\U{85}', '\U{A0}', '\U{1680}', '\U{2028}', '\U{2029}', '\U{202F}',
     '\U{205F}', '\U{3000}'} + (set c: char | '\U{2000}' <= c <= '\U{200A}')

  const DROP := "drop-pct="
  const DELAY := "delay="

  // ----- decimal numbers -----

  predicate IsDigit(c: char) { '0' <= c <= '9' }

  predicate AllDigits(s: string) { forall i | 0 <= i < |s| :: IsDigit(s[i]) }

  function Value(s: string): nat
    requires AllDigits(s)
  {
    if s == "" then 0 else 10 * Value(s[..|s| - 1]) + (s[|s| - 1] - '0') as nat
  }

  /** `strconv.Atoi`: an optional sign, at least one digit, and a value that fits. */
  function Atoi(s: string): Option<int64> {
    var digits := if s != "" && (s[0] == '-' || s[0] == '+') then s[1..] else s;
    if digits == "" || !AllDigits(digits) then None
    else
      var n := if s[0] == '-' then -(Value(digits) as int) else Value(digits);
      if -0x8000_0000_0000_0000 <= n < 0x8000_0000_0000_0000 then Some(n) else None
  }

  function Print(n: nat): (s: string)
    ensures s != "" && AllDigits(s)
  {
    var last := [('0' as int + n % 10) as char];
    if n < 10 then last else Print(n / 10) + last
  }

  lemma {:induction false} ValueOfPrint(n: nat)
    ensures Value(Print(n)) == n
  {
    var s := Print(n);
    if n >= 10 {
      ValueOfPrint(n / 10);
      assert s[..|s| - 1] == Print(n / 10);
    } else {
      assert s[..|s| - 1] == "";
    }
  }

  lemma AtoiOfPrint(n: nat)
    requires n < 0x8000_0000_0000_0000
    ensures Atoi(Print(n)) == Some(n)
  {
    ValueOfPrint(n);
    assert IsDigit(Print(n)[0]);
  }

  // ----- profiles -----

  datatype Profile = Profile(dropPct: int64, delayMin: int64, delayMax: int64)

  datatype ProfileError = BadDropPct | BadDelayMin | BadDelayMax

  predicate HasPrefix(s: string, p: string) {
    |p| <= |s| && s[..|p|] == p
  }

  /** What one part, already trimmed, does to the values read so far. */
  function ReadPart(p: Profile, part: string): Result<Profile, ProfileError> {
    if HasPrefix(part, DROP) then
      match Atoi(part[|DROP|..])
      case None => Err(BadDropPct)
      case Some(n) => Ok(p.(dropPct := n))
    else if HasPrefix(part, DELAY) then
      var bounds := Split(part[|DELAY|..], "-");
      if |bounds| != 2 then Ok(p)
      else if Atoi(bounds[0]).None? then Err(BadDelayMin)
      else if Atoi(bounds[1]).None? then Err(BadDelayMax)
      else Ok(p.(delayMin := Atoi(bounds[0]).value, delayMax := Atoi(bounds[1]).value))
    else Ok(p)
  }

  function ReadParts(parts: seq<string>): Result<Profile, ProfileError> {
    if parts == [] then Ok(Profile(0, 0, 0))
    else
      var before := ReadParts(parts[..|parts| - 1]);
      if before.Err? then before else ReadPart(before.value, Trim(parts[|parts| - 1], SPACE))
  }

  function ProfileOf(profile: string): Result<Profile, ProfileError> {
    if profile == "" then Ok(Profile(0, 0, 0)) else ReadParts(Split(profile, ","))
  }

  lemma {:induction false} ErrorStays(parts: seq<string>, n: nat)
    requires n <= |parts| && ReadParts(parts[..n]).Err?
    ensures ReadParts(parts) == ReadParts(parts[..n])
  {
    if n == |parts| {
      assert parts[..n] == parts;
    } else {
      assert parts[..|parts| - 1][..n] == parts[..n];
      ErrorStays(parts[..|parts| - 1], n);
    }
  }

  /** On an error the three numbers are all zero. */
  method ParseProfile(profile: string)
    returns (dropPct: int64, delayMin: int64, delayMax: int64, err: Option<ProfileError>)
    ensures match ProfileOf(profile)
            case Ok(p) => err == None && Profile(dropPct, delayMin, delayMax) == p
            case Err(e) => err == Some(e) && dropPct == delayMin == delayMax == 0
  {
    dropPct, delayMin, delayMax, err := 0, 0, 0, None;
    if profile == "" {
      return;
    }
    var parts := Split(profile, ",");
    for i := 0 to |parts|
      invariant ReadParts(parts[..i]) == Ok(Profile(dropPct, delayMin, delayMax)) && err == None
    {
      assert parts[..i + 1][..i] == parts[..i];
      var part := Trim(parts[i], SPACE);
      var read := ReadPart(Profile(dropPct, delayMin, delayMax), part);
      if read.Err? {
        ErrorStays(parts, i + 1);
      }
      if HasPrefix(part, DROP) {
        var n := Atoi(part[|DROP|..]);
        if n.None? {
          return 0, 0, 0, Some(BadDropPct);
        }
        dropPct := n.value;
      } else if HasPrefix(part, DELAY) {
        var bounds := Split(part[|DELAY|..], "-");
        if |bounds| == 2 {
          var low := Atoi(bounds[0]);
          if low.None? {
            return 0, 0, 0, Some(BadDelayMin);
          }
          delayMin := low.value;
          var high := Atoi(bounds[1]);
          if high.None? {
            return 0, 0, 0, Some(BadDelayMax);
          }
          delayMax := high.value;
        }
      }
    }
    assert parts[..|parts|] == parts;
  }

  // ----- what is read and what is refused -----

  /** A number is read, with an optional sign, exactly when it fits. */
  lemma NumbersRead(n: nat)
    ensures Atoi(Print(n)) == if n < 0x8000_0000_0000_0000 then Some(n) else None
    ensures Atoi("+" + Print(n)) == Atoi(Print(n))
    ensures n <= 0x8000_0000_0000_0000 ==> Atoi("-" + Print(n)) == Some(-(n as int))
    ensures n > 0x8000_0000_0000_0000 ==> Atoi("-" + Print(n)) == None
  {
    ValueOfPrint(n);
    assert IsDigit(Print(n)[0]);
    assert ("+" + Print(n))[1..] == Print(n) && ("-" + Print(n))[1..] == Print(n);
  }

  /** A text with no digits, or something else among them, is not a number. */
  lemma NotNumbers(s: string)
    requires s == "" || !AllDigits(s)
    ensures Atoi("+" + s) == Atoi("-" + s) == None
    ensures s == "" || (s[0] != '-' && s[0] != '+') ==> Atoi(s) == None
  {
    assert ("+" + s)[1..] == s && ("-" + s)[1..] == s;
  }

  /** A `drop-pct` part sets the percentage, or is refused when it is not a number. */
  lemma DropRead(p: Profile, s: string)
    ensures Atoi(s).Some? ==> ReadPart(p, "drop-pct=" + s) == Ok(p.(dropPct := Atoi(s).value))
    ensures Atoi(s).None? ==> ReadPart(p, "drop-pct=" + s) == Err(BadDropPct)
  {
    var t := "drop-pct=" + s;
    assert t[..9] == "drop-pct=" && t[9..] == s;
  }

  /** A `delay` part with one dash sets both bounds, or is refused for the first that is not a number. */
  lemma DelayRead(p: Profile, a: string, b: string)
    requires '-' !in a && '-' !in b
    ensures var r := ReadPart(p, "delay=" + (a + "-" + b));
            && (Atoi(a).None? ==> r == Err(BadDelayMin))
            && (Atoi(a).Some? && Atoi(b).None? ==> r == Err(BadDelayMax))
            && (Atoi(a).Some? && Atoi(b).Some? ==> r == Ok(p.(delayMin := Atoi(a).value, delayMax := Atoi(b).value)))
  {
    DelayBounds(p, a + "-" + b);
    SplitAtFirst(a, '-', b);
    SplitNone(b, '-');
  }

  /** With no dash, or several, it is ignored. */
  lemma DelayIgnored(p: Profile, a: string, b: string, c: string)
    requires '-' !in a && '-' !in b
    ensures ReadPart(p, "delay=" + a) == Ok(p)
    ensures ReadPart(p, "delay=" + (a + "-" + (b + "-" + c))) == Ok(p)
  {
    DelayBounds(p, a);
    SplitNone(a, '-');
    DelayBounds(p, a + "-" + (b + "-" + c));
    SplitAtFirst(a, '-', b + "-" + c);
    SplitAtFirst(b, '-', c);
  }

  lemma DelayBounds(p: Profile, s: string)
    ensures ReadPart(p, "delay=" + s) ==
              var bounds := Split(s, "-");
              if |bounds| != 2 then Ok(p)
              else if Atoi(bounds[0]).None? then Err(BadDelayMin)
              else if Atoi(bounds[1]).None? then Err(BadDelayMax)
              else Ok(p.(delayMin := Atoi(bounds[0]).value, delayMax := Atoi(bounds[1]).value))
  {
    var t := "delay=" + s;
    assert t[..6] == "delay=" && t[6..] == s;
    assert t[1] == 'e' && DROP[1] == 'r';
    assert |DROP| <= |t| ==> t[..|DROP|][1] == t[1];
  }

  lemma NoPrefix(s: string, p: string)
    requires p != "" && (s == "" || s[0] != p[0])
    ensures !HasPrefix(s, p)
  {
    if |p| <= |s| {
      assert s[..|p|][0] == s[0];
    }
  }

  /** Any other part is ignored, and an empty profile is all zeros. */
  lemma OthersIgnored(p: Profile, part: string)
    requires part == "" || part[0] != 'd'
    ensures ReadPart(p, part) == Ok(p)
    ensures ProfileOf("") == Ok(Profile(0, 0, 0))
  {
    assert DROP[0] == 'd' && DELAY[0] == 'd';
    NoPrefix(part, DROP);
    NoPrefix(part, DELAY);
  }

  // ----- round trip -----

  function DropText(d: nat): string { "drop-pct=" + Print(d) }

  function DelayText(a: nat, b: nat): string { "delay=" + Print(a) + "-" + Print(b) }

  lemma DigitsHaveNone(s: string, c: char)
    requires AllDigits(s) && !IsDigit(c)
    ensures c !in s
  {
  }

  lemma TextEnds(prefix: string, digits: string)
    requires prefix == DROP || HasPrefix(prefix, DELAY)
    requires digits != "" && AllDigits(digits)
    ensures (prefix + digits)[0] !in SPACE && (prefix + digits)[|prefix + digits| - 1] !in SPACE
  {
    assert prefix[0] == 'd' by {
      if prefix != DROP {
        assert prefix[..|DELAY|][0] == 'd';
      }
    }
    assert IsDigit(digits[|digits| - 1]);
  }

  lemma ReadDrop(p: Profile, d: nat)
    requires d < 0x8000_0000_0000_0000
    ensures ReadPart(p, DropText(d)) == Ok(p.(dropPct := d))
  {
    AtoiOfPrint(d);
    assert DropText(d)[..|DROP|] == DROP && DropText(d)[|DROP|..] == Print(d);
  }

  lemma ReadDelay(p: Profile, a: nat, b: nat)
    requires a < 0x8000_0000_0000_0000 && b < 0x8000_0000_0000_0000
    ensures ReadPart(p, DelayText(a, b)) == Ok(p.(delayMin := a, delayMax := b))
  {
    AtoiOfPrint(a);
    AtoiOfPrint(b);
    var t := DelayText(a, b);
    assert t[..|DELAY|] == DELAY && t[|DELAY|..] == Print(a) + "-" + Print(b);
    assert t[1] == 'e' && DROP[1] == 'r';
    assert |DROP| <= |t| ==> t[..|DROP|][1] == t[1];
    DigitsHaveNone(Print(a), '-');
    DigitsHaveNone(Print(b), '-');
    SplitAtFirst(Print(a), '-', Print(b));
    SplitNone(Print(b), '-');
  }

  lemma NoComma(left: string, core: string, right: string)
    requires AllIn(left, SPACE) && AllIn(right, SPACE) && ',' !in core
    ensures ',' !in left + core + right
  {
  }

  lemma TwoParts(x: string, y: string)
    requires ',' !in x && ',' !in y
    ensures ProfileOf(x + "," + y) ==
            var first := ReadPart(Profile(0, 0, 0), Trim(x, SPACE));
            if first.Err? then first else ReadPart(first.value, Trim(y, SPACE))
  {
    SplitAtFirst(x, ',', y);
    SplitNone(y, ',');
    var parts := [x, y];
    assert Split(x + "," + y, ",") == parts;
    assert parts[..1] == [x] && [x][..0] == [];
    assert ReadParts([x]) == ReadPart(Profile(0, 0, 0), Trim(x, SPACE));
  }

  /** Reading a printed profile gives the printed numbers, in either order of the parts and with any
      spaces around them. */
  lemma ProfileRoundTrip(d: nat, a: nat, b: nat, l1: string, r1: string, l2: string, r2: string)
    requires d < 0x8000_0000_0000_0000 && a < 0x8000_0000_0000_0000 && b < 0x8000_0000_0000_0000
    requires AllIn(l1, SPACE) && AllIn(r1, SPACE) && AllIn(l2, SPACE) && AllIn(r2, SPACE)
    ensures ProfileOf((l1 + DropText(d) + r1) + "," + (l2 + DelayText(a, b) + r2)) == Ok(Profile(d, a, b))
    ensures ProfileOf((l2 + DelayText(a, b) + r2) + "," + (l1 + DropText(d) + r1)) == Ok(Profile(d, a, b))
  {
    var x, y := l1 + DropText(d) + r1, l2 + DelayText(a, b) + r2;
    DigitsHaveNone(Print(d), ',');
    DigitsHaveNone(Print(a), ',');
    DigitsHaveNone(Print(b), ',');
    NoComma(l1, DropText(d), r1);
    NoComma(l2, DelayText(a, b), r2);
    TextEnds(DROP, Print(d));
    TrimPadded(l1, DropText(d), r1, SPACE);
    assert HasPrefix(DELAY + Print(a) + "-", DELAY);
    TextEnds(DELAY + Print(a) + "-", Print(b));
    TrimPadded(l2, DelayText(a, b), r2, SPACE);
    TwoParts(x, y);
    TwoParts(y, x);
    ReadDrop(Profile(0, 0, 0), d);
    ReadDrop(Profile(0, a, b), d);
    ReadDelay(Profile(0, 0, 0), a, b);
    ReadDelay(Profile(d, 0, 0), a, b);
  }
}
