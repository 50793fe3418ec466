/** Dotted numeric versions: the run of digits and dots a text starts with, compared component by component. */
module Version {
  import opened Wrappers
  import Records

  const U64_MAX: nat := 0xffff_ffff_ffff_ffff

  datatype Ordering = Less | Equal | Greater {
    function Reverse(): Ordering {
      match this
      case Less => Greater
      case Equal => Equal
      case Greater => Less
    }
  }

  // ----- reading a version -----

  /** The characters with the Unicode property White_Space. */
  predicate IsWhitespace(c: char) {
    || '\U{9}' <= c <= '\U{D}' || c == ' ' || c == '\U{85}' || c == '\U{A0}' || c == '\U{1680}'
    || '\U{2000}' <= c <= '\U{200A}' || c == '\U{2028}' || c == '\U{2029}' || c == '\U{202F}' || c == '\U{205F}'
    || c == '\U{3000}'
  }

  predicate IsDigit(c: char) {
    '0' as int <= c as int <= '9' as int
  }

  predicate InRun(c: char) {
    IsDigit(c) || c == '.'
  }

  function TrimStart(s: string): string {
    if s != [] && IsWhitespace(s[0]) then TrimStart(s[1..]) else s
  }

  /** The leading digits and dots. */
  function LeadingRun(s: string): string {
    if s != [] && InRun(s[0]) then [s[0]] + LeadingRun(s[1..]) else []
  }

  function TrimDots(s: string): string {
    if s != [] && s[|s| - 1] == '.' then TrimDots(s[..|s| - 1]) else s
  }

  function DecimalValue(s: string): nat
    requires forall i :: 0 <= i < |s| ==> IsDigit(s[i])
  {
    if s == [] then 0
    else
      var last := s[|s| - 1];
      assert IsDigit(last);
      DecimalValue(s[..|s| - 1]) * 10 + (last as int - '0' as int)
  }

  /** A decimal number that fits 64 bits; an empty part is none. */
  function ParseNumber(s: string): Option<nat> {
    if s == [] || exists i :: 0 <= i < |s| && !IsDigit(s[i]) then None
    else if DecimalValue(s) > U64_MAX then None
    else Some(DecimalValue(s))
  }

  function ParseAll(parts: seq<string>): Option<seq<nat>> {
    if parts == [] then Some([])
    else
      match (ParseNumber(parts[0]), ParseAll(parts[1..]))
      case (Some(n), Some(rest)) => Some([n] + rest)
      case _ => None
  }

  /** The numbers between the dots; nothing if one of them is missing or too large. */
  function Components(text: string): Option<seq<nat>> {
    ParseAll(Records.Split(TrimDots(LeadingRun(TrimStart(text))), '.'))
  }

  // ----- comparing -----

  /** A missing component counts as zero. */
  function At(v: seq<nat>, i: nat): nat {
    if i < |v| then v[i] else 0
  }

  function CompareNat(l: nat, r: nat): Ordering {
    if l < r then Less else if l == r then Equal else Greater
  }

  /** The two lists agree below `i`. */
  ghost predicate AgreeTo(l: seq<nat>, r: seq<nat>, i: nat) {
    forall j :: 0 <= j < i ==> At(l, j) == At(r, j)
  }

  /** `o` is decided at the first component where the padded lists differ. */
  ghost predicate DecidedAt(l: seq<nat>, r: seq<nat>, i: nat, o: Ordering) {
    AgreeTo(l, r, i) && At(l, i) != At(r, i) && o == CompareNat(At(l, i), At(r, i))
  }

  /** The lexicographic order of the zero-padded lists. */
  ghost predicate Compares(l: seq<nat>, r: seq<nat>, o: Ordering) {
    if o.Equal? then forall j: nat :: At(l, j) == At(r, j) else exists i: nat :: DecidedAt(l, r, i, o)
  }

  /** Compares component by component, padding with zeros. */
  method CompareComponents(left: seq<nat>, right: seq<nat>) returns (o: Ordering)
    ensures Compares(left, right, o)
  {
    var n := if |left| > |right| then |left| else |right|;
    for index := 0 to n
      invariant AgreeTo(left, right, index)
    {
      var c := CompareNat(At(left, index), At(right, index));
      if !c.Equal? {
        assert DecidedAt(left, right, index, c);
        return c;
      }
    }
    return Equal;
  }

  method Compare(left: string, right: string) returns (r: Option<Ordering>)
    ensures r.None? <==> Components(left).None? || Components(right).None?
    ensures r.Some? ==> Compares(Components(left).value, Components(right).value, r.value)
  {
    var l, rt := Components(left), Components(right);
    if l.None? || rt.None? {
      return None;
    }
    var o := CompareComponents(l.value, rt.value);
    return Some(o);
  }

  method AtLeast(installed: string, required: string) returns (r: Option<bool>)
    ensures r.None? <==> Components(installed).None? || Components(required).None?
    ensures r.Some? ==> (r.value <==> !Compares(Components(installed).value, Components(required).value, Less))
  {
    var o := Compare(installed, required);
    if o.None? {
      return None;
    }
    ComparesOnce(Components(installed).value, Components(required).value, o.value, Less);
    return Some(!o.value.Less?);
  }

  // ----- it is an order -----

  /** There is one answer. */
  lemma ComparesOnce(l: seq<nat>, r: seq<nat>, o: Ordering, p: Ordering)
    requires Compares(l, r, o)
    ensures Compares(l, r, p) <==> o == p
  {
    if Compares(l, r, p) && !o.Equal? && !p.Equal? {
      var i: nat :| DecidedAt(l, r, i, o);
      var j: nat :| DecidedAt(l, r, j, p);
      assert i == j;
    }
  }

  /** There always is an answer: the lists differ at some component, or nowhere. */
  lemma {:induction false} ComparesTotal(l: seq<nat>, r: seq<nat>, from: nat)
    requires AgreeTo(l, r, from)
    ensures exists o :: Compares(l, r, o)
    decreases |l| + |r| - from
  {
    if from >= |l| + |r| {
      assert Compares(l, r, Equal);
    } else if At(l, from) != At(r, from) {
      assert DecidedAt(l, r, from, CompareNat(At(l, from), At(r, from)));
      assert Compares(l, r, CompareNat(At(l, from), At(r, from)));
    } else {
      ComparesTotal(l, r, from + 1);
    }
  }

  /** Swapping the sides reverses the answer. */
  lemma ComparesReversed(l: seq<nat>, r: seq<nat>, o: Ordering)
    requires Compares(l, r, o)
    ensures Compares(r, l, o.Reverse())
  {
    if !o.Equal? {
      var i: nat :| DecidedAt(l, r, i, o);
      assert DecidedAt(r, l, i, o.Reverse());
    }
  }

  /** Not-greater is transitive, and strict when either step is. */
  lemma ComparesTransitive(a: seq<nat>, b: seq<nat>, c: seq<nat>, o: Ordering, p: Ordering)
    requires Compares(a, b, o) && Compares(b, c, p) && !o.Greater? && !p.Greater?
    ensures Compares(a, c, if o.Equal? && p.Equal? then Equal else Less)
  {
    if o.Less? && p.Less? {
      var i: nat :| DecidedAt(a, b, i, Less);
      var j: nat :| DecidedAt(b, c, j, Less);
      assert DecidedAt(a, c, if i < j then i else j, Less);
    } else if o.Less? {
      var i: nat :| DecidedAt(a, b, i, Less);
      assert DecidedAt(a, c, i, Less);
    } else if p.Less? {
      var j: nat :| DecidedAt(b, c, j, Less);
      assert DecidedAt(a, c, j, Less);
    }
  }

  /** The list without trailing zeros. */
  function Significant(v: seq<nat>): (r: seq<nat>)
    ensures r == [] || r[|r| - 1] != 0
    ensures forall i: nat :: At(r, i) == At(v, i)
  {
    if v != [] && v[|v| - 1] == 0 then Significant(v[..|v| - 1]) else v
  }

  lemma NotLonger(a: seq<nat>, b: seq<nat>)
    requires (a == [] || a[|a| - 1] != 0) && forall i: nat :: At(a, i) == At(b, i)
    ensures |a| <= |b|
  {
    if a != [] {
      assert At(a, |a| - 1) == At(b, |a| - 1);
    }
  }

  /** Equal means the same components once trailing zeros are dropped. */
  lemma {:induction false} EqualIffSignificant(l: seq<nat>, r: seq<nat>)
    ensures Compares(l, r, Equal) <==> Significant(l) == Significant(r)
  {
    var a, b := Significant(l), Significant(r);
    if Compares(l, r, Equal) {
      assert forall i: nat :: At(a, i) == At(b, i);
      NotLonger(a, b);
      NotLonger(b, a);
      forall i | 0 <= i < |a| ensures a[i] == b[i] {
        assert At(a, i) == At(b, i);
      }
    }
    if a == b {
      forall i: nat ensures At(l, i) == At(r, i) {
        assert At(a, i) == At(l, i) && At(b, i) == At(r, i);
      }
    }
  }

  // ----- what follows the run does not matter -----

  lemma {:induction false} RunStopsAtSuffix(s: string, suffix: string)
    requires suffix != [] && !InRun(suffix[0])
    ensures LeadingRun(s + suffix) == LeadingRun(s)
  {
    if s == [] {
      assert s + suffix == suffix;
    } else {
      assert (s + suffix)[0] == s[0] && (s + suffix)[1..] == s[1..] + suffix;
      if InRun(s[0]) {
        RunStopsAtSuffix(s[1..], suffix);
      }
    }
  }

  lemma {:induction false} TrimKeepsSuffix(s: string, suffix: string)
    requires TrimStart(s) != []
    ensures TrimStart(s + suffix) == TrimStart(s) + suffix
  {
    assert (s + suffix)[0] == s[0] && (s + suffix)[1..] == s[1..] + suffix;
    if IsWhitespace(s[0]) {
      TrimKeepsSuffix(s[1..], suffix);
    }
  }

  /** A version is unaffected by any suffix that starts with neither a digit nor a dot. */
  lemma SuffixIsIgnored(text: string, suffix: string)
    requires Components(text).Some? && suffix != [] && !InRun(suffix[0])
    ensures Components(text + suffix) == Components(text)
  {
    if TrimStart(text) == [] {
    } else {
      TrimKeepsSuffix(text, suffix);
      RunStopsAtSuffix(TrimStart(text), suffix);
    }
  }

  // ----- versions written in the usual way -----

  function Digit(d: nat): char
    requires d < 10
  {
    (d + '0' as int) as char
  }

  /** `n` in decimal, without leading zeros. */
  function Decimal(n: nat): string {
    if n < 10 then [Digit(n)] else Decimal(n / 10) + [Digit(n % 10)]
  }

  /** The numbers in decimal with dots between them. */
  function Dotted(ns: seq<nat>): string
    requires ns != []
  {
    if |ns| == 1 then Decimal(ns[0]) else Decimal(ns[0]) + ['.'] + Dotted(ns[1..])
  }

  ghost predicate AllDigits(s: string) {
    s != [] && forall i :: 0 <= i < |s| ==> IsDigit(s[i])
  }

  lemma {:induction false} DecimalReadsBack(n: nat)
    ensures AllDigits(Decimal(n)) && DecimalValue(Decimal(n)) == n
  {
    if n >= 10 {
      DecimalReadsBack(n / 10);
      assert Decimal(n)[..|Decimal(n)| - 1] == Decimal(n / 10);
    } else {
      assert [Digit(n)][..0] == [] && DecimalValue([]) == 0;
    }
  }

  lemma {:induction false} SplitDigits(s: string, rest: string)
    requires forall i :: 0 <= i < |s| ==> IsDigit(s[i])
    ensures Records.Split(s, '.') == [s]
    ensures Records.Split(s + ['.'] + rest, '.') == [s] + Records.Split(rest, '.')
  {
    if s == [] {
      assert ['.'] + rest == s + ['.'] + rest && (['.'] + rest)[1..] == rest;
    } else {
      SplitDigits(s[1..], rest);
      assert [s[0]] + s[1..] == s;
      assert (s + ['.'] + rest)[1..] == s[1..] + ['.'] + rest;
    }
  }

  lemma {:induction false} SplitDotted(ns: seq<nat>)
    requires ns != [] && forall i :: 0 <= i < |ns| ==> ns[i] <= U64_MAX
    ensures ParseAll(Records.Split(Dotted(ns), '.')) == Some(ns)
  {
    DecimalReadsBack(ns[0]);
    if |ns| == 1 {
      SplitDigits(Decimal(ns[0]), []);
      var parts := [Decimal(ns[0])];
      assert parts[1..] == [] && ParseAll(parts[1..]) == Some([]);
      assert ns == [ns[0]] + [];
    } else {
      SplitDotted(ns[1..]);
      SplitDigits(Decimal(ns[0]), Dotted(ns[1..]));
      var rest := Records.Split(Dotted(ns[1..]), '.');
      assert ([Decimal(ns[0])] + rest)[1..] == rest;
      assert ns == [ns[0]] + ns[1..];
    }
  }

  /** It starts and ends with a digit and holds nothing but digits and dots. */
  ghost predicate IsRun(s: string) {
    s != [] && IsDigit(s[0]) && IsDigit(s[|s| - 1]) && forall i :: 0 <= i < |s| ==> InRun(s[i])
  }

  lemma {:induction false} DottedIsRun(ns: seq<nat>)
    requires ns != []
    ensures IsRun(Dotted(ns))
  {
    DecimalReadsBack(ns[0]);
    if |ns| > 1 {
      DottedIsRun(ns[1..]);
    }
  }

  lemma {:induction false} RunIsWhole(s: string)
    requires forall i :: 0 <= i < |s| ==> InRun(s[i])
    ensures LeadingRun(s) == s
  {
    if s != [] {
      RunIsWhole(s[1..]);
      assert s == [s[0]] + s[1..];
    }
  }

  /** The components of numbers written in decimal with dots between them are those numbers. */
  lemma {:induction false} DottedReadsBack(ns: seq<nat>)
    requires ns != [] && forall i :: 0 <= i < |ns| ==> ns[i] <= 0xffff_ffff_ffff_ffff
    ensures Components(Dotted(ns)) == Some(ns)
  {
    DottedIsRun(ns);
    RunIsWhole(Dotted(ns));
    SplitDotted(ns);
  }

  /** Components compare as numbers: 4.10 comes after 4.9. */
  lemma TenAfterNine()
    ensures Components("4.10").Some? && Components("4.9").Some?
    ensures Compares(Components("4.10").value, Components("4.9").value, Greater)
  {
    DottedReadsBack([4, 10]);
    DottedReadsBack([4, 9]);
    assert Decimal(10) == Decimal(1) + [Digit(0)];
    assert [4, 10][1..] == [10] && [4, 9][1..] == [9];
    assert Dotted([4, 10]) == "4.10" && Dotted([4, 9]) == "4.9";
    assert DecidedAt([4, 10], [4, 9], 1, Greater);
  }
}
