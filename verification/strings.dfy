/** The Go and JavaScript string primitives the probes and pages rely on:
    `unicode.IsSpace`, `strings.TrimSpace`, `strings.ToLower`,
    `strings.Contains`, `strings.Split`/`Join`, `strconv.Itoa` and
    `strconv.Atoi`. Strings are sequences of runes (`seq<char>`). */
module Strings {
  import opened Wrappers

  const MinInt64: int := -0x8000_0000_0000_0000
  const MaxInt64: int := 0x7FFF_FFFF_FFFF_FFFF

  /** Two's-complement wrap-around of an integer to 64 bits. */
  function WrapInt64(x: int): (r: int)
    ensures MinInt64 <= r <= MaxInt64
    ensures MinInt64 <= x <= MaxInt64 ==> r == x
    ensures (r - x) % 0x1_0000_0000_0000_0000 == 0
  {
    (x - MinInt64) % 0x1_0000_0000_0000_0000 + MinInt64
  }

  /** Go's `unicode.IsSpace`: the Latin-1 blanks plus the other characters
      with the Unicode White_Space property. */
  predicate IsSpace(c: char) {
    || c == ' ' || c == '\t' || c == '\n' || c == '\U{000B}' || c == '\U{000C}' || c == '\r'
    || c == '\U{0085}' || c == '\U{00A0}' || c == '\U{1680}'
    || ('\U{2000}' <= c <= '\U{200A}')
    || c == '\U{2028}' || c == '\U{2029}' || c == '\U{202F}' || c == '\U{205F}' || c == '\U{3000}'
  }

  predicate AllSpace(s: string) {
    forall i :: 0 <= i < |s| ==> IsSpace(s[i])
  }

  /** No white space at either end. */
  predicate Trimmed(s: string) {
    |s| == 0 || (!IsSpace(s[0]) && !IsSpace(s[|s| - 1]))
  }

  function TrimLeft(s: string): (r: string)
    ensures |r| <= |s| && r == s[|s| - |r|..]
    ensures |r| == 0 || !IsSpace(r[0])
    ensures forall i :: 0 <= i < |s| - |r| ==> IsSpace(s[i])
  {
    if |s| > 0 && IsSpace(s[0]) then
      var r := TrimLeft(s[1..]);
      assert forall i :: 1 <= i < |s| ==> s[i] == s[1..][i - 1];
      r
    else s
  }

  function TrimRight(s: string): (r: string)
    ensures |r| <= |s| && r == s[..|r|]
    ensures |r| == 0 || !IsSpace(r[|r| - 1])
    ensures forall i :: |r| <= i < |s| ==> IsSpace(s[i])
  {
    if |s| > 0 && IsSpace(s[|s| - 1]) then
      var r := TrimRight(s[..|s| - 1]);
      assert forall i :: 0 <= i < |s| - 1 ==> s[i] == s[..|s| - 1][i];
      r
    else s
  }

  /** `strings.TrimSpace`: white space removed from both ends. */
  function TrimSpace(s: string): (r: string)
    ensures |r| <= |s| && Trimmed(r)
  {
    TrimRight(TrimLeft(s))
  }

  /** Where the trimmed string starts: after the leading white space. */
  function TrimStart(s: string): nat {
    |s| - |TrimLeft(s)|
  }

  /** The trimmed string is the slice of the original from `TrimStart`. */
  lemma TrimSpaceIsSlice(s: string)
    ensures TrimStart(s) + |TrimSpace(s)| <= |s|
    ensures TrimSpace(s) == s[TrimStart(s)..TrimStart(s) + |TrimSpace(s)|]
  {
    var l := TrimLeft(s);
    var r := TrimRight(l);
    var k := |s| - |l|;
    assert TrimSpace(s) == r;
    assert l == s[k..] && r == l[..|r|];
    SuffixSlices(s, k, |r|);
  }

  lemma SuffixSlices(s: string, k: nat, n: nat)
    requires k + n <= |s|
    ensures s[k..][..n] == s[k..k + n] && s[k..][n..] == s[k + n..]
  {
  }

  lemma {:induction false} TrimLeftPadded(p: string, x: string)
    requires AllSpace(p)
    ensures TrimLeft(p + x) == TrimLeft(x)
  {
    if |p| > 0 {
      assert (p + x)[1..] == p[1..] + x;
      TrimLeftPadded(p[1..], x);
    } else {
      assert p + x == x;
    }
  }

  lemma {:induction false} TrimRightPadded(x: string, q: string)
    requires AllSpace(q)
    ensures TrimRight(x + q) == TrimRight(x)
  {
    if |q| > 0 {
      assert (x + q)[..|x + q| - 1] == x + q[..|q| - 1];
      TrimRightPadded(x, q[..|q| - 1]);
    } else {
      assert x + q == x;
    }
  }

  /** A non-empty trimmed core surrounded by white space is exactly what
      `TrimSpace` recovers. */
  lemma TrimSpaceOfPadded(a: string, m: string, b: string)
    requires AllSpace(a) && AllSpace(b) && Trimmed(m) && |m| > 0
    ensures TrimSpace(a + m + b) == m
  {
    assert a + m + b == a + (m + b);
    TrimLeftPadded(a, m + b);
    TrimRightPadded(m, b);
  }

  lemma AllSpaceTrimsToEmpty(s: string)
    requires AllSpace(s)
    ensures TrimSpace(s) == []
  {
    assert TrimLeft(s) == [];
  }

  lemma AllSpaceConcat(a: string, b: string)
    requires AllSpace(a) && AllSpace(b)
    ensures AllSpace(a + b)
  {
  }

  /** ASCII lower-casing of one character. */
  function LowerChar(c: char): char {
    if 'A' <= c <= 'Z' then (c as int + 32) as char else c
  }

  predicate IsUpper(c: char) {
    'A' <= c <= 'Z'
  }

  /** `strings.ToLower`, restricted to the ASCII letters. */
  function ToLower(s: string): (r: string)
    ensures |r| == |s|
    ensures forall i :: 0 <= i < |s| ==> r[i] == LowerChar(s[i])
    ensures forall i :: 0 <= i < |r| ==> !IsUpper(r[i])
  {
    seq(|s|, i requires 0 <= i < |s| => LowerChar(s[i]))
  }

  /** `strings.Contains`. */
  predicate Contains(s: string, sub: string) {
    exists i :: 0 <= i <= |s| && sub <= s[i..]
  }

  /** `sep` does not start at any position before `n`. */
  predicate NoMatchBefore(s: string, sep: string, n: int) {
    forall j :: 0 <= j < n && j <= |s| ==> !(sep <= s[j..])
  }

  /** Index of the leftmost occurrence of `sep` in `s`. */
  function IndexOf(s: string, sep: string): (r: Option<nat>)
    ensures r.Some? ==> r.value + |sep| <= |s| && sep <= s[r.value..] && NoMatchBefore(s, sep, r.value)
    ensures r.None? ==> !Contains(s, sep)
    decreases |s|
  {
    if sep <= s then Some(0)
    else if |s| == 0 then None
    else
      match IndexOf(s[1..], sep)
      case None =>
        assert forall j :: 1 <= j <= |s| ==> s[j..] == s[1..][j - 1..];
        None
      case Some(k) =>
        assert forall j :: 1 <= j <= k ==> s[j..] == s[1..][j - 1..];
        assert s[k + 1..] == s[1..][k..];
        Some(k + 1)
  }

  /** `strings.Split` with a non-empty separator: the pieces between the
      non-overlapping leftmost occurrences of `sep`. */
  function Split(s: string, sep: string): (r: seq<string>)
    requires |sep| > 0
    ensures |r| >= 1
    decreases |s|
  {
    match IndexOf(s, sep)
    case None => [s]
    case Some(i) => [s[..i]] + Split(s[i + |sep|..], sep)
  }

  /** `strings.Join`. */
  function Join(parts: seq<string>, sep: string): string {
    if |parts| == 0 then ""
    else if |parts| == 1 then parts[0]
    else parts[0] + sep + Join(parts[1..], sep)
  }

  /** Splitting and joining with the same separator gives the string back. */
  lemma {:induction false} SplitJoin(s: string, sep: string)
    requires |sep| > 0
    ensures Join(Split(s, sep), sep) == s
    decreases |s|
  {
    var found := IndexOf(s, sep);
    if found.Some? {
      var i := found.value;
      var head := s[..i];
      var rest := s[i + |sep|..];
      var tail := Split(rest, sep);
      assert Split(s, sep) == [head] + tail;
      SplitJoin(rest, sep);
      JoinCons(head, tail, sep);
      assert s[i..i + |sep|] == sep;
      SliceAround(s, i, |sep|);
    }
  }

  lemma JoinCons(a: string, t: seq<string>, sep: string)
    requires |t| >= 1
    ensures Join([a] + t, sep) == a + sep + Join(t, sep)
  {
    assert ([a] + t)[1..] == t;
  }

  lemma SliceAround(s: string, i: nat, n: nat)
    requires i + n <= |s|
    ensures s == s[..i] + s[i..i + n] + s[i + n..]
  {
  }

  /** No piece produced by `Split` contains the separator. */
  lemma {:induction false} SplitPiecesFree(s: string, sep: string)
    requires |sep| > 0
    ensures forall k :: 0 <= k < |Split(s, sep)| ==> !Contains(Split(s, sep)[k], sep)
    decreases |s|
  {
    match IndexOf(s, sep)
    case None =>
    case Some(i) =>
      var rest := s[i + |sep|..];
      var head := s[..i];
      var tail := Split(rest, sep);
      SplitPiecesFree(rest, sep);
      HeadFree(s, sep, i);
      var parts := Split(s, sep);
      assert parts == [head] + tail;
      forall k | 0 <= k < |parts|
        ensures !Contains(parts[k], sep)
      {
        if k > 0 {
          assert parts[k] == tail[k - 1];
        }
      }
  }

  /** The text before the leftmost occurrence holds no occurrence. */
  lemma HeadFree(s: string, sep: string, i: nat)
    requires |sep| > 0 && i <= |s| && NoMatchBefore(s, sep, i)
    ensures !Contains(s[..i], sep)
  {
    var head := s[..i];
    forall j | 0 <= j <= |head|
      ensures !(sep <= head[j..])
    {
      if j < |head| {
        assert head[j..] <= s[j..];
        NotPrefixOfPrefix(sep, head[j..], s[j..]);
      }
    }
  }

  lemma NotPrefixOfPrefix(a: string, b: string, c: string)
    requires b <= c && !(a <= c)
    ensures !(a <= b)
  {
  }

  /** The text before the first `sep`, or all of `s` (`strings.Split(s, sep)[0]`). */
  function BeforeFirst(s: string, sep: string): (r: string)
    requires |sep| > 0
    ensures r <= s && !Contains(r, sep)
    ensures r == s || (|r| + |sep| <= |s| && sep <= s[|r|..])
  {
    SplitPiecesFree(s, sep);
    match IndexOf(s, sep)
    case None => assert Split(s, sep)[0] == s; s
    case Some(i) => assert Split(s, sep)[0] == s[..i]; s[..i]
  }

  /** The text after the last `sep`, or all of `s`
      (`strings.Split(s, sep)[len-1]`). */
  function AfterLast(s: string, sep: string): (r: string)
    requires |sep| > 0
    ensures |r| <= |s| && r == s[|s| - |r|..] && !Contains(r, sep)
  {
    var parts := Split(s, sep);
    SplitPiecesFree(s, sep);
    SplitJoin(s, sep);
    JoinEndsWithLast(parts, sep);
    parts[|parts| - 1]
  }

  lemma {:induction false} JoinEndsWithLast(parts: seq<string>, sep: string)
    requires |parts| >= 1
    ensures var j := Join(parts, sep); |parts[|parts| - 1]| <= |j| && j[|j| - |parts[|parts| - 1]|..] == parts[|parts| - 1]
  {
    if |parts| > 1 {
      JoinEndsWithLast(parts[1..], sep);
      var j := Join(parts, sep);
      var t := Join(parts[1..], sep);
      assert j == parts[0] + sep + t;
      assert parts[1..][|parts[1..]| - 1] == parts[|parts| - 1];
    }
  }

  predicate IsDigit(c: char) {
    '0' <= c <= '9'
  }

  function DigitChar(d: nat): (c: char)
    requires d < 10
    ensures IsDigit(c)
  {
    ('0' as int + d) as char
  }

  function DigitValue(c: char): (d: nat)
    requires IsDigit(c)
    ensures d < 10 && DigitChar(d) == c
  {
    c as int - '0' as int
  }

  predicate AllDigits(s: string) {
    forall i :: 0 <= i < |s| ==> IsDigit(s[i])
  }

  /** The longest prefix of `s` made of decimal digits. */
  function LeadingDigits(s: string): (r: string)
    ensures r <= s && AllDigits(r)
    ensures |r| < |s| ==> !IsDigit(s[|r|])
  {
    if |s| == 0 || !IsDigit(s[0]) then "" else [s[0]] + LeadingDigits(s[1..])
  }

  lemma {:induction false} LeadingDigitsOfDigits(s: string, t: string)
    requires AllDigits(s) && (|t| == 0 || !IsDigit(t[0]))
    ensures LeadingDigits(s + t) == s
  {
    if |s| > 0 {
      assert (s + t)[1..] == s[1..] + t;
      LeadingDigitsOfDigits(s[1..], t);
    } else {
      assert s + t == t;
    }
  }

  /** Decimal rendering of a natural number, most significant digit first. */
  function NatToString(n: nat): (r: string)
    ensures |r| >= 1 && AllDigits(r)
    ensures r[0] != '0' || n == 0
    decreases n
  {
    if n < 10 then [DigitChar(n)] else NatToString(n / 10) + [DigitChar(n % 10)]
  }

  /** Appending a digit to a number appends its character. */
  lemma NatToStringStep(n: nat, d: nat)
    requires n > 0 && d < 10
    ensures NatToString(n * 10 + d) == NatToString(n) + [DigitChar(d)]
  {
    var m := n * 10 + d;
    assert m / 10 == n && m % 10 == d;
  }

  /** `strconv.Itoa`. */
  function Itoa(n: int): string {
    if n < 0 then "-" + NatToString(-n) else NatToString(n)
  }

  /** The value of a string of decimal digits. */
  function DigitsValue(s: string): nat
    requires AllDigits(s)
  {
    if |s| == 0 then 0 else DigitsValue(s[..|s| - 1]) * 10 + DigitValue(s[|s| - 1])
  }

  /** `strconv.Atoi` on a 64-bit platform: an optional sign followed by at
      least one decimal digit, and nothing else, whose value fits in 64 bits. */
  function Atoi(s: string): (r: Option<int>)
    ensures r.Some? ==> MinInt64 <= r.value <= MaxInt64
    ensures r.Some? ==> |s| > 0
  {
    var neg := |s| > 0 && s[0] == '-';
    var body := if |s| > 0 && (s[0] == '-' || s[0] == '+') then s[1..] else s;
    if |body| == 0 || !AllDigits(body) then None
    else
      var v: int := if neg then -(DigitsValue(body) as int) else DigitsValue(body);
      if MinInt64 <= v <= MaxInt64 then Some(v) else None
  }

  lemma {:induction false} DigitsOfNat(n: nat)
    ensures DigitsValue(NatToString(n)) == n
    decreases n
  {
    if n >= 10 {
      DigitsOfNat(n / 10);
      var s := NatToString(n);
      assert s[..|s| - 1] == NatToString(n / 10);
    }
  }

  /** `Atoi` reads back every 64-bit value `Itoa` renders. */
  lemma AtoiItoa(n: int)
    requires MinInt64 <= n <= MaxInt64
    ensures Atoi(Itoa(n)) == Some(n)
  {
    if n < 0 {
      AtoiNegative(-n);
    } else {
      AtoiNatural(n);
    }
  }

  lemma AtoiNegative(m: nat)
    requires 0 < m <= -MinInt64
    ensures Atoi("-" + NatToString(m)) == Some(-(m as int))
  {
    var d := NatToString(m);
    assert ("-" + d)[1..] == d;
    DigitsOfNat(m);
    AtoiSigned("-" + d, d);
  }

  /** The text after a leading minus sign. */
  lemma DropSign(digits: string, t: string)
    ensures ("-" + digits + t)[0] == '-' && ("-" + digits + t)[1..] == digits + t
  {
  }

  lemma AtoiNatural(n: nat)
    requires n <= MaxInt64
    ensures Atoi(NatToString(n)) == Some(n)
  {
    DigitsOfNat(n);
    AtoiUnsigned(NatToString(n));
  }

  lemma AtoiSigned(s: string, d: string)
    requires |s| > 0 && s[0] == '-' && s[1..] == d && |d| > 0 && AllDigits(d)
    requires -(DigitsValue(d) as int) >= MinInt64
    ensures Atoi(s) == Some(-(DigitsValue(d) as int))
  {
  }

  lemma AtoiUnsigned(d: string)
    requires |d| > 0 && AllDigits(d) && DigitsValue(d) <= MaxInt64
    ensures Atoi(d) == Some(DigitsValue(d) as int)
  {
    assert IsDigit(d[0]);
  }

  /** `Atoi` refuses an empty text and a lone sign. */
  lemma AtoiRejectsNoDigits(s: string)
    requires |s| == 0 || (|s| == 1 && (s[0] == '-' || s[0] == '+'))
    ensures Atoi(s) == None
  {
  }

  /** `Atoi` refuses any text with something other than a digit after its
      optional leading sign: a leading blank, a second sign, trailing text. */
  lemma AtoiRejectsNonDigit(s: string, i: int)
    requires 0 <= i < |s| && !IsDigit(s[i])
    requires i == 0 ==> s[0] != '-' && s[0] != '+'
    ensures Atoi(s) == None
  {
    if s[0] == '-' || s[0] == '+' {
      assert s[1..][i - 1] == s[i];
    }
  }

  /** An optional sign followed by digits, leading zeros included, reads as
      the signed value of the digits when that fits in 64 bits, and is
      refused otherwise. */
  lemma AtoiSignedDigits(sign: string, d: string)
    requires sign == "" || sign == "+" || sign == "-"
    requires |d| > 0 && AllDigits(d)
    ensures var v := if sign == "-" then -(DigitsValue(d) as int) else DigitsValue(d) as int;
            Atoi(sign + d) == if MinInt64 <= v <= MaxInt64 then Some(v) else None
  {
    if sign == "" {
      assert sign + d == d;
      assert IsDigit(d[0]);
    } else {
      assert (sign + d)[0] == sign[0];
      assert (sign + d)[1..] == d;
    }
  }
}
