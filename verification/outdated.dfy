/** The pure part of the outdated-software check: reading and comparing
    dotted version strings, normalising program names, the rune substring
    helper, and keeping the highest version of every program. The lists of
    installed programs, which come from commands, are an input. */
module Outdated {
  import opened Wrappers
  import opened Strings
  import opened Checks
  import Utils

  // ---------------------------------------------------------------------
  // Version components: `fmt.Sscanf(part, "%d", &num)`

  /** The integer `%d` reads at the start of `s`: an optional sign and the
      digits after it. With no digits, or a value that does not fit in 64
      bits, the scan fails and the variable keeps its zero value. */
  function ScanInt(s: string): (n: int)
    ensures MinInt64 <= n <= MaxInt64
  {
    var neg := |s| > 0 && s[0] == '-';
    var rest := if |s| > 0 && (s[0] == '-' || s[0] == '+') then s[1..] else s;
    var digits := LeadingDigits(rest);
    if |digits| == 0 then 0
    else
      var d: int := DigitsValue(digits);
      var v := if neg then -d else d;
      if MinInt64 <= v <= MaxInt64 then v else 0
  }

  /** `%d` reads back every 64-bit integer written in decimal, whatever
      follows it that is not a digit. */
  lemma ScanIntItoa(n: int, t: string)
    requires MinInt64 <= n <= MaxInt64
    requires |t| == 0 || !IsDigit(t[0])
    ensures ScanInt(Itoa(n) + t) == n
  {
    if n < 0 {
      ScanNegative(-n, t);
    } else {
      ScanNatural(n, t);
    }
  }

  lemma ScanNegative(m: nat, t: string)
    requires 0 < m <= -MinInt64
    requires |t| == 0 || !IsDigit(t[0])
    ensures ScanInt("-" + NatToString(m) + t) == -(m as int)
  {
    var d := NatToString(m);
    var s := "-" + d + t;
    DropSign(d, t);
    LeadingDigitsOfDigits(d, t);
    DigitsOfNat(m);
    ScanSigned(s, d);
  }

  lemma ScanNatural(n: nat, t: string)
    requires n <= MaxInt64
    requires |t| == 0 || !IsDigit(t[0])
    ensures ScanInt(NatToString(n) + t) == n
  {
    var d := NatToString(n);
    LeadingDigitsOfDigits(d, t);
    DigitsOfNat(n);
    ScanUnsigned(d + t, d);
  }

  /** `%d` on a minus sign followed by the digits `m`. */
  lemma ScanSigned(s: string, m: string)
    requires |s| > 0 && s[0] == '-' && |m| > 0 && AllDigits(m) && LeadingDigits(s[1..]) == m
    requires -(DigitsValue(m) as int) >= MinInt64
    ensures ScanInt(s) == -(DigitsValue(m) as int)
  {
  }

  /** `%d` on text that starts with the digits `m`. */
  lemma ScanUnsigned(s: string, m: string)
    requires |s| > 0 && IsDigit(s[0]) && |m| > 0 && AllDigits(m) && LeadingDigits(s) == m
    requires DigitsValue(m) <= MaxInt64
    ensures ScanInt(s) == DigitsValue(m)
  {
  }

  /** Every part read with `%d`. */
  function ScanAll(parts: seq<string>): (cs: seq<int>)
    ensures |cs| == |parts|
    ensures forall i :: 0 <= i < |cs| ==> cs[i] == ScanInt(parts[i])
  {
    seq(|parts|, i requires 0 <= i < |parts| => ScanInt(parts[i]))
  }

  /** The numeric components of a dotted version string. */
  function Components(v: string): (cs: seq<int>)
    ensures |cs| == |Split(v, ".")|
  {
    ScanAll(Split(v, "."))
  }

  // ---------------------------------------------------------------------
  // compareVersions

  /** Component `i`, a missing component counting as 0. */
  function At(cs: seq<int>, i: nat): int {
    if i < |cs| then cs[i] else 0
  }

  function Max(a: nat, b: nat): nat {
    if a < b then b else a
  }

  /** Reference definition: components from `i` up to `n` compared left to
      right, the first difference deciding. */
  function CompareUpTo(xs: seq<int>, ys: seq<int>, i: nat, n: nat): (c: int)
    ensures c == -1 || c == 0 || c == 1
    decreases n - i
  {
    if i >= n then 0
    else if At(xs, i) > At(ys, i) then 1
    else if At(xs, i) < At(ys, i) then -1
    else CompareUpTo(xs, ys, i + 1, n)
  }

  function CompareComponents(xs: seq<int>, ys: seq<int>): int {
    CompareUpTo(xs, ys, 0, Max(|xs|, |ys|))
  }

  /** Comparing over more positions than either list has changes nothing:
      the extra components are all 0. */
  lemma {:induction false} CompareBeyondEnd(xs: seq<int>, ys: seq<int>, i: nat, n: nat, m: nat)
    requires Max(|xs|, |ys|) <= n <= m
    ensures CompareUpTo(xs, ys, i, m) == CompareUpTo(xs, ys, i, n)
    decreases m - i
  {
    if i < m {
      CompareBeyondEnd(xs, ys, i + 1, n, m);
    }
  }

  lemma {:induction false} CompareUpToAntisymmetric(xs: seq<int>, ys: seq<int>, i: nat, n: nat)
    ensures CompareUpTo(xs, ys, i, n) == -CompareUpTo(ys, xs, i, n)
    decreases n - i
  {
    if i < n {
      CompareUpToAntisymmetric(xs, ys, i + 1, n);
    }
  }

  lemma {:induction false} CompareUpToTransitive(xs: seq<int>, ys: seq<int>, zs: seq<int>, i: nat, n: nat)
    requires CompareUpTo(xs, ys, i, n) >= 0 && CompareUpTo(ys, zs, i, n) >= 0
    ensures CompareUpTo(xs, zs, i, n) >= 0
    ensures CompareUpTo(xs, ys, i, n) > 0 || CompareUpTo(ys, zs, i, n) > 0 ==> CompareUpTo(xs, zs, i, n) > 0
    decreases n - i
  {
    if i < n && At(xs, i) == At(ys, i) && At(ys, i) == At(zs, i) {
      CompareUpToTransitive(xs, ys, zs, i + 1, n);
    }
  }

  /** `compareVersions`: the versions' components compared left to right,
      missing ones counting as 0. */
  function CompareVersions(v1: string, v2: string): (c: int)
    ensures c == -1 || c == 0 || c == 1
  {
    CompareComponents(Components(v1), Components(v2))
  }

  /** Every version compares equal to itself. */
  lemma {:induction false} CompareReflexive(v: string)
    ensures CompareVersions(v, v) == 0
  {
    var cs := Components(v);
    CompareUpToAntisymmetric(cs, cs, 0, |cs|);
  }

  /** Swapping the arguments negates the result. */
  lemma CompareAntisymmetric(v1: string, v2: string)
    ensures CompareVersions(v1, v2) == -CompareVersions(v2, v1)
  {
    var xs := Components(v1);
    var ys := Components(v2);
    assert Max(|xs|, |ys|) == Max(|ys|, |xs|);
    CompareUpToAntisymmetric(xs, ys, 0, Max(|xs|, |ys|));
  }

  /** "At least as new as" is transitive, and strictly so if either step
      is strict. */
  lemma CompareTransitive(v1: string, v2: string, v3: string)
    requires CompareVersions(v1, v2) >= 0 && CompareVersions(v2, v3) >= 0
    ensures CompareVersions(v1, v3) >= 0
    ensures CompareVersions(v1, v2) > 0 || CompareVersions(v2, v3) > 0 ==> CompareVersions(v1, v3) > 0
  {
    var xs, ys, zs := Components(v1), Components(v2), Components(v3);
    var n := Max(Max(|xs|, |ys|), |zs|);
    CompareBeyondEnd(xs, ys, 0, Max(|xs|, |ys|), n);
    CompareBeyondEnd(ys, zs, 0, Max(|ys|, |zs|), n);
    CompareBeyondEnd(xs, zs, 0, Max(|xs|, |zs|), n);
    CompareUpToTransitive(xs, ys, zs, 0, n);
  }

  /** Trailing zero components do not matter: "1.2" and "1.2.0" are equal. */
  lemma TrailingZeroIgnored()
    ensures CompareVersions("1.2", "1.2.0") == 0
  {
    ComponentsOneTwo();
    ComponentsOneTwoZero();
    var xs, ys := [1, 2], [1, 2, 0];
    assert CompareUpTo(xs, ys, 2, 3) == 0;
    assert CompareUpTo(xs, ys, 1, 3) == 0;
    assert CompareUpTo(xs, ys, 0, 3) == 0;
  }

  lemma ComponentsOneTwo()
    ensures Components("1.2") == [1, 2]
  {
    SplitOneTwo();
    ScanDigit(1);
    ScanDigit(2);
  }

  lemma SplitOneTwo()
    ensures Split("1.2", ".") == ["1", "2"]
  {
    SplitTwoParts('1', '2');
  }

  lemma ComponentsOneTwoZero()
    ensures Components("1.2.0") == [1, 2, 0]
  {
    SplitOneTwoZero();
    ScanOneTwoZero();
  }

  lemma ScanOneTwoZero()
    ensures ScanAll(["1", "2", "0"]) == [1, 2, 0]
  {
    ScanDigit(1);
    ScanDigit(2);
    ScanDigit(0);
  }

  lemma SplitOneTwoZero()
    ensures Split("1.2.0", ".") == ["1", "2", "0"]
  {
    SplitThreeParts('1', '2', '0');
  }

  /** Splitting `a.b.c` of single non-dot characters. */
  lemma SplitThreeParts(a: char, b: char, c: char)
    requires a != '.' && b != '.' && c != '.'
    ensures Split([a, '.', b, '.', c], ".") == [[a], [b], [c]]
  {
    SplitTwoParts(b, c);
    SplitOnDot([a], [b, '.', c]);
    assert [a] + "." + [b, '.', c] == [a, '.', b, '.', c];
  }

  /** Splitting `a.b` of single non-dot characters. */
  lemma SplitTwoParts(a: char, b: char)
    requires a != '.' && b != '.'
    ensures Split([a, '.', b], ".") == [[a], [b]]
  {
    SplitNoDot(b);
    SplitOnDot([a], [b]);
    assert [a] + "." + [b] == [a, '.', b];
  }

  lemma ScanDigit(d: nat)
    requires d < 10
    ensures ScanInt([DigitChar(d)]) == d
  {
    ScanIntItoa(d, "");
    assert Itoa(d) + "" == [DigitChar(d)];
  }

  /** Splitting `a.b` on "." when `a` has no dot. */
  lemma SplitOnDot(a: string, b: string)
    requires forall i :: 0 <= i < |a| ==> a[i] != '.'
    ensures Split(a + "." + b, ".") == [a] + Split(b, ".")
  {
    var s := a + "." + b;
    assert "." <= s[|a|..];
    forall j | 0 <= j < |a| && j <= |s|
      ensures !("." <= s[j..])
    {
      assert s[j..][0] == a[j];
    }
    IndexOfAt(s, ".", |a|);
    assert s[..|a|] == a;
    assert s[|a| + 1..] == b;
  }

  /** The leftmost match is where `IndexOf` finds it. */
  lemma IndexOfAt(s: string, sep: string, k: nat)
    requires k + |sep| <= |s| && sep <= s[k..] && NoMatchBefore(s, sep, k)
    ensures IndexOf(s, sep) == Some(k)
  {
  }

  /** A one-character string other than "." is one part. */
  lemma SplitNoDot(c: char)
    requires c != '.'
    ensures Split([c], ".") == [[c]]
  {
    assert "."[0] == '.';
    assert !("." <= [c]);
    assert [c][1..] == "";
    assert IndexOf([c], ".") == None;
  }

  /** Appending zero components never changes a comparison. */
  lemma {:induction false} ZeroPadding(xs: seq<int>, ys: seq<int>, k: nat)
    ensures CompareComponents(xs + seq(k, _ => 0), ys) == CompareComponents(xs, ys)
  {
    var xs' := xs + seq(k, _ => 0);
    var n := Max(|xs'|, |ys|);
    assert forall i: nat :: At(xs', i) == At(xs, i);
    SameAtSameCompare(xs', xs, ys, 0, n);
    CompareBeyondEnd(xs, ys, 0, Max(|xs|, |ys|), n);
  }

  lemma {:induction false} SameAtSameCompare(xs: seq<int>, xs': seq<int>, ys: seq<int>, i: nat, n: nat)
    requires forall j: nat :: At(xs, j) == At(xs', j)
    ensures CompareUpTo(xs, ys, i, n) == CompareUpTo(xs', ys, i, n)
    decreases n - i
  {
    if i < n {
      SameAtSameCompare(xs, xs', ys, i + 1, n);
    }
  }

  /** The loop of `compareVersions`, with its early returns. */
  method CompareVersionsLoop(v1: string, v2: string) returns (c: int)
    ensures c == CompareVersions(v1, v2)
    ensures c == -1 || c == 0 || c == 1
  {
    var parts1 := Split(v1, ".");
    var parts2 := Split(v2, ".");
    CompareVersionsOfParts(v1, v2);
    c := CompareParts(parts1, parts2);
  }

  /** The loop over the parts: the first component pair that differs
      decides, a missing part counting as 0. */
  method CompareParts(parts1: seq<string>, parts2: seq<string>) returns (c: int)
    ensures c == CompareUpTo(ScanAll(parts1), ScanAll(parts2), 0, if |parts2| > |parts1| then |parts2| else |parts1|)
  {
    var maxLen := |parts1|;
    if |parts2| > maxLen {
      maxLen := |parts2|;
    }
    ghost var xs := ScanAll(parts1);
    ghost var ys := ScanAll(parts2);
    ghost var goal := CompareUpTo(xs, ys, 0, maxLen);
    var i := 0;
    while i < maxLen
      invariant 0 <= i <= maxLen
      invariant goal == CompareUpTo(xs, ys, i, maxLen)
    {
      var num1 := ReadComponent(parts1, i);
      var num2 := ReadComponent(parts2, i);
      CompareStep(xs, ys, i, maxLen);
      if num1 > num2 {
        assert goal == 1;
        return 1;
      } else if num1 < num2 {
        assert goal == -1;
        return -1;
      }
      i := i + 1;
    }
    assert goal == 0;
    return 0;
  }

  /** A version comparison compares the parts' components, up to the
      longer part count. */
  lemma CompareVersionsOfParts(v1: string, v2: string)
    ensures var parts1 := Split(v1, "."); var parts2 := Split(v2, ".");
      CompareVersions(v1, v2)
        == CompareUpTo(ScanAll(parts1), ScanAll(parts2), 0, if |parts2| > |parts1| then |parts2| else |parts1|)
  {
  }

  /** One component as the loop reads it: the part at `i` read with `%d`,
      and 0 (the variable's zero value) past the last part. */
  method ReadComponent(parts: seq<string>, i: nat) returns (num: int)
    ensures num == At(ScanAll(parts), i)
  {
    num := 0;
    if i < |parts| {
      num := ScanInt(parts[i]);
    }
  }

  /** One step of the comparison: the components at `i` decide, or the
      comparison moves on to `i + 1`. */
  lemma CompareStep(xs: seq<int>, ys: seq<int>, i: nat, n: nat)
    requires i < n
    ensures At(xs, i) > At(ys, i) ==> CompareUpTo(xs, ys, i, n) == 1
    ensures At(xs, i) < At(ys, i) ==> CompareUpTo(xs, ys, i, n) == -1
    ensures At(xs, i) == At(ys, i) ==> CompareUpTo(xs, ys, i, n) == CompareUpTo(xs, ys, i + 1, n)
  {
  }

  // ---------------------------------------------------------------------
  // normalize

  /** The characters `normalize` keeps: letters, digits and white space
      (letters and digits restricted to ASCII here). */
  predicate Kept(c: char) {
    ('a' <= c <= 'z') || ('A' <= c <= 'Z') || ('0' <= c <= '9') || IsSpace(c)
  }

  function Filter(s: string): (r: string)
    ensures |r| <= |s|
    ensures forall i :: 0 <= i < |r| ==> Kept(r[i])
    ensures (forall i :: 0 <= i < |s| ==> !IsUpper(s[i])) ==> forall i :: 0 <= i < |r| ==> !IsUpper(r[i])
  {
    if |s| == 0 then ""
    else if Kept(s[0]) then [s[0]] + Filter(s[1..])
    else Filter(s[1..])
  }

  lemma {:induction false} FilterOfKept(s: string)
    requires forall i :: 0 <= i < |s| ==> Kept(s[i])
    ensures Filter(s) == s
  {
    if |s| > 0 {
      FilterOfKept(s[1..]);
    }
  }

  /** A normalised name: lower case, only letters, digits and white space,
      no white space at either end. */
  predicate Normalized(s: string) {
    && (forall i :: 0 <= i < |s| ==> Kept(s[i]) && !IsUpper(s[i]))
    && Trimmed(s)
  }

  /** `normalize`: lower-case, drop everything but letters, digits and
      white space, and trim. */
  function Normalize(name: string): (r: string)
    ensures Normalized(r)
  {
    var cleaned := Filter(ToLower(name));
    var trimmed := TrimSpace(cleaned);
    var k := TrimStart(cleaned);
    TrimSpaceIsSlice(cleaned);
    CleanSlice(cleaned, k, k + |trimmed|, trimmed);
    trimmed
  }

  /** A slice of a cleaned string is clean. */
  lemma CleanSlice(s: string, a: nat, b: nat, t: string)
    requires a <= b <= |s| && t == s[a..b]
    requires forall i :: 0 <= i < |s| ==> Kept(s[i]) && !IsUpper(s[i])
    ensures forall i :: 0 <= i < |t| ==> Kept(t[i]) && !IsUpper(t[i])
  {
    forall i | 0 <= i < |t|
      ensures Kept(t[i]) && !IsUpper(t[i])
    {
      assert t[i] == s[a + i];
    }
  }

  lemma TrimSpaceOfTrimmed(s: string)
    requires Trimmed(s)
    ensures TrimSpace(s) == s
  {
    if |s| > 0 {
      TrimSpaceOfPadded("", s, "");
      assert "" + s + "" == s;
    }
  }

  /** Normalising a normalised name changes nothing. */
  lemma NormalizeIdempotent(name: string)
    ensures Normalize(Normalize(name)) == Normalize(name)
  {
    NormalizeOfNormalized(Normalize(name));
  }

  /** A normalised name is its own normal form. */
  lemma NormalizeOfNormalized(s: string)
    requires Normalized(s)
    ensures Normalize(s) == s
  {
    ToLowerOfLower(s);
    FilterOfKept(s);
    TrimSpaceOfTrimmed(s);
  }

  lemma ToLowerOfLower(s: string)
    requires forall i :: 0 <= i < |s| ==> !IsUpper(s[i])
    ensures ToLower(s) == s
  {
    var l := ToLower(s);
    assert forall i :: 0 <= i < |s| ==> l[i] == s[i];
  }

  // ---------------------------------------------------------------------
  // substr

  /** `substr`: at most `length` runes from position `start`, and "" when
      `start` is past the end. A negative `start` or `length` within the
      string makes the slice panic, hence the precondition. */
  function Substr(input: string, start: int, length: int): (r: string)
    requires start >= |input| || (0 <= start && 0 <= length)
    ensures start >= |input| ==> r == ""
    ensures start < |input| ==> |r| == (if start + length > |input| then |input| - start else length)
    ensures start < |input| ==> r <= input[start..]
  {
    if start >= |input| then ""
    else
      var len := if start + length > |input| then |input| - start else length;
      input[start..start + len]
  }

  /** Two adjacent substrings make up the longer one. */
  lemma SubstrAdjacent(input: string, start: nat, n: nat, m: nat)
    requires start + n <= |input|
    ensures Substr(input, start, n) + Substr(input, start + n, m) == Substr(input, start, n + m)
  {
    if start < |input| && start + n < |input| {
      var k := if start + n + m > |input| then |input| - start - n else m;
      assert input[start..start + n] + input[start + n..start + n + k] == input[start..start + n + k];
    }
  }

  // ---------------------------------------------------------------------
  // combineSoftwareList and the selection loop

  datatype Software = Software(name: string, version: string)

  /** `combineSoftwareList`: despite its comment it combines nothing; the
      list comes back unchanged, with no error. */
  function CombineSoftwareList(softwareList: seq<Software>): (r: (seq<Software>, Option<string>))
    ensures r.0 == softwareList && r.1.None?
  {
    (softwareList, None)
  }

  /** The entries the selection considers: a name and a version, and not
      Microsoft Defender. */
  predicate Eligible(sw: Software) {
    sw.name != "" && sw.version != "" && !Contains(ToLower(sw.name), "microsoft defender")
  }

  /** A three-way comparison of version strings. */
  type Comparison = (string, string) -> int

  /** A three-way comparison that orders all versions consistently. */
  ghost predicate TotalPreorder(cmp: Comparison) {
    && (forall a :: cmp(a, a) == 0)
    && (forall a, b :: cmp(a, b) == -cmp(b, a))
    && (forall a, b, c :: cmp(a, b) >= 0 && cmp(b, c) >= 0 ==>
          cmp(a, c) >= 0 && (cmp(a, b) > 0 || cmp(b, c) > 0 ==> cmp(a, c) > 0))
  }

  /** The map key an entry is filed under, if the selection considers it:
      its normalised name. */
  function KeyOf(sw: Software): Option<string> {
    if Eligible(sw) then Some(Normalize(sw.name)) else None
  }

  /** An entry together with its key, as the loop computes it. */
  datatype Entry = Entry(key: Option<string>, sw: Software)

  function Entries(list: seq<Software>): (es: seq<Entry>)
    ensures |es| == |list|
    ensures forall i :: 0 <= i < |list| ==> es[i] == Entry(KeyOf(list[i]), list[i])
  {
    seq(|list|, i requires 0 <= i < |list| => Entry(KeyOf(list[i]), list[i]))
  }

  /** One step of the selection loop: a new key is added, a known one is
      replaced only by a strictly newer version. */
  function Step(m: map<string, Software>, e: Entry, cmp: Comparison): map<string, Software> {
    match e.key
    case None => m
    case Some(k) =>
      if k in m && cmp(e.sw.version, m[k].version) <= 0 then m else m[k := e.sw]
  }

  /** The selection over keyed entries, in list order. */
  function SelectEntries(es: seq<Entry>, cmp: Comparison): map<string, Software>
    decreases |es|
  {
    if |es| == 0 then map[] else Step(SelectEntries(es[..|es| - 1], cmp), es[|es| - 1], cmp)
  }

  /** The selection loop over the whole list. */
  function Select(list: seq<Software>): map<string, Software> {
    SelectEntries(Entries(list), CompareVersions)
  }

  /** Entry `j` has key `key`. */
  predicate Matches(es: seq<Entry>, key: string, j: int) {
    0 <= j < |es| && es[j].key == Some(key)
  }

  /** What the selection keeps for `key`: an entry with that key whose
      version is at least every other such entry's, and strictly newer than
      every such entry before it. */
  ghost predicate KeptFor(es: seq<Entry>, key: string, i: int, cmp: Comparison) {
    && Matches(es, key, i)
    && (forall j :: Matches(es, key, j) ==> cmp(es[j].sw.version, es[i].sw.version) <= 0)
    && (forall j :: 0 <= j < i && Matches(es, key, j) ==> cmp(es[j].sw.version, es[i].sw.version) < 0)
  }

  /** A step adds the entry's key, if it has one, and no other. */
  lemma StepKeys(m: map<string, Software>, e: Entry, cmp: Comparison)
    ensures forall key :: key in Step(m, e, cmp) <==> key in m || e.key == Some(key)
  {
  }

  /** The selection has exactly the keys of the entries. */
  lemma {:induction false} SelectEntriesKeys(es: seq<Entry>, cmp: Comparison)
    ensures forall key :: key in SelectEntries(es, cmp) <==> exists i :: Matches(es, key, i)
    decreases |es|
  {
    if |es| > 0 {
      var n := |es| - 1;
      var p := es[..n];
      SelectEntriesKeys(p, cmp);
      StepKeys(SelectEntries(p, cmp), es[n], cmp);
      forall key
        ensures key in SelectEntries(es, cmp) <==> exists i :: Matches(es, key, i)
      {
        if key in SelectEntries(p, cmp) {
          var i :| Matches(p, key, i);
          assert Matches(es, key, i);
        }
        if es[n].key == Some(key) {
          assert Matches(es, key, n);
        }
        if exists i :: Matches(es, key, i) {
          var i :| Matches(es, key, i);
          if i < n {
            assert Matches(p, key, i);
          }
        }
      }
    }
  }

  /** The first entry with a new key is kept. */
  lemma KeptFirst(es: seq<Entry>, key: string, cmp: Comparison)
    requires TotalPreorder(cmp)
    requires |es| > 0 && Matches(es, key, |es| - 1)
    requires forall j :: 0 <= j < |es| - 1 ==> es[j].key != Some(key)
    ensures KeptFor(es, key, |es| - 1, cmp)
  {
    var v := es[|es| - 1].sw.version;
    assert cmp(v, v) == 0;
  }

  /** A strictly newer entry replaces the kept one. */
  lemma KeptReplaced(es: seq<Entry>, key: string, i: int, cmp: Comparison)
    requires TotalPreorder(cmp)
    requires |es| > 0 && Matches(es, key, |es| - 1)
    requires KeptFor(es[..|es| - 1], key, i, cmp)
    requires cmp(es[|es| - 1].sw.version, es[i].sw.version) > 0
    ensures KeptFor(es, key, |es| - 1, cmp)
  {
    var n := |es| - 1;
    var p := es[..n];
    var v := es[n].sw.version;
    var w := es[i].sw.version;
    forall j | 0 <= j < n && Matches(es, key, j)
      ensures cmp(es[j].sw.version, v) < 0
    {
      var u := es[j].sw.version;
      assert Matches(p, key, j);
      assert cmp(w, u) == -cmp(u, w);
      assert cmp(v, w) >= 0 && cmp(w, u) >= 0;
      assert cmp(v, u) > 0;
      assert cmp(u, v) == -cmp(v, u);
    }
    assert cmp(v, v) == 0;
  }

  /** An entry that is not strictly newer, or has another key, leaves the
      kept one in place. */
  lemma KeptStays(es: seq<Entry>, key: string, i: int, cmp: Comparison)
    requires |es| > 0 && KeptFor(es[..|es| - 1], key, i, cmp)
    requires Matches(es, key, |es| - 1) ==> cmp(es[|es| - 1].sw.version, es[i].sw.version) <= 0
    ensures KeptFor(es, key, i, cmp)
  {
    var n := |es| - 1;
    forall j | Matches(es, key, j)
      ensures cmp(es[j].sw.version, es[i].sw.version) <= 0
    {
      if j < n {
        assert Matches(es[..n], key, j);
      }
    }
    forall j | 0 <= j < i && Matches(es, key, j)
      ensures cmp(es[j].sw.version, es[i].sw.version) < 0
    {
      assert Matches(es[..n], key, j);
    }
  }

  /** One step of the loop keeps the first of the newest entries for
      `key`, given that the loop so far did. */
  lemma KeptStep(es: seq<Entry>, key: string, cmp: Comparison)
    requires TotalPreorder(cmp) && |es| > 0
    requires var p := es[..|es| - 1];
      && (key in SelectEntries(p, cmp) <==> exists i :: Matches(p, key, i))
      && (key in SelectEntries(p, cmp) ==> exists i :: KeptFor(p, key, i, cmp) && SelectEntries(p, cmp)[key] == p[i].sw)
    requires key in SelectEntries(es, cmp)
    ensures exists i :: KeptFor(es, key, i, cmp) && SelectEntries(es, cmp)[key] == es[i].sw
  {
    var n := |es| - 1;
    var p := es[..n];
    var e := es[n];
    var m := SelectEntries(p, cmp);
    assert SelectEntries(es, cmp) == Step(m, e, cmp);
    if key in m {
      var i :| KeptFor(p, key, i, cmp) && m[key] == p[i].sw;
      assert p[i] == es[i];
      if Matches(es, key, n) && cmp(e.sw.version, es[i].sw.version) > 0 {
        KeptReplaced(es, key, i, cmp);
        assert SelectEntries(es, cmp)[key] == es[n].sw;
      } else {
        KeptStays(es, key, i, cmp);
        assert SelectEntries(es, cmp)[key] == es[i].sw;
      }
    } else {
      assert Matches(es, key, n);
      forall j | 0 <= j < n
        ensures es[j].key != Some(key)
      {
        assert p[j] == es[j];
        assert !Matches(p, key, j);
      }
      KeptFirst(es, key, cmp);
      assert SelectEntries(es, cmp)[key] == es[n].sw;
    }
  }

  /** For every key, the selection holds the first of the newest entries
      with that key. */
  lemma {:induction false} SelectEntriesKept(es: seq<Entry>, cmp: Comparison)
    requires TotalPreorder(cmp)
    ensures forall key :: key in SelectEntries(es, cmp) ==>
      exists i :: KeptFor(es, key, i, cmp) && SelectEntries(es, cmp)[key] == es[i].sw
    decreases |es|
  {
    if |es| > 0 {
      var p := es[..|es| - 1];
      SelectEntriesKept(p, cmp);
      SelectEntriesKeys(p, cmp);
      forall key | key in SelectEntries(es, cmp)
        ensures exists i :: KeptFor(es, key, i, cmp) && SelectEntries(es, cmp)[key] == es[i].sw
      {
        KeptStep(es, key, cmp);
      }
    }
  }

  /** Version comparison is a total preorder. */
  lemma CompareVersionsPreorder()
    ensures TotalPreorder(CompareVersions)
  {
    forall a
      ensures CompareVersions(a, a) == 0
    {
      CompareReflexive(a);
    }
    forall a, b
      ensures CompareVersions(a, b) == -CompareVersions(b, a)
    {
      CompareAntisymmetric(a, b);
    }
    forall a, b, c | CompareVersions(a, b) >= 0 && CompareVersions(b, c) >= 0
      ensures CompareVersions(a, c) >= 0
      ensures CompareVersions(a, b) > 0 || CompareVersions(b, c) > 0 ==> CompareVersions(a, c) > 0
    {
      CompareTransitive(a, b, c);
    }
  }

  /** The selection keeps exactly one entry per normalised name of the
      eligible entries; that entry has such a name, carries a version at
      least as new as every other entry of that name, and is the first
      entry with that version. */
  lemma SelectCorrect(list: seq<Software>)
    ensures forall key :: key in Select(list) <==>
      exists i :: 0 <= i < |list| && Eligible(list[i]) && Normalize(list[i].name) == key
    ensures forall key :: key in Select(list) ==>
      exists i :: KeptFor(Entries(list), key, i, CompareVersions) && Select(list)[key] == list[i]
  {
    var es := Entries(list);
    CompareVersionsPreorder();
    SelectEntriesKeys(es, CompareVersions);
    SelectEntriesKept(es, CompareVersions);
    forall key
      ensures key in Select(list) <==>
        exists i :: 0 <= i < |list| && Eligible(list[i]) && Normalize(list[i].name) == key
    {
      if key in Select(list) {
        var i :| Matches(es, key, i);
        assert Eligible(list[i]) && Normalize(list[i].name) == key;
      }
      if exists i :: 0 <= i < |list| && Eligible(list[i]) && Normalize(list[i].name) == key {
        var i :| 0 <= i < |list| && Eligible(list[i]) && Normalize(list[i].name) == key;
        assert Matches(es, key, i);
      }
    }
  }

  /** How one kept entry is rendered. */
  function Render(sw: Software): string {
    sw.name + " | " + sw.version
  }

  /** The result of the outdated-software check. The selection map is
      listed in Go's map iteration order, which is unspecified: `order` is
      that order, one enumeration of the keys. */
  function OutdatedSoftwareResult(id: int, softwareList: seq<Software>, order: seq<string>): (c: Check)
    requires Utils.NoDups(order)
    requires forall k :: k in order <==> k in Select(softwareList)
    ensures c.issueId == id && c.resultId == id && c.error.None?
    ensures |c.result| == |Select(softwareList)|
    ensures forall k :: k in Select(softwareList) ==> Render(Select(softwareList)[k]) in c.result
    ensures forall line :: line in c.result ==> exists k :: k in Select(softwareList) && line == Render(Select(softwareList)[k])
  {
    var m := Select(softwareList);
    var lines := RenderedLines(m, order);
    KeysCount(order, m);
    LinesCover(m, order, lines);
    NewCheckResult(id, id, lines)
  }

  /** One line per key of `order`, in that order. */
  function RenderedLines(m: map<string, Software>, order: seq<string>): (lines: seq<string>)
    requires forall k :: k in order ==> k in m
    ensures |lines| == |order|
    ensures forall i :: 0 <= i < |order| ==> lines[i] == Render(m[order[i]])
  {
    seq(|order|, i requires 0 <= i < |order| => Render(m[order[i]]))
  }

  /** Rendering an enumeration of the keys renders exactly the map's entries. */
  lemma LinesCover(m: map<string, Software>, order: seq<string>, lines: seq<string>)
    requires forall k :: k in order <==> k in m
    requires |lines| == |order|
    requires forall i :: 0 <= i < |order| ==> lines[i] == Render(m[order[i]])
    ensures forall k :: k in m ==> Render(m[k]) in lines
    ensures forall line :: line in lines ==> exists k :: k in m && line == Render(m[k])
  {
    forall k | k in m
      ensures Render(m[k]) in lines
    {
      var i :| 0 <= i < |order| && order[i] == k;
      assert lines[i] == Render(m[k]);
    }
    forall line | line in lines
      ensures exists k :: k in m && line == Render(m[k])
    {
      var i :| 0 <= i < |lines| && lines[i] == line;
      assert order[i] in m && line == Render(m[order[i]]);
    }
  }

  /** A duplicate-free enumeration of a map's keys is as long as the map. */
  lemma KeysCount(order: seq<string>, m: map<string, Software>)
    requires Utils.NoDups(order)
    requires forall k :: k in order <==> k in m
    ensures |order| == |m|
  {
    var s := set k | k in order;
    assert s == m.Keys;
    NoDupsCard(order);
  }

  lemma {:induction false} NoDupsCard(order: seq<string>)
    requires Utils.NoDups(order)
    ensures |set k | k in order| == |order|
    decreases |order|
  {
    if |order| > 0 {
      var t := order[1..];
      NoDupsCard(t);
      assert (set k | k in order) == (set k | k in t) + {order[0]};
      assert order[0] !in t;
    }
  }
}
