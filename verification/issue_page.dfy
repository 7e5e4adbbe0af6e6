/** The logic of the issue page (`issue.js`): the solution-step counter,
    picking a solution text and a screenshot for the detected Windows
    version, finding a result id, the three result tables built from a
    check's findings, and the risk indicator shown next to the issue name.
    The page's DOM, the session storage and the image directory lookup are
    parameters; what is shown is returned as a value. */
module IssuePage {
  import opened Wrappers
  import opened Strings
  import Utils

  // ---------------------------------------------------------------------
  // Solution steps: `nextSolutionStep`, `previousSolutionStep`

  /** The counter points at a step of a guide with `steps` steps (step 0
      when the guide is empty). */
  predicate InRange(counter: int, steps: nat) {
    0 <= counter && (counter < steps || counter == 0)
  }

  /** One step forward, unless the counter is at the last step or beyond. */
  function NextStep(counter: int, steps: nat): (c: int)
    ensures counter <= c <= counter + 1
    ensures c == counter + 1 <==> counter < steps - 1
    ensures InRange(counter, steps) ==> InRange(c, steps)
  {
    if counter < steps - 1 then counter + 1 else counter
  }

  /** One step back, unless the counter is at the first step or before. */
  function PreviousStep(counter: int): (c: int)
    ensures counter - 1 <= c <= counter
    ensures c == counter - 1 <==> counter > 0
    ensures 0 <= counter ==> 0 <= c
  {
    if counter > 0 then counter - 1 else counter
  }

  /** Stepping back undoes a step forward, and stepping forward undoes a
      step back. */
  lemma StepsUndo(counter: int, steps: nat)
    requires 0 <= counter
    ensures NextStep(counter, steps) != counter ==> PreviousStep(NextStep(counter, steps)) == counter
    ensures PreviousStep(counter) != counter && counter < steps ==> NextStep(PreviousStep(counter), steps) == counter
  {
  }

  /** `k` clicks on the next button. */
  function NextTimes(counter: int, steps: nat, k: nat): int
    decreases k
  {
    if k == 0 then counter else NextStep(NextTimes(counter, steps, k - 1), steps)
  }

  /** From the first step, `k` clicks on the next button reach step `k`,
      or the last step when the guide is shorter: clicking past the end
      stays there. */
  lemma {:induction false} NextTimesFromStart(steps: nat, k: nat)
    ensures NextTimes(0, steps, k) == if steps == 0 then 0 else if k < steps then k else steps - 1
    decreases k
  {
    if k > 0 {
      NextTimesFromStart(steps, k - 1);
    }
  }

  // ---------------------------------------------------------------------
  // Solutions and screenshots for the detected Windows version

  /** The fields of a catalogue issue the solution guide reads. The
      Windows 10 lists are optional in the catalogue. */
  datatype IssueGuide = IssueGuide(
    solution: seq<string>,
    solutionWindows10: Option<seq<string>>,
    screenshots: seq<string>,
    screenshotsWindows10: Option<seq<string>>)

  /** `xs[index]` in JavaScript: `None` stands for `undefined` when the
      index is outside the array. */
  function At(xs: seq<string>, index: int): (r: Option<string>)
    ensures r.Some? <==> 0 <= index < |xs|
    ensures r.Some? ==> r.value == xs[index]
  {
    if 0 <= index < |xs| then Some(xs[index]) else None
  }

  /** `getVersionSolution` as written: the Windows 10 list, when the issue
      has one, replaces the solution without the fall-back to the empty
      text, so an index past its end gives `undefined` (`None`). The stored
      Windows version is given as the text the session storage holds. */
  function GetVersionSolutionAsWritten(issue: IssueGuide, index: int, windowsVersion: string): (r: Option<string>)
    ensures windowsVersion == "10" && issue.solutionWindows10.Some? ==> r == At(issue.solutionWindows10.value, index)
    ensures !(windowsVersion == "10" && issue.solutionWindows10.Some?) ==> r == Some(At(issue.solution, index).GetOr(""))
  {
    var solution := At(issue.solution, index).GetOr("");
    if windowsVersion == "10" && issue.solutionWindows10.Some? then At(issue.solutionWindows10.value, index)
    else Some(solution)
  }

  /** A guide whose Windows 10 list is shorter than its general list shows
      `undefined` at the last step on Windows 10. */
  lemma ShortWindows10SolutionUndefined()
    ensures GetVersionSolutionAsWritten(IssueGuide(["Open settings"], Some([]), [], None), 0, "10") == None
  {
  }

  /** `getVersionSolution` with the fall-back the function applies to the
      general list applied to the Windows 10 list too: the step's text from
      the list for the detected version, or the empty text when that list
      has no such step. */
  function GetVersionSolution(issue: IssueGuide, index: int, windowsVersion: string): (r: string)
    ensures windowsVersion == "10" && issue.solutionWindows10.Some? ==>
      r == (if 0 <= index < |issue.solutionWindows10.value| then issue.solutionWindows10.value[index] else "")
    ensures !(windowsVersion == "10" && issue.solutionWindows10.Some?) ==>
      r == (if 0 <= index < |issue.solution| then issue.solution[index] else "")
  {
    if windowsVersion == "10" && issue.solutionWindows10.Some? then At(issue.solutionWindows10.value, index).GetOr("")
    else At(issue.solution, index).GetOr("")
  }

  /** The corrected function is always defined and agrees with the written
      one wherever that one is. */
  lemma VersionSolutionAgrees(issue: IssueGuide, index: int, windowsVersion: string)
    ensures GetVersionSolutionAsWritten(issue, index, windowsVersion).Some? ==>
      GetVersionSolutionAsWritten(issue, index, windowsVersion).value == GetVersionSolution(issue, index, windowsVersion)
    ensures GetVersionSolutionAsWritten(issue, index, windowsVersion).None? ==>
      GetVersionSolution(issue, index, windowsVersion) == ""
  {
  }

  /** The Windows 10 solutions matter only on Windows 10. */
  lemma SolutionIgnoresWindows10ListElsewhere(issue: IssueGuide, index: int, windowsVersion: string)
    requires windowsVersion != "10"
    ensures GetVersionSolution(issue, index, windowsVersion)
         == GetVersionSolution(issue.(solutionWindows10 := None), index, windowsVersion)
  {
  }

  /** The image sub-directory for the stored Windows version. */
  function VersionDirectory(windowsVersion: string): string {
    "windows-" + windowsVersion + "/"
  }

  /** The directory is the Windows 10 one exactly for version "10". */
  lemma VersionDirectoryTen(windowsVersion: string)
    ensures VersionDirectory(windowsVersion) == "windows-10/" <==> windowsVersion == "10"
  {
    var d := VersionDirectory(windowsVersion);
    if d == "windows-10/" {
      assert |windowsVersion| == 2;
      assert windowsVersion == d[8..10];
    }
  }

  /** `getVersionScreenshot`: the screenshot at `index` from the Windows 10
      list when the version is "10" and the issue has one, from the general
      list otherwise; the empty path when that list has no such entry, and
      otherwise the image directory, the version directory and the file. */
  function GetVersionScreenshot(issue: IssueGuide, index: int, imagesDirectory: string, windowsVersion: string)
    : (r: string)
    ensures var list := if windowsVersion == "10" && issue.screenshotsWindows10.Some?
                        then issue.screenshotsWindows10.value else issue.screenshots;
      && (!(0 <= index < |list|) ==> r == "")
      && (0 <= index < |list| ==> r == imagesDirectory + "windows-" + windowsVersion + "/" + list[index])
  {
    VersionDirectoryTen(windowsVersion);
    var version := VersionDirectory(windowsVersion);
    var screenshot :=
      if version == "windows-10/" && issue.screenshotsWindows10.Some? then At(issue.screenshotsWindows10.value, index)
      else At(issue.screenshots, index);
    if screenshot.None? then "" else imagesDirectory + version + screenshot.value
  }

  /** The Windows 10 screenshots matter only on Windows 10. */
  lemma ScreenshotIgnoresWindows10ListElsewhere(issue: IssueGuide, index: int, dir: string, windowsVersion: string)
    requires windowsVersion != "10"
    ensures GetVersionScreenshot(issue, index, dir, windowsVersion)
         == GetVersionScreenshot(issue.(screenshotsWindows10 := None), index, dir, windowsVersion)
  {
  }

  // ---------------------------------------------------------------------
  // `findResultId`

  /** A hexadecimal digit, in either case. */
  predicate IsHexDigit(c: char) {
    IsDigit(c) || 'a' <= c <= 'f' || 'A' <= c <= 'F'
  }

  function HexDigitValue(c: char): (d: nat)
    requires IsHexDigit(c)
    ensures d < 16
    ensures IsDigit(c) ==> d == DigitValue(c)
  {
    if IsDigit(c) then DigitValue(c)
    else if 'a' <= c <= 'f' then c as int - 'a' as int + 10
    else c as int - 'A' as int + 10
  }

  predicate AllHexDigits(s: string) {
    forall i :: 0 <= i < |s| ==> IsHexDigit(s[i])
  }

  /** The longest prefix of `s` made of hexadecimal digits. */
  function LeadingHexDigits(s: string): (r: string)
    ensures r <= s && AllHexDigits(r)
    ensures |r| < |s| ==> !IsHexDigit(s[|r|])
  {
    if |s| == 0 || !IsHexDigit(s[0]) then "" else [s[0]] + LeadingHexDigits(s[1..])
  }

  lemma {:induction false} LeadingHexDigitsOfDigits(s: string, t: string)
    requires AllHexDigits(s) && (|t| == 0 || !IsHexDigit(t[0]))
    ensures LeadingHexDigits(s + t) == s
  {
    if |s| > 0 {
      assert (s + t)[1..] == s[1..] + t;
      LeadingHexDigitsOfDigits(s[1..], t);
    } else {
      assert s + t == t;
    }
  }

  function HexDigitsValue(s: string): nat
    requires AllHexDigits(s)
  {
    if |s| == 0 then 0 else HexDigitsValue(s[..|s| - 1]) * 16 + HexDigitValue(s[|s| - 1])
  }

  /** Text that `parseInt` without a radix reads in base 16: "0x" or "0X". */
  predicate HexPrefixed(s: string) {
    |s| >= 2 && s[0] == '0' && (s[1] == 'x' || s[1] == 'X')
  }

  /** The value of an optional sign followed by a number at the start of
      `s`: hexadecimal digits after a "0x" or "0X" mark, decimal digits
      otherwise; `None` when no digit follows the sign or the mark. */
  function ParseSigned(s: string): (r: Option<int>)
  {
    var neg := |s| > 0 && s[0] == '-';
    var rest := if |s| > 0 && (s[0] == '-' || s[0] == '+') then s[1..] else s;
    if HexPrefixed(rest) then
      var digits := LeadingHexDigits(rest[2..]);
      if |digits| == 0 then None
      else
        var d: int := HexDigitsValue(digits);
        Some(if neg then -d else d)
    else
      var digits := LeadingDigits(rest);
      if |digits| == 0 then None
      else
        var d: int := DigitsValue(digits);
        Some(if neg then -d else d)
  }

  /** JavaScript `parseInt` without a radix: leading white space skipped,
      an optional sign, then the longest run of hexadecimal digits after a
      "0x" or "0X" mark, or else the longest run of decimal digits; `None`
      stands for `NaN` when there is no digit. */
  function ParseInt(s: string): (r: Option<int>)
    ensures r.Some? ==> |s| > 0
  {
    ParseSigned(TrimLeft(s))
  }

  /** Text after a number that does not turn a lone "0" into a hex mark. */
  predicate NoHexMark(t: string) {
    |t| == 0 || (t[0] != 'x' && t[0] != 'X')
  }

  /** The signed digits of every integer read back. */
  lemma ParseSignedItoa(n: int, t: string)
    requires |t| == 0 || !IsDigit(t[0])
    requires n != 0 || NoHexMark(t)
    ensures ParseSigned(Itoa(n) + t) == Some(n)
  {
    if n < 0 {
      ParseSignedNegative(-n, t);
    } else {
      ParseSignedDigits(n, t);
    }
  }

  lemma ParseSignedNegative(m: nat, t: string)
    requires m > 0
    requires |t| == 0 || !IsDigit(t[0])
    ensures ParseSigned("-" + NatToString(m) + t) == Some(-(m as int))
  {
    ParseSignedMinus(NatToString(m), t);
    DigitsOfNat(m);
  }

  /** A minus sign followed by digits, the first not 0, reads as their
      negated value. */
  lemma ParseSignedMinus(digits: string, t: string)
    requires |digits| > 0 && AllDigits(digits) && digits[0] != '0'
    requires |t| == 0 || !IsDigit(t[0])
    ensures ParseSigned("-" + digits + t) == Some(-(DigitsValue(digits) as int))
  {
    var x := "-" + digits + t;
    DropSign(digits, t);
    assert (digits + t)[0] == digits[0];
    LeadingDigitsOfDigits(digits, t);
    MinusThenDigits(x, digits);
  }

  lemma MinusThenDigits(x: string, digits: string)
    requires |x| > 1 && x[0] == '-' && x[1] != '0'
    requires |digits| > 0 && AllDigits(digits) && LeadingDigits(x[1..]) == digits
    ensures ParseSigned(x) == Some(-(DigitsValue(digits) as int))
  {
    assert x[1..][0] == x[1];
  }

  lemma ParseSignedDigits(m: nat, t: string)
    requires |t| == 0 || !IsDigit(t[0])
    requires m != 0 || NoHexMark(t)
    ensures ParseSigned(NatToString(m) + t) == Some(m)
  {
    var digits := NatToString(m);
    var x := digits + t;
    assert x[0] == digits[0];
    if m == 0 {
      assert digits == "0";
      assert |x| < 2 || x[1] == t[0];
    }
    assert !HexPrefixed(x);
    LeadingDigitsOfDigits(digits, t);
    DigitsOfNat(m);
  }

  /** A decimal rendering starts with a sign or a digit, never a blank. */
  lemma ItoaStartsSolid(n: int)
    ensures |Itoa(n)| > 0 && !IsSpace(Itoa(n)[0])
  {
    if n >= 0 {
      assert IsDigit(NatToString(n)[0]);
    }
  }

  /** `parseInt` reads back every integer written in decimal, whatever
      leading blanks precede it and whatever follows it, short of a digit
      or, after a lone 0, the "x" that would make it a hex mark. */
  lemma ParseIntItoa(pad: string, n: int, t: string)
    requires AllSpace(pad)
    requires |t| == 0 || !IsDigit(t[0])
    requires n != 0 || NoHexMark(t)
    ensures ParseInt(pad + Itoa(n) + t) == Some(n)
  {
    var x := Itoa(n) + t;
    assert pad + Itoa(n) + t == pad + x;
    ItoaStartsSolid(n);
    assert x[0] == Itoa(n)[0];
    TrimLeftPadded(pad, x);
    assert TrimLeft(x) == x;
    ParseSignedItoa(n, t);
  }

  /** Without a radix, `parseInt` reads digits after a "0x" or "0X" mark in
      base 16, whatever leading blanks precede them and whatever follows,
      short of another hexadecimal digit. */
  lemma ParseIntHex(pad: string, mark: char, digits: string, t: string)
    requires AllSpace(pad) && (mark == 'x' || mark == 'X')
    requires |digits| > 0 && AllHexDigits(digits)
    requires |t| == 0 || !IsHexDigit(t[0])
    ensures ParseInt(pad + ['0', mark] + digits + t) == Some(HexDigitsValue(digits))
  {
    var x := ['0', mark] + (digits + t);
    calc {
      ParseInt(pad + ['0', mark] + digits + t);
      { Regroup(pad, ['0', mark], digits, t); }
      ParseInt(pad + x);
      { MarkedText(mark, digits + t); ParseIntPadded(pad, x); }
      ParseSigned(x);
      { MarkedText(mark, digits + t); LeadingHexDigitsOfDigits(digits, t); HexThenDigits(x, digits); }
      Some(HexDigitsValue(digits));
    }
  }

  /** Blanks before text that starts solid are skipped. */
  lemma ParseIntPadded(pad: string, x: string)
    requires AllSpace(pad) && |x| > 0 && !IsSpace(x[0])
    ensures ParseInt(pad + x) == ParseSigned(x)
  {
    TrimLeftPadded(pad, x);
    ParseIntSolid(x);
  }

  lemma ParseIntSolid(x: string)
    requires |x| > 0 && !IsSpace(x[0])
    ensures ParseInt(x) == ParseSigned(x)
  {
    assert TrimLeft(x) == x;
  }

  lemma Regroup(a: string, b: string, c: string, d: string)
    ensures a + b + c + d == a + (b + (c + d))
  {
  }

  lemma MarkedText(mark: char, rest: string)
    ensures (['0', mark] + rest)[0] == '0' && (['0', mark] + rest)[1] == mark
    ensures (['0', mark] + rest)[2..] == rest
  {
  }

  lemma HexThenDigits(x: string, digits: string)
    requires HexPrefixed(x)
    requires |digits| > 0 && AllHexDigits(digits) && LeadingHexDigits(x[2..]) == digits
    ensures ParseSigned(x) == Some(HexDigitsValue(digits))
  {
  }

  /** One item of the scan results the page searches. */
  datatype ResultItem = ResultItem(issueId: string, resultId: int)

  /** The number an item's id denotes (`None` for `NaN`). */
  function IdValues(data: seq<ResultItem>): (ids: seq<Option<int>>)
    ensures |ids| == |data|
    ensures forall k :: 0 <= k < |data| ==> ids[k] == ParseInt(data[k].issueId)
  {
    seq(|data|, k requires 0 <= k < |data| => ParseInt(data[k].issueId))
  }

  /** `id` denotes the number `target` (`NaN` equals nothing). */
  predicate Matches(id: Option<int>, target: Option<int>) {
    target.Some? && id == target
  }

  /** The first position from `i` on whose id matches. */
  function FindFrom(ids: seq<Option<int>>, target: Option<int>, i: nat): (r: Option<nat>)
    requires i <= |ids|
    ensures r.Some? ==> i <= r.value < |ids| && Matches(ids[r.value], target)
    ensures r.Some? ==> forall j :: i <= j < r.value ==> !Matches(ids[j], target)
    ensures r.None? ==> forall j :: i <= j < |ids| ==> !Matches(ids[j], target)
    decreases |ids| - i
  {
    if i == |ids| then None
    else if Matches(ids[i], target) then Some(i)
    else FindFrom(ids, target, i + 1)
  }

  /** The result id of the first item whose id denotes `target`. */
  function FindByValue(data: seq<ResultItem>, target: Option<int>): (r: Option<int>)
    ensures var ids := IdValues(data);
      r.None? <==> forall k :: 0 <= k < |data| ==> !Matches(ids[k], target)
    ensures var ids := IdValues(data);
      r.Some? ==> exists k :: (0 <= k < |data| && Matches(ids[k], target) && r.value == data[k].resultId
                               && forall j :: 0 <= j < k ==> !Matches(ids[j], target))
  {
    match FindFrom(IdValues(data), target, 0)
    case None => None
    case Some(k) => Some(data[k].resultId)
  }

  /** Two ids denote the same number (`NaN` equals nothing). */
  predicate SameId(a: string, b: string) {
    ParseInt(a).Some? && ParseInt(a) == ParseInt(b)
  }

  /** `findResultId`: the result id of the first item whose issue id
      denotes the same number as `issueId`; `None` stands for `null` when
      no item matches. */
  function FindResultId(data: seq<ResultItem>, issueId: string): (r: Option<int>)
    ensures r.None? <==> forall k :: 0 <= k < |data| ==> !SameId(data[k].issueId, issueId)
    ensures r.Some? ==> exists k :: (0 <= k < |data| && SameId(data[k].issueId, issueId) && r.value == data[k].resultId
                                     && forall j :: 0 <= j < k ==> !SameId(data[j].issueId, issueId))
  {
    SameIdMatches(data, issueId);
    FindByValue(data, ParseInt(issueId))
  }

  /** An item's id denotes `issueId`'s number exactly when it matches it. */
  lemma SameIdMatches(data: seq<ResultItem>, issueId: string)
    ensures forall k :: 0 <= k < |data| ==>
      (SameId(data[k].issueId, issueId) <==> Matches(IdValues(data)[k], ParseInt(issueId)))
  {
  }

  /** A padded or suffixed id finds the same item. */
  lemma FindIgnoresPadding(data: seq<ResultItem>, n: int, pad: string, t: string)
    requires AllSpace(pad)
    requires |t| == 0 || !IsDigit(t[0])
    requires n != 0 || NoHexMark(t)
    ensures FindResultId(data, pad + Itoa(n) + t) == FindResultId(data, Itoa(n))
  {
    var padded := pad + Itoa(n) + t;
    var plain := Itoa(n);
    calc {
      ParseInt(padded);
      { ParseIntItoa(pad, n, t); }
      Some(n);
      { ParseIntItoa("", n, ""); assert "" + plain + "" == plain; }
      ParseInt(plain);
    }
    FindResultIdByValue(data, padded, plain);
  }

  /** The id "0x1A" is read in base 16, so it finds the item of issue 26. */
  lemma HexIdFindsDecimal(data: seq<ResultItem>)
    ensures FindResultId(data, "0x1A") == FindResultId(data, "26")
  {
    HexIdValue();
    DecimalIdValue();
    FindResultIdByValue(data, "0x1A", "26");
  }

  lemma HexIdValue()
    ensures ParseInt("0x1A") == Some(26)
  {
    var x := "0x1A";
    calc {
      ParseInt(x);
      { HexTwoDigits(x); }
      Some(HexDigitValue(x[2]) * 16 + HexDigitValue(x[3]));
      { assert x[2] == '1' && x[3] == 'A'; }
      Some(26);
    }
  }

  /** A mark and two hexadecimal digits read as their base-16 value. */
  lemma HexTwoDigits(x: string)
    requires |x| == 4 && HexPrefixed(x) && IsHexDigit(x[2]) && IsHexDigit(x[3])
    ensures ParseInt(x) == Some(HexDigitValue(x[2]) * 16 + HexDigitValue(x[3]))
  {
    var digits := x[2..];
    LeadingHexDigitsOfDigits(digits, "");
    assert digits + "" == digits;
    HexThenDigits(x, digits);
    ParseIntSolid(x);
    HexPair(digits);
  }

  lemma HexPair(s: string)
    requires |s| == 2 && IsHexDigit(s[0]) && IsHexDigit(s[1])
    ensures HexDigitsValue(s) == HexDigitValue(s[0]) * 16 + HexDigitValue(s[1])
  {
    var first := s[..1];
    assert first[..0] == [];
    assert HexDigitsValue(first) == HexDigitValue(s[0]);
  }

  lemma DecimalIdValue()
    ensures ParseInt("26") == Some(26)
  {
    NatToStringStep(2, 6);
    ParseIntItoa("", 26, "");
    assert "" + Itoa(26) + "" == "26";
  }

  /** The search depends on the number `issueId` denotes, not its text. */
  lemma FindResultIdByValue(data: seq<ResultItem>, a: string, b: string)
    requires ParseInt(a) == ParseInt(b)
    ensures FindResultId(data, a) == FindResultId(data, b)
  {
  }

  // ---------------------------------------------------------------------
  // `cisregistryTable`

  /** A line naming a registry key rather than a value. */
  predicate IsHeader(line: string) {
    Contains(line, "SYSTEM") || Contains(line, "SOFTWARE")
  }

  datatype RegistryGroup = RegistryGroup(registryKey: string, values: seq<string>)

  /** The lines a table shows, in order: every key followed by its values. */
  function Flatten(table: seq<RegistryGroup>): seq<string>
    decreases |table|
  {
    if |table| == 0 then []
    else
      var g := table[|table| - 1];
      Flatten(table[..|table| - 1]) + [g.registryKey] + g.values
  }

  /** The number of lines before the first key. */
  function LeadingValues(lines: seq<string>): (n: nat)
    ensures n <= |lines|
    ensures forall j :: 0 <= j < n ==> !IsHeader(lines[j])
    ensures n < |lines| ==> IsHeader(lines[n])
  {
    if |lines| == 0 || IsHeader(lines[0]) then 0 else 1 + LeadingValues(lines[1..])
  }

  function HeaderCount(lines: seq<string>): nat
    decreases |lines|
  {
    if |lines| == 0 then 0
    else HeaderCount(lines[..|lines| - 1]) + (if IsHeader(lines[|lines| - 1]) then 1 else 0)
  }

  predicate NoHeaders(lines: seq<string>) {
    forall j :: 0 <= j < |lines| ==> !IsHeader(lines[j])
  }

  /** A well-formed table: keys are key lines, values are not. */
  predicate WellGrouped(table: seq<RegistryGroup>) {
    forall k :: 0 <= k < |table| ==> IsHeader(table[k].registryKey) && NoHeaders(table[k].values)
  }

  /** `cisregistryTable`: a group opens at every line containing "SYSTEM"
      or "SOFTWARE" and collects the lines after it; lines before the first
      such line are dropped. So the table shows exactly the lines from the
      first key on, grouped under the key lines, one group per key line. */
  method CisRegistryTable(issues: seq<string>) returns (table: seq<RegistryGroup>)
    ensures Flatten(table) == issues[LeadingValues(issues)..]
    ensures WellGrouped(table)
    ensures |table| == HeaderCount(issues)
  {
    table := [];
    var currentKey: Option<string> := None;
    var currentValues: seq<string> := [];
    var i := 0;
    while i < |issues|
      invariant 0 <= i <= |issues|
      invariant Grouping(issues, i, table, currentKey, currentValues)
    {
      table, currentKey, currentValues := AbsorbLine(issues, i, table, currentKey, currentValues);
      i := i + 1;
    }
    table := CloseLast(issues, table, currentKey, currentValues);
  }

  /** The state after the first `i` lines: the groups closed so far, and
      the open group's key and values once a key line has been seen. */
  predicate Grouping(issues: seq<string>, i: nat, table: seq<RegistryGroup>,
                     key: Option<string>, values: seq<string>)
  {
    var start := LeadingValues(issues);
    i <= |issues|
    && (key.None? ==> table == [] && values == [] && start >= i)
    && (key.Some? ==> start < i && IsHeader(key.value) && NoHeaders(values)
                      && Flatten(table) + [key.value] + values == issues[start..i])
    && WellGrouped(table)
    && |table| + (if key.Some? then 1 else 0) == HeaderCount(issues[..i])
  }

  /** One line of the loop: a key line closes the open group and opens a
      new one, any other line joins the open group or is dropped. */
  method AbsorbLine(issues: seq<string>, i: nat, table: seq<RegistryGroup>,
                    key: Option<string>, values: seq<string>)
    returns (table': seq<RegistryGroup>, key': Option<string>, values': seq<string>)
    requires i < |issues| && Grouping(issues, i, table, key, values)
    ensures Grouping(issues, i + 1, table', key', values')
  {
    ghost var start := LeadingValues(issues);
    var issue := issues[i];
    HeaderCountSnoc(issues, i);
    if key.Some? {
      SliceSnoc(issues, start, i);
    }
    if IsHeader(issue) {
      if key.Some? {
        CloseGroup(table, key.value, values);
        table' := table + [RegistryGroup(key.value, values)];
      } else {
        table' := table;
      }
      key' := Some(issue);
      values' := [];
    } else {
      table', key' := table, key;
      if key.Some? {
        assert NoHeaders(values + [issue]);
        values' := values + [issue];
      } else {
        values' := values;
      }
    }
  }

  /** After the last line the open group, if any, is closed. */
  method CloseLast(issues: seq<string>, table: seq<RegistryGroup>,
                   key: Option<string>, values: seq<string>)
    returns (result: seq<RegistryGroup>)
    requires Grouping(issues, |issues|, table, key, values)
    ensures Flatten(result) == issues[LeadingValues(issues)..]
    ensures WellGrouped(result)
    ensures |result| == HeaderCount(issues)
  {
    assert issues[..|issues|] == issues;
    if key.Some? {
      CloseGroup(table, key.value, values);
      result := table + [RegistryGroup(key.value, values)];
    } else {
      result := table;
      assert issues[LeadingValues(issues)..] == [];
    }
  }

  /** Closing a group appends its key and values to the lines shown. */
  lemma CloseGroup(table: seq<RegistryGroup>, key: string, values: seq<string>)
    requires WellGrouped(table) && IsHeader(key) && NoHeaders(values)
    ensures Flatten(table + [RegistryGroup(key, values)]) == Flatten(table) + [key] + values
    ensures WellGrouped(table + [RegistryGroup(key, values)])
  {
    var t := table + [RegistryGroup(key, values)];
    assert t[..|t| - 1] == table;
  }

  lemma HeaderCountSnoc(lines: seq<string>, i: nat)
    requires i < |lines|
    ensures HeaderCount(lines[..i + 1]) == HeaderCount(lines[..i]) + (if IsHeader(lines[i]) then 1 else 0)
  {
    assert lines[..i + 1][..i] == lines[..i];
  }

  lemma SliceSnoc(s: seq<string>, a: nat, b: nat)
    requires a <= b < |s|
    ensures s[a..b + 1] == s[a..b] + [s[b]]
  {
  }

  // ---------------------------------------------------------------------
  // `processPortsTable`

  /** A character of the separator class `[ ,]`. */
  predicate IsSep(c: char) {
    c == ' ' || c == ','
  }

  predicate NoSep(s: string) {
    forall i :: 0 <= i < |s| ==> !IsSep(s[i])
  }

  /** The longest prefix without a separator. */
  function Word(s: string): (w: string)
    ensures w <= s && NoSep(w)
    ensures |w| < |s| ==> IsSep(s[|w|])
  {
    if |s| == 0 || IsSep(s[0]) then "" else [s[0]] + Word(s[1..])
  }

  /** `s` with its leading separators removed. */
  function SkipSeps(s: string): (r: string)
    ensures |r| <= |s| && r == s[|s| - |r|..]
    ensures |r| > 0 ==> !IsSep(r[0])
  {
    if |s| > 0 && IsSep(s[0]) then SkipSeps(s[1..]) else s
  }

  /** `s.split(/[ ,]+/)`: the pieces between maximal runs of spaces and
      commas. A leading or trailing run gives an empty first or last
      piece, as in JavaScript. */
  function SplitRuns(s: string): (parts: seq<string>)
    ensures |parts| >= 1
    ensures forall k :: 0 <= k < |parts| ==> NoSep(parts[k])
    decreases |s|
  {
    var w := Word(s);
    if |w| == |s| then [s]
    else [w] + SplitRuns(SkipSeps(s[|w|..]))
  }

  /** Words written with a single blank between them split back into the
      words. */
  lemma {:induction false} SplitRunsJoin(words: seq<string>)
    requires |words| >= 1
    requires forall k :: 0 <= k < |words| ==> NoSep(words[k]) && |words[k]| > 0
    ensures SplitRuns(Join(words, " ")) == words
    decreases |words|
  {
    if |words| == 1 {
      assert Join(words, " ") == words[0];
      WordOfWord(words[0], "");
      assert words[0] + "" == words[0];
    } else {
      var s := Join(words, " ");
      var rest := Join(words[1..], " ");
      assert s == words[0] + (" " + rest);
      WordOfWord(words[0], " " + rest);
      assert s[|words[0]|..] == " " + rest;
      assert words[1..][0] == words[1];
      JoinStartsWith(words[1..]);
      assert SkipSeps(" " + rest) == SkipSeps(rest);
      SplitRunsJoin(words[1..]);
      assert [words[0]] + words[1..] == words;
    }
  }

  /** The word of a word followed by a separator or nothing is the word. */
  lemma {:induction false} WordOfWord(w: string, t: string)
    requires NoSep(w)
    requires |t| == 0 || IsSep(t[0])
    ensures Word(w + t) == w
    decreases |w|
  {
    if |w| > 0 {
      var rest := w[1..];
      assert NoSep(rest) by {
        assert forall i :: 0 <= i < |rest| ==> rest[i] == w[i + 1];
      }
      assert (w + t)[0] == w[0] && !IsSep(w[0]);
      assert (w + t)[1..] == rest + t;
      WordOfWord(rest, t);
      assert [w[0]] + rest == w;
    } else {
      assert w + t == t;
    }
  }

  /** A join of non-empty separator-free words starts with a non-separator. */
  lemma JoinStartsWith(words: seq<string>)
    requires |words| >= 1
    requires forall k :: 0 <= k < |words| ==> NoSep(words[k]) && |words[k]| > 0
    ensures |Join(words, " ")| > 0 && !IsSep(Join(words, " ")[0])
  {
    if |words| > 1 {
      assert Join(words, " ") == words[0] + (" " + Join(words[1..], " "));
    }
  }

  /** `Array.prototype.indexOf` with strict equality; `None` for -1. */
  function IndexOfToken(parts: seq<string>, token: string): (r: Option<nat>)
    ensures r.Some? ==> r.value < |parts| && parts[r.value] == token
    ensures r.Some? ==> forall j :: 0 <= j < r.value ==> parts[j] != token
    ensures r.None? <==> token !in parts
  {
    if |parts| == 0 then None
    else if parts[0] == token then Some(0)
    else
      match IndexOfToken(parts[1..], token)
      case None => None
      case Some(k) =>
        assert forall j :: 1 <= j < k + 1 ==> parts[j] == parts[1..][j - 1];
        Some(k + 1)
  }

  /** One row of the ports table. `None` stands for the `undefined`
      process name of a line ending at "process:". */
  datatype PortRow = PortRow(portProcess: Option<string>, ports: seq<string>)

  /** The distinct pieces after position `k`, in first-occurrence order
      (a JavaScript `Set` keeps insertion order). */
  function DistinctAfter(parts: seq<string>, k: nat): (r: seq<string>)
    requires k <= |parts|
    ensures Utils.IsDedupOf(r, parts[k..])
  {
    Utils.DedupCorrect(parts[k..]);
    Utils.Dedup(parts[k..])
  }

  /** The row the pieces of a line give: when they contain "process:" and
      "port:", the piece after the first "process:" and the distinct pieces
      after the first "port:". */
  function PortRowOf(parts: seq<string>): (r: Option<PortRow>)
    ensures r.Some? <==> "process:" in parts && "port:" in parts
    ensures r.Some? ==> r.value.portProcess == At(parts, IndexOfToken(parts, "process:").value + 1)
    ensures r.Some? ==> Utils.IsDedupOf(r.value.ports, parts[IndexOfToken(parts, "port:").value + 1..])
  {
    var processIndex := IndexOfToken(parts, "process:");
    var portIndex := IndexOfToken(parts, "port:");
    if processIndex.Some? && portIndex.Some? then
      Some(PortRow(At(parts, processIndex.value + 1), DistinctAfter(parts, portIndex.value + 1)))
    else None
  }

  /** The row a line contributes, read from its pieces. */
  function PortLine(line: string): Option<PortRow> {
    PortRowOf(SplitRuns(line))
  }

  /** The row each line gives, line by line. */
  function PortLines(issues: seq<string>): (rows: seq<Option<PortRow>>)
    ensures |rows| == |issues|
    ensures forall i :: 0 <= i < |issues| ==> rows[i] == PortLine(issues[i])
  {
    seq(|issues|, i requires 0 <= i < |issues| => PortLine(issues[i]))
  }

  /** The values present in `xs`, in order. */
  function Present<T>(xs: seq<Option<T>>): (r: seq<T>)
    ensures |r| <= |xs|
    decreases |xs|
  {
    if |xs| == 0 then []
    else
      var front := Present(xs[..|xs| - 1]);
      match xs[|xs| - 1]
      case None => front
      case Some(v) => front + [v]
  }

  /** Every present value comes from one of the entries. */
  lemma {:induction false} PresentSound<T>(xs: seq<Option<T>>)
    ensures forall k :: 0 <= k < |Present(xs)| ==> exists i :: 0 <= i < |xs| && xs[i] == Some(Present(xs)[k])
    decreases |xs|
  {
    if |xs| > 0 {
      var front := xs[..|xs| - 1];
      PresentSound(front);
      var r := Present(xs);
      var f := Present(front);
      var last := xs[|xs| - 1];
      assert last.None? ==> r == f;
      assert last.Some? ==> r == f + [last.value];
      forall k | 0 <= k < |r|
        ensures exists i :: 0 <= i < |xs| && xs[i] == Some(r[k])
      {
        if k < |f| {
          var i :| 0 <= i < |front| && front[i] == Some(f[k]);
          assert xs[i] == front[i] && r[k] == f[k];
        } else {
          assert xs[|xs| - 1] == Some(r[k]);
        }
      }
    } else {
      assert |Present(xs)| == 0;
    }
  }

  /** Every entry that holds a value gives it. */
  lemma {:induction false} PresentComplete<T>(xs: seq<Option<T>>, i: nat)
    requires i < |xs| && xs[i].Some?
    ensures xs[i].value in Present(xs)
    decreases |xs|
  {
    if i < |xs| - 1 {
      assert xs[..|xs| - 1][i] == xs[i];
      PresentComplete(xs[..|xs| - 1], i);
    }
  }

  /** The values of `a` come before those of `b`. */
  lemma {:induction false} PresentAppend<T>(a: seq<Option<T>>, b: seq<Option<T>>)
    ensures Present(a + b) == Present(a) + Present(b)
    decreases |b|
  {
    if |b| == 0 {
      assert a + b == a;
    } else {
      assert (a + b)[..|a + b| - 1] == a + b[..|b| - 1];
      assert (a + b)[|a + b| - 1] == b[|b| - 1];
      PresentAppend(a, b[..|b| - 1]);
    }
  }

  /** `processPortsTable`: one row per line that names a process and a
      port, in line order. */
  function ProcessPortsTable(issues: seq<string>): (table: seq<PortRow>)
    ensures |table| <= |issues|
  {
    Present(PortLines(issues))
  }

  /** Every row of the table is the row of one of the lines. */
  lemma ProcessPortsSound(issues: seq<string>)
    ensures var table := ProcessPortsTable(issues);
      forall k :: 0 <= k < |table| ==> exists i :: 0 <= i < |issues| && PortLine(issues[i]) == Some(table[k])
  {
    PresentSound(PortLines(issues));
  }

  /** Every line that names a process and a port gives its row. */
  lemma ProcessPortsComplete(issues: seq<string>, i: nat)
    requires i < |issues| && PortLine(issues[i]).Some?
    ensures PortLine(issues[i]).value in ProcessPortsTable(issues)
  {
    PresentComplete(PortLines(issues), i);
  }

  /** The table follows the line order: the rows of `a` come before those
      of `b`, and one line gives its own row or nothing. */
  lemma ProcessPortsAppend(a: seq<string>, b: seq<string>)
    ensures ProcessPortsTable(a + b) == ProcessPortsTable(a) + ProcessPortsTable(b)
    ensures |b| == 1 && PortLine(b[0]).None? ==> ProcessPortsTable(b) == []
    ensures |b| == 1 && PortLine(b[0]).Some? ==> ProcessPortsTable(b) == [PortLine(b[0]).value]
  {
    PortLinesAppend(a, b);
    PresentAppend(PortLines(a), PortLines(b));
    if |b| == 1 {
      PresentOne(PortLines(b));
    }
  }

  lemma PortLinesAppend(a: seq<string>, b: seq<string>)
    ensures PortLines(a + b) == PortLines(a) + PortLines(b)
  {
    var ab := a + b;
    assert forall i :: 0 <= i < |a| ==> ab[i] == a[i];
    assert forall i :: |a| <= i < |ab| ==> ab[i] == b[i - |a|];
  }

  /** One entry gives its value or nothing. */
  lemma PresentOne<T>(xs: seq<Option<T>>)
    requires |xs| == 1
    ensures xs[0].None? ==> Present(xs) == []
    ensures xs[0].Some? ==> Present(xs) == [xs[0].value]
  {
    assert xs[..0] == [];
  }

  // ---------------------------------------------------------------------
  // `cookiesTable`

  /** The host at position `i + 1` of the cookie list, as a JavaScript
      property name: "undefined" past the end. */
  function HostAfter(issues: seq<string>, i: nat): string {
    if i + 1 < |issues| then issues[i + 1] else "undefined"
  }

  /** The hosts read at the odd positions, one per cookie. */
  function Hosts(issues: seq<string>): (hosts: seq<string>)
    ensures |hosts| == (|issues| + 1) / 2
    ensures forall k :: 0 <= k < |hosts| ==> hosts[k] == HostAfter(issues, 2 * k)
    decreases |issues|
  {
    if |issues| == 0 then []
    else
      var rest := if |issues| >= 2 then issues[2..] else [];
      var h := Hosts(rest);
      assert forall k :: 1 <= k < 1 + |h| ==> HostAfter(issues, 2 * k) == HostAfter(rest, 2 * (k - 1));
      [HostAfter(issues, 0)] + h
  }

  /** `cookiesTable`: one row per distinct host, in the order the hosts
      are first met. */
  function CookieHosts(issues: seq<string>): (rows: seq<string>)
    ensures Utils.IsDedupOf(rows, Hosts(issues))
    ensures forall h :: h in rows <==> exists i :: 0 <= i < |issues| && i % 2 == 0 && HostAfter(issues, i) == h
  {
    Utils.DedupCorrect(Hosts(issues));
    HostsCover(issues);
    Utils.Dedup(Hosts(issues))
  }

  /** The hosts are exactly those read at the even cookie positions. */
  lemma {:induction false} HostsCover(issues: seq<string>)
    ensures forall h :: h in Hosts(issues) <==> exists i :: 0 <= i < |issues| && i % 2 == 0 && HostAfter(issues, i) == h
  {
    var hosts := Hosts(issues);
    forall h | h in hosts
      ensures exists i :: 0 <= i < |issues| && i % 2 == 0 && HostAfter(issues, i) == h
    {
      var k :| 0 <= k < |hosts| && hosts[k] == h;
      EvenPosition(k, |issues|);
      assert HostAfter(issues, 2 * k) == h;
    }
    forall i | 0 <= i < |issues| && i % 2 == 0
      ensures HostAfter(issues, i) in hosts
    {
      HalfPosition(i, |issues|);
      assert hosts[i / 2] == HostAfter(issues, i);
    }
  }

  lemma EvenPosition(k: nat, n: nat)
    requires k < (n + 1) / 2
    ensures 2 * k < n && (2 * k) % 2 == 0
  {
  }

  lemma HalfPosition(i: nat, n: nat)
    requires i < n && i % 2 == 0
    ensures i / 2 < (n + 1) / 2 && 2 * (i / 2) == i
  {
  }

  // ---------------------------------------------------------------------
  // The risk indicator beside the issue name

  datatype RiskIndicator = AcceptableRisk | LowRisk | MediumRisk | HighRisk | InfoRisk

  /** The `data-severity` attribute each indicator carries. */
  function DataSeverity(r: RiskIndicator): (s: int)
    ensures 0 <= s <= 4
  {
    match r
    case AcceptableRisk => 0
    case LowRisk => 1
    case MediumRisk => 2
    case HighRisk => 3
    case InfoRisk => 4
  }

  /** The indicator for a severity: 0 to 3 have their own, everything else
      is informative. The indicator carries the severity it was chosen
      for, 4 standing for everything else. */
  function RiskIndicatorOf(severity: int): (r: RiskIndicator)
    ensures 0 <= severity <= 4 ==> DataSeverity(r) == severity
    ensures !(0 <= severity <= 3) ==> r == InfoRisk
  {
    if severity == 0 then AcceptableRisk
    else if severity == 1 then LowRisk
    else if severity == 2 then MediumRisk
    else if severity == 3 then HighRisk
    else InfoRisk
  }

  /** Reading the attribute back gives the indicator. */
  lemma IndicatorRoundTrip(r: RiskIndicator)
    ensures RiskIndicatorOf(DataSeverity(r)) == r
  {
  }
}
