/** Three probes whose outcome is a fixed table over what the system
    reports: the User Account Control level, the Remote Desktop flag and
    the SMB protocol status. Running PowerShell is not modelled: the
    command executor is a function from the program and its argument to
    the output or an error. */
module Probes {
  import opened Wrappers
  import opened Strings
  import opened Checks
  import opened Registry

  /** A command executor: program and argument to output or error. */
  type Executor = (string, string) -> Result<string>

  // ---------------------------------------------------------------------
  // UACCheck

  const UacIssue: int := 13
  const UacQuery: string := "(Get-ItemProperty -Path 'HKLM:\\SOFTWARE\\Microsoft\\Windows\\CurrentVersion\\Policies\\System').ConsentPromptBehaviorAdmin"

  const UacDisabled: string := "UAC is disabled."
  const UacAppsAndSettings: string := "UAC is turned on for apps making changes to your computer and for changing your settings."
  const UacAppsOnly: string := "UAC is turned on for apps making changes to your computer."
  const UacUnknown: string := "Unknown UAC level"

  /** `UACCheck`: the ConsentPromptBehaviorAdmin value, trimmed, decides:
      "0" is result 0, "2" result 1, "5" result 2, anything else result 3.
      An executor error becomes an error check. */
  function UacCheck(exec: Executor): (c: Check)
    ensures exec("powershell", UacQuery).Err? ==>
      c == NewCheckErrorf(UacIssue, "error retrieving UAC", exec("powershell", UacQuery).error)
    ensures exec("powershell", UacQuery).Ok? ==>
      var level := TrimSpace(exec("powershell", UacQuery).value);
      && c.error.None? && c.issueId == UacIssue && 0 <= c.resultId <= 3 && |c.result| == 1
      && (c.resultId == 0 <==> level == "0")
      && (c.resultId == 1 <==> level == "2")
      && (c.resultId == 2 <==> level == "5")
  {
    match exec("powershell", UacQuery)
    case Err(e) => NewCheckErrorf(UacIssue, "error retrieving UAC", e)
    case Ok(key) => UacOfLevel(TrimSpace(key))
  }

  /** The check a trimmed ConsentPromptBehaviorAdmin value gives. */
  function UacOfLevel(level: string): Check {
    if level == "0" then NewCheckResult(UacIssue, 0, [UacDisabled])
    else if level == "2" then NewCheckResult(UacIssue, 1, [UacAppsAndSettings])
    else if level == "5" then NewCheckResult(UacIssue, 2, [UacAppsOnly])
    else NewCheckResult(UacIssue, 3, [UacUnknown])
  }

  /** The executor that answers the UAC query with `out`. */
  function Answer(out: string): Executor {
    (prog: string, arg: string) => Ok(out)
  }

  /** White space around the value does not change the outcome. */
  lemma UacIgnoresPadding(out: string, pre: string, post: string)
    requires AllSpace(pre) && AllSpace(post) && |out| > 0 && Trimmed(out)
    ensures UacCheck(Answer(pre + out + post)) == UacCheck(Answer(out))
  {
    TrimSpaceOfPadded(pre, out, post);
    TrimSpaceOfPadded("", out, "");
    assert "" + out + "" == out;
    UacDependsOnTrim(pre + out + post, out);
  }

  lemma UacDependsOnTrim(a: string, b: string)
    requires TrimSpace(a) == TrimSpace(b)
    ensures UacCheck(Answer(a)) == UacCheck(Answer(b))
  {
    AnswerGives(a);
    AnswerGives(b);
  }

  lemma AnswerGives(out: string)
    ensures UacCheck(Answer(out)) == UacOfLevel(TrimSpace(out))
  {
    assert Answer(out)("powershell", UacQuery) == Ok(out);
  }

  /** The table of the probe's tests: levels 0, 2, 5 and an unknown one. */
  lemma UacLevels()
    ensures UacCheck(Answer("0")) == NewCheckResult(UacIssue, 0, [UacDisabled])
    ensures UacCheck(Answer("2")) == NewCheckResult(UacIssue, 1, [UacAppsAndSettings])
    ensures UacCheck(Answer("5")) == NewCheckResult(UacIssue, 2, [UacAppsOnly])
    ensures UacCheck(Answer("3")) == NewCheckResult(UacIssue, 3, [UacUnknown])
  {
    UacLevelZero();
    UacLevelTwo();
    UacLevelFive();
    UacLevelThree();
  }

  lemma UacLevelZero()
    ensures UacCheck(Answer("0")) == NewCheckResult(UacIssue, 0, [UacDisabled])
  {
    UacLevel("0");
  }

  lemma UacLevelTwo()
    ensures UacCheck(Answer("2")) == NewCheckResult(UacIssue, 1, [UacAppsAndSettings])
  {
    UacLevel("2");
  }

  lemma UacLevelFive()
    ensures UacCheck(Answer("5")) == NewCheckResult(UacIssue, 2, [UacAppsOnly])
  {
    UacLevel("5");
    OfLevelFive();
  }

  lemma UacLevelThree()
    ensures UacCheck(Answer("3")) == NewCheckResult(UacIssue, 3, [UacUnknown])
  {
    UacLevel("3");
    OfLevelThree();
  }

  lemma OfLevelFive()
    ensures UacOfLevel("5") == NewCheckResult(UacIssue, 2, [UacAppsOnly])
  {
  }

  lemma OfLevelThree()
    ensures UacOfLevel("3") == NewCheckResult(UacIssue, 3, [UacUnknown])
  {
  }

  /** A bare one-character level is read as it stands. */
  lemma UacLevel(level: string)
    requires |level| == 1 && !IsSpace(level[0])
    ensures UacCheck(Answer(level)) == UacOfLevel(level)
  {
    TrimSpaceOfPadded("", level, "");
    assert "" + level + "" == level;
    AnswerGives(level);
  }

  // ---------------------------------------------------------------------
  // RemoteDesktopCheck

  const RemoteDesktopIssue: int := 11
  const TerminalServer: string := "System\\CurrentControlSet\\Control\\Terminal Server"

  /** `RemoteDesktopCheck`: an error check when the Terminal Server key
      cannot be opened; otherwise result 0 ("enabled") when
      fDenyTSConnections is 0 and result 1 ("disabled") for any other
      value. The key's reads never fail, so the read error return cannot
      happen here. */
  method RemoteDesktopCheck(root: RegKey) returns (c: Check)
    ensures !HasSubKey(root, TerminalServer) ==>
      c == NewCheckErrorf(RemoteDesktopIssue, "error opening registry key", "key not found")
    ensures HasSubKey(root, TerminalServer) ==>
      var key := root.subKeys[FindSubKey(root, TerminalServer).value];
      var val := GetIntegerValue(key, "fDenyTSConnections").val;
      && c.error.None? && c.issueId == RemoteDesktopIssue
      && (c.resultId == 0 <==> val == 0)
      && (c.resultId == 0 ==> c.result == ["Remote Desktop is enabled"])
      && (c.resultId != 0 ==> c.resultId == 1 && c.result == ["Remote Desktop is disabled"])
  {
    var key, err := OpenKey(root, TerminalServer);
    if err.Some? {
      return NewCheckErrorf(RemoteDesktopIssue, "error opening registry key", err.value);
    }
    var val := GetIntegerValue(key, "fDenyTSConnections").val;
    if val == 0 {
      return NewCheckResult(RemoteDesktopIssue, 0, ["Remote Desktop is enabled"]);
    }
    return NewCheckResult(RemoteDesktopIssue, 1, ["Remote Desktop is disabled"]);
  }

  // ---------------------------------------------------------------------
  // SmbCheck

  function SmbQuery(smb: string): string {
    "Get-SmbServerConfiguration | Select-Object Enable" + smb + "Protocol"
  }

  /** The output has the fourth line the parser reads. */
  predicate HasFourLines(out: string) {
    |Split(out, "\r\n")| >= 4
  }

  /** `SmbEnabled`: "<smb>: enabled" exactly when the fourth CRLF-separated
      line of the output, trimmed, is "True". Output with fewer lines makes
      the source index out of range, hence the precondition. */
  function SmbEnabled(smb: string, exec: Executor): (r: Result<string>)
    requires exec("powershell", SmbQuery(smb)).Ok? ==> HasFourLines(exec("powershell", SmbQuery(smb)).value)
    ensures exec("powershell", SmbQuery(smb)).Err? ==> r == Err(exec("powershell", SmbQuery(smb)).error)
    ensures exec("powershell", SmbQuery(smb)).Ok? ==>
      var line := TrimSpace(Split(exec("powershell", SmbQuery(smb)).value, "\r\n")[3]);
      && r.Ok?
      && (r.value == smb + ": enabled" <==> line == "True")
      && (line != "True" ==> r.value == smb + ": not enabled")
  {
    match exec("powershell", SmbQuery(smb))
    case Err(e) => Err(e)
    case Ok(output) =>
      var outputString := Split(output, "\r\n");
      var line := TrimSpace(outputString[3]);
      if line == "True" then Ok(smb + ": enabled")
      else
        StatusesDiffer(smb);
        Ok(smb + ": not enabled")
  }

  /** The two statuses of a protocol are different texts. */
  lemma StatusesDiffer(smb: string)
    ensures smb + ": enabled" != smb + ": not enabled"
  {
    assert (smb + ": enabled")[|smb| + 2] != (smb + ": not enabled")[|smb| + 2];
  }

  /** `SmbCheck`: SMB1, then SMB2; the first error makes the check an error
      and SMB2 is then not queried; otherwise both statuses, in order. */
  function SmbCheck(smb1executor: Executor, smb2executor: Executor): (c: NamedCheck)
    requires smb1executor("powershell", SmbQuery("SMB1")).Ok? ==> HasFourLines(smb1executor("powershell", SmbQuery("SMB1")).value)
    requires smb2executor("powershell", SmbQuery("SMB2")).Ok? ==> HasFourLines(smb2executor("powershell", SmbQuery("SMB2")).value)
    ensures SmbEnabled("SMB1", smb1executor).Err? ==> c == NewNamedError("smb", SmbEnabled("SMB1", smb1executor).error)
    ensures SmbEnabled("SMB1", smb1executor).Ok? && SmbEnabled("SMB2", smb2executor).Err? ==>
      c == NewNamedError("smb", SmbEnabled("SMB2", smb2executor).error)
    ensures SmbEnabled("SMB1", smb1executor).Ok? && SmbEnabled("SMB2", smb2executor).Ok? ==>
      c == NewNamedResult("smb", [SmbEnabled("SMB1", smb1executor).value, SmbEnabled("SMB2", smb2executor).value])
  {
    var smb1 := SmbEnabled("SMB1", smb1executor);
    if smb1.Err? then NewNamedError("smb", smb1.error)
    else
      var smb2 := SmbEnabled("SMB2", smb2executor);
      if smb2.Err? then NewNamedError("smb", smb2.error)
      else NewNamedResult("smb", [smb1.value, smb2.value])
  }

  /** An SMB2 executor is consulted only once SMB1 succeeded: with a failing
      SMB1 query the check is the same whatever SMB2 would say. */
  lemma SmbStopsAtFirstError(smb1executor: Executor, smb2executor: Executor, other: Executor)
    requires smb1executor("powershell", SmbQuery("SMB1")).Err?
    requires smb2executor("powershell", SmbQuery("SMB2")).Ok? ==> HasFourLines(smb2executor("powershell", SmbQuery("SMB2")).value)
    requires other("powershell", SmbQuery("SMB2")).Ok? ==> HasFourLines(other("powershell", SmbQuery("SMB2")).value)
    ensures SmbCheck(smb1executor, smb2executor) == SmbCheck(smb1executor, other)
  {
  }
}
