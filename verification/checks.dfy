/** The result record every security and privacy check returns (the
    `checks.Check` type). The `checks` package itself, with its
    constructors, is not part of this model; the constructors below follow
    the way the checks use them: a result carries an issue id, a result id
    and result lines, and an error result carries the result id -1. */
module Checks {
  import opened Wrappers

  datatype Check = Check(
    issueId: int,
    resultId: int,
    result: seq<string>,
    error: Option<string>,
    errorMsg: string)

  /** A check of the older string-keyed kind (`NewCheckResult("smb", ...)`). */
  datatype NamedCheck = NamedCheck(
    name: string,
    result: seq<string>,
    error: Option<string>,
    errorMsg: string)

  /** The result id an error check carries. */
  const ErrorResultId: int := -1

  function NewCheckResult(issueId: int, resultId: int, result: seq<string>): (c: Check)
    ensures c.error.None? && c.issueId == issueId && c.resultId == resultId && c.result == result
  {
    Check(issueId, resultId, result, None, "")
  }

  /** An error check with a message describing what failed. */
  function NewCheckErrorf(issueId: int, msg: string, err: string): (c: Check)
    ensures c.error == Some(err) && c.errorMsg == msg
    ensures c.issueId == issueId && c.resultId == ErrorResultId && c.result == []
  {
    Check(issueId, ErrorResultId, [], Some(err), msg)
  }

  function NewCheckError(issueId: int, err: string): (c: Check)
    ensures c.error == Some(err) && c.resultId == ErrorResultId && c.issueId == issueId
  {
    Check(issueId, ErrorResultId, [], Some(err), "")
  }

  function NewNamedResult(name: string, result: seq<string>): (c: NamedCheck)
    ensures c.error.None? && c.name == name && c.result == result
  {
    NamedCheck(name, result, None, "")
  }

  /** An error check of the older kind, with a message. */
  function NewNamedErrorf(name: string, msg: string, err: string): (c: NamedCheck)
    ensures c.error == Some(err) && c.errorMsg == msg && c.name == name && c.result == []
  {
    NamedCheck(name, [], Some(err), msg)
  }

  function NewNamedError(name: string, err: string): (c: NamedCheck)
    ensures c.error == Some(err) && c.name == name && c.result == []
  {
    NamedCheck(name, [], Some(err), "")
  }
}
