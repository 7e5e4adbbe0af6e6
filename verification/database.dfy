/** `database.GetData`: look up the severity of every successful check in
    the issue catalogue (a JSON file) and list `(issue id, severity)` pairs.
    Reading and decoding the file are not modelled: the decoded catalogue,
    or the error that reading or decoding gave, is the input. */
module Database {
  import opened Wrappers
  import opened Strings
  import opened Checks

  /** A decoded JSON value. A number is the rational `num / den`; its
      binary floating-point rounding is not modelled. */
  datatype Json =
    | JNum(num: int, den: nat)
    | JString(s: string)
    | JObject(fields: map<string, Json>)
    | JOther

  /** The catalogue as decoded: issue key to the issue's JSON object, whose
      result entries sit under their result keys. */
  type Catalogue = map<string, map<string, Json>>

  datatype Data = Data(issueId: int, severity: int)

  /** Go's `int(f)` conversion: truncation toward zero. */
  function TruncToInt(num: int, den: nat): (r: int)
    requires den > 0
    ensures r * den <= num < (r + 1) * den || num < 0
    ensures num < 0 ==> (r - 1) * den < num <= r * den
  {
    if num >= 0 then num / den else -((-num) / den)
  }

  /** The severity of one check result, when the catalogue holds one:
      the issue key is present, its result key holds an object, and that
      object's `Severity` is a number. */
  function Severity(data: Catalogue, c: Check): (r: Option<int>)
    ensures r.Some? ==> c.error.None? && Itoa(c.issueId) in data
  {
    if c.error.Some? then None
    else
      var issueKey := Itoa(c.issueId);
      var resultKey := Itoa(c.resultId);
      if issueKey !in data then None
      else if resultKey !in data[issueKey] || !data[issueKey][resultKey].JObject? then None
      else
        var fields := data[issueKey][resultKey].fields;
        if "Severity" !in fields then None
        else match fields["Severity"]
          case JNum(n, d) => if d > 0 then Some(TruncToInt(n, d)) else None
          case _ => None
  }

  /** Reference definition: the severities of the checks that have one, in
      check order. */
  function Collect(data: Catalogue, checks: seq<Check>): (r: seq<Data>)
    ensures |r| <= |checks|
    decreases |checks|
  {
    if |checks| == 0 then []
    else
      var c := checks[|checks| - 1];
      var front := Collect(data, checks[..|checks| - 1]);
      match Severity(data, c)
      case None => front
      case Some(s) => front + [Data(c.issueId, s)]
  }

  /** The list follows the checks' order: the pairs of `a` come before
      those of `b`, and one check gives its own pair or nothing. */
  lemma {:induction false} CollectAppend(data: Catalogue, a: seq<Check>, b: seq<Check>)
    ensures Collect(data, a + b) == Collect(data, a) + Collect(data, b)
    ensures |b| == 1 && Severity(data, b[0]).None? ==> Collect(data, b) == []
    ensures |b| == 1 && Severity(data, b[0]).Some? ==>
      Collect(data, b) == [Data(b[0].issueId, Severity(data, b[0]).value)]
    decreases |b|
  {
    if |b| == 0 {
      assert a + b == a;
    } else {
      var front := b[..|b| - 1];
      assert (a + b)[..|a + b| - 1] == a + front;
      assert (a + b)[|a + b| - 1] == b[|b| - 1];
      CollectAppend(data, a, front);
      if |b| == 1 {
        assert front == [];
      }
    }
  }

  /** `d` is the pair listed for check `c`. */
  predicate ListedFor(data: Catalogue, c: Check, d: Data) {
    c.error.None? && c.issueId == d.issueId && Severity(data, c) == Some(d.severity)
  }

  /** Every listed pair comes from an error-free check whose severity the
      catalogue holds. */
  lemma {:induction false} CollectSound(data: Catalogue, checks: seq<Check>)
    ensures forall k :: 0 <= k < |Collect(data, checks)| ==>
      exists i :: 0 <= i < |checks| && ListedFor(data, checks[i], Collect(data, checks)[k])
    decreases |checks|
  {
    if |checks| > 0 {
      var p := checks[..|checks| - 1];
      CollectSound(data, p);
      var r := Collect(data, checks);
      var c := checks[|checks| - 1];
      assert Severity(data, c).None? ==> r == Collect(data, p);
      assert Severity(data, c).Some? ==> r == Collect(data, p) + [Data(c.issueId, Severity(data, c).value)];
      forall k | 0 <= k < |r|
        ensures exists i :: 0 <= i < |checks| && ListedFor(data, checks[i], r[k])
      {
        if k < |Collect(data, p)| {
          var i :| 0 <= i < |p| && ListedFor(data, p[i], Collect(data, p)[k]);
          assert checks[i] == p[i];
          assert r[k] == Collect(data, p)[k];
          assert ListedFor(data, checks[i], r[k]);
        } else {
          assert ListedFor(data, checks[|checks| - 1], r[k]);
        }
      }
    } else {
      assert |Collect(data, checks)| == 0;
    }
  }

  /** A check whose severity the catalogue holds is listed. */
  lemma {:induction false} CollectComplete(data: Catalogue, checks: seq<Check>, i: nat)
    requires i < |checks| && Severity(data, checks[i]).Some?
    ensures Data(checks[i].issueId, Severity(data, checks[i]).value) in Collect(data, checks)
    decreases |checks|
  {
    var p := checks[..|checks| - 1];
    if i < |checks| - 1 {
      assert checks[i] == p[i];
      CollectComplete(data, p, i);
    }
  }

  /** Checks that failed contribute nothing. */
  lemma {:induction false} CollectSkipsErrors(data: Catalogue, checks: seq<Check>)
    requires forall i :: 0 <= i < |checks| ==> checks[i].error.Some?
    ensures Collect(data, checks) == []
    decreases |checks|
  {
    if |checks| > 0 {
      CollectSkipsErrors(data, checks[..|checks| - 1]);
    }
  }

  /** `GetData`: a read or decode error is passed on; otherwise every check
      is visited in order. */
  method GetData(file: Result<Catalogue>, checkResults: seq<Check>) returns (r: Result<seq<Data>>)
    ensures file.Err? ==> r == Err(file.error)
    ensures file.Ok? ==> r.Ok? && r.value == Collect(file.value, checkResults)
  {
    if file.Err? {
      return Err(file.error);
    }
    var data := file.value;
    var dataList: seq<Data> := [];
    var i := 0;
    while i < |checkResults|
      invariant 0 <= i <= |checkResults|
      invariant dataList == Collect(data, checkResults[..i])
    {
      var checkResult := checkResults[i];
      assert checkResults[..i + 1][..i] == checkResults[..i];
      if checkResult.error.Some? {
        i := i + 1;
        continue;
      }
      var issueKey := Itoa(checkResult.issueId);
      var resultKey := Itoa(checkResult.resultId);
      if issueKey !in data {
        i := i + 1;
        continue;
      }
      var issueData := data[issueKey];
      if resultKey !in issueData || !issueData[resultKey].JObject? {
        i := i + 1;
        continue;
      }
      var resultData := issueData[resultKey].fields;
      if "Severity" !in resultData || !resultData["Severity"].JNum? || resultData["Severity"].den == 0 {
        i := i + 1;
        continue;
      }
      var sev := resultData["Severity"];
      dataList := dataList + [Data(checkResult.issueId, TruncToInt(sev.num, sev.den))];
      i := i + 1;
    }
    assert checkResults[..i] == checkResults;
    return Ok(dataList);
  }
}
