/** `scan.Scan`: run every check in order, reporting progress in a dialog.
    The checks themselves are opaque here: their results are an input. The
    progress dialog is a pair of functions saying whether the text or the
    value update of step `i` fails. */
module Scan {
  import opened Wrappers
  import opened Strings
  import opened Checks

  datatype Dialog = Dialog(textErr: nat -> Option<string>, valueErr: nat -> Option<string>)

  /** The progress text of step `i` (1-based) out of `total`. */
  function ProgressText(i: int, total: int): string {
    "Running check " + Itoa(i) + " of " + Itoa(total)
  }

  /** The progress value after step `i` (1-based) out of `total`: the
      percentage of checks done, rounded down. */
  function Percent(i: nat, total: nat): (p: nat)
    requires 0 < i <= total
    ensures p <= 100
    ensures p == 100 <==> i == total
  {
    PercentRange(i, total);
    i * 100 / total
  }

  lemma PercentRange(i: nat, total: nat)
    requires 0 < i <= total
    ensures i * 100 / total <= 100
    ensures i * 100 / total == 100 <==> i == total
  {
    var n := i * 100;
    var q := n / total;
    DivBounds(n, total);
    if i == total {
      assert (100 + 1) * total == 100 * total + total;
      QuotientUnique(n, total, 100);
    } else {
      MulMonotone(i + 1, total, 100);
      assert (i + 1) * 100 == n + 100;
      assert q * total < 100 * total;
      MulLessCancel(q, 100, total);
    }
  }

  /** The quotient brackets the dividend. */
  lemma DivBounds(n: nat, d: nat)
    requires d > 0
    ensures (n / d) * d <= n < (n / d + 1) * d
  {
    var q := n / d;
    var r := n % d;
    assert n == q * d + r;
    assert (q + 1) * d == q * d + d;
  }

  /** The only number bracketing `n` is its quotient. */
  lemma QuotientUnique(n: nat, d: nat, q: nat)
    requires d > 0 && q * d <= n < (q + 1) * d
    ensures n / d == q
  {
    var p := n / d;
    DivBounds(n, d);
    assert q * d < (p + 1) * d;
    MulLessCancel(q, p + 1, d);
    assert p * d < (q + 1) * d;
    MulLessCancel(p, q + 1, d);
  }

  lemma PercentMonotone(i: nat, j: nat, total: nat)
    requires 0 < i <= j <= total
    ensures Percent(i, total) <= Percent(j, total)
  {
    DivMonotone(i * 100, j * 100, total);
  }

  lemma DivMonotone(a: nat, b: nat, d: nat)
    requires a <= b && d > 0
    ensures a / d <= b / d
  {
    var qa := a / d;
    var qb := b / d;
    assert qa * d <= a;
    assert b < (qb + 1) * d;
    MulLessCancel(qa, qb + 1, d);
  }

  lemma MulLessCancel(x: nat, y: nat, d: nat)
    requires d > 0 && x * d < y * d
    ensures x < y
  {
    if y <= x {
      MulMonotone(y, x, d);
      assert false;
    }
  }

  lemma {:induction false} MulMonotone(x: nat, y: nat, d: nat)
    requires x <= y
    ensures x * d <= y * d
    decreases y - x
  {
    if x < y {
      MulMonotone(x + 1, y, d);
      assert (x + 1) * d == x * d + d;
    }
  }

  /** No dialog update before step `k` fails. */
  ghost predicate CleanUpTo(d: Dialog, k: nat) {
    forall i: nat :: i < k ==> d.textErr(i).None? && d.valueErr(i).None?
  }

  /** `Scan`: returns the results collected so far and the first dialog
      error; `texts` and `values` are the dialog updates issued. */
  method RunScan(checks: seq<Check>, d: Dialog)
    returns (results: seq<Check>, err: Option<string>, texts: seq<string>, values: seq<nat>)
    ensures |results| <= |checks| && results == checks[..|results|]
    ensures err.None? <==> CleanUpTo(d, |checks|)
    ensures err.None? ==> results == checks
    ensures err.Some? ==>
      var k := |results|;
      || (k < |checks| && CleanUpTo(d, k) && d.textErr(k) == err)
      || (k > 0 && CleanUpTo(d, k - 1) && d.textErr(k - 1).None? && d.valueErr(k - 1) == err)
    ensures |texts| == |results| || |texts| == |results| + 1
    ensures |values| == |results| || |values| + 1 == |results|
    ensures texts <= ProgressTexts(|checks|) && values <= Percents(|checks|)
  {
    var total := |checks|;
    ghost var allTexts := ProgressTexts(total);
    ghost var allValues := Percents(total);
    results := [];
    texts := [];
    values := [];
    err := None;
    var i := 0;
    while i < total
      invariant 0 <= i <= total
      invariant results == checks[..i]
      invariant texts == allTexts[..i] && values == allValues[..i]
      invariant CleanUpTo(d, i)
    {
      assert allTexts[..i + 1] == allTexts[..i] + [allTexts[i]];
      assert allValues[..i + 1] == allValues[..i] + [allValues[i]];
      texts := texts + [ProgressText(i + 1, total)];
      var e := d.textErr(i);
      if e.Some? {
        err := e;
        return;
      }
      results := results + [checks[i]];
      var progress := Percent(i + 1, total);
      values := values + [progress];
      e := d.valueErr(i);
      if e.Some? {
        err := e;
        assert results == checks[..i + 1];
        return;
      }
      i := i + 1;
    }
    assert checks[..total] == checks;
  }

  /** The progress texts of all `total` steps. */
  function ProgressTexts(total: nat): (r: seq<string>)
    ensures |r| == total
    ensures forall j :: 0 <= j < total ==> r[j] == ProgressText(j + 1, total)
  {
    seq(total, j requires 0 <= j < total => ProgressText(j + 1, total))
  }

  /** The progress values of all `total` steps. */
  function Percents(total: nat): (r: seq<nat>)
    ensures |r| == total
    ensures forall j :: 0 <= j < total ==> r[j] == Percent(j + 1, total)
  {
    seq(total, j requires 0 <= j < total => Percent(j + 1, total))
  }

  /** The progress values a complete scan shows rise step by step and end
      at 100. */
  lemma ProgressRisesToFull(values: seq<nat>, total: nat)
    requires total > 0 && |values| == total
    requires forall i :: 0 <= i < |values| ==> values[i] == Percent(i + 1, total)
    ensures forall i, j :: 0 <= i <= j < |values| ==> values[i] <= values[j]
    ensures values[total - 1] == 100
  {
    forall i, j | 0 <= i <= j < |values|
      ensures values[i] <= values[j]
    {
      PercentMonotone(i + 1, j + 1, total);
    }
  }
}
