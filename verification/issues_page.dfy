/** The issues overview page (`issues.js`): the risk label of a severity,
    filling the table of issues and the table of non-issues from the scan's
    results in the user's language, narrowing the issue table to the ticked
    risk levels, and sorting a table on a column. Rows are values; the DOM,
    the session storage and the settings file are not modelled. */
module IssuesPage {
  import opened Wrappers
  import opened Strings

  // ---------------------------------------------------------------------
  // `toRiskLevel`

  /** The label of a risk level: 0 to 4 name a level, anything else gives
      `undefined` (`None`). */
  function ToRiskLevel(level: int): (r: Option<string>)
    ensures r.Some? <==> 0 <= level <= 4
  {
    if level == 0 then Some("Acceptable")
    else if level == 1 then Some("Low")
    else if level == 2 then Some("Medium")
    else if level == 3 then Some("High")
    else if level == 4 then Some("Info")
    else None
  }

  /** Reading a label back: the inverse of `ToRiskLevel`. */
  function LevelOf(text: string): (r: Option<int>)
    ensures r.Some? ==> ToRiskLevel(r.value) == Some(text)
  {
    if text == "Acceptable" then Some(0)
    else if text == "Low" then Some(1)
    else if text == "Medium" then Some(2)
    else if text == "High" then Some(3)
    else if text == "Info" then Some(4)
    else None
  }

  /** Every level's label reads back as the level, so distinct levels have
      distinct labels. */
  lemma RiskLevelRoundTrip(level: int)
    requires 0 <= level <= 4
    ensures LevelOf(ToRiskLevel(level).value) == Some(level)
  {
  }

  /** What a table cell shows for a risk level: the label, or the text
      "undefined". */
  function RiskCell(level: int): string {
    match ToRiskLevel(level)
    case Some(text) => text
    case None => "undefined"
  }

  // ---------------------------------------------------------------------
  // `fillTable`

  /** One scan result as the page stores it. */
  datatype StoredIssue = StoredIssue(jsonkey: string, severity: int)

  /** The catalogue entry of an issue in one language. */
  datatype IssueText = IssueText(name: string, kind: string)

  type Catalogue = map<string, IssueText>

  /** The seven catalogues, in the order German, English (GB), English
      (US), Spanish, French, Dutch, Portuguese. */
  type Catalogues = c: seq<Catalogue> | |c| == 7 witness [map[], map[], map[], map[], map[], map[], map[]]

  const EnglishGB: nat := 1

  /** The catalogue for the user's language: a language from 0 to 6 picks
      its own, anything else (or no setting, `None`) English (GB). */
  function CatalogueFor(catalogues: Catalogues, language: Option<int>): (c: Catalogue)
    ensures language.Some? && 0 <= language.value <= 6 ==> c == catalogues[language.value]
    ensures !(language.Some? && 0 <= language.value <= 6) ==> c == catalogues[EnglishGB]
  {
    match language
    case Some(l) => if 0 <= l <= 6 then catalogues[l] else catalogues[EnglishGB]
    case None => catalogues[EnglishGB]
  }

  /** A table row: the issue key and severity the link carries, and the
      cells (name, type, and in the issue table the risk label). */
  datatype Row = Row(id: string, severity: int, cells: seq<string>)

  /** The row an issue gets in one of the two tables, if any: an issue
      whose key is in the catalogue goes to the issue table when its
      severity is not 0 and to the other table when it is. */
  function RowFor(issue: StoredIssue, catalogue: Catalogue, isIssue: bool): (r: Option<Row>)
    ensures r.Some? <==> issue.jsonkey in catalogue && (isIssue <==> issue.severity != 0)
    ensures r.Some? ==> r.value.id == issue.jsonkey && r.value.severity == issue.severity
    ensures r.Some? ==> |r.value.cells| == if isIssue then 3 else 2
  {
    if issue.jsonkey !in catalogue then None
    else
      var text := catalogue[issue.jsonkey];
      if isIssue then
        if issue.severity != 0 then Some(Row(issue.jsonkey, issue.severity, [text.name, text.kind, RiskCell(issue.severity)]))
        else None
      else
        if issue.severity == 0 then Some(Row(issue.jsonkey, issue.severity, [text.name, text.kind]))
        else None
  }

  /** `fillTable`: the rows of the issues that belong in the table, in
      scan order. */
  function FillTable(issues: seq<StoredIssue>, isIssue: bool, catalogue: Catalogue): (rows: seq<Row>)
    ensures |rows| <= |issues|
    decreases |issues|
  {
    if |issues| == 0 then []
    else
      var front := FillTable(issues[..|issues| - 1], isIssue, catalogue);
      match RowFor(issues[|issues| - 1], catalogue, isIssue)
      case None => front
      case Some(row) => front + [row]
  }

  /** The table follows the scan order: the rows of `a` come before those
      of `b`, and one issue gives its own row or nothing. */
  lemma {:induction false} FillTableAppend(a: seq<StoredIssue>, b: seq<StoredIssue>, isIssue: bool,
                                           catalogue: Catalogue)
    ensures FillTable(a + b, isIssue, catalogue) == FillTable(a, isIssue, catalogue) + FillTable(b, isIssue, catalogue)
    ensures |b| == 1 && RowFor(b[0], catalogue, isIssue).None? ==> FillTable(b, isIssue, catalogue) == []
    ensures |b| == 1 && RowFor(b[0], catalogue, isIssue).Some? ==>
      FillTable(b, isIssue, catalogue) == [RowFor(b[0], catalogue, isIssue).value]
    decreases |b|
  {
    if |b| == 0 {
      assert a + b == a;
    } else {
      var front := b[..|b| - 1];
      assert (a + b)[..|a + b| - 1] == a + front;
      assert (a + b)[|a + b| - 1] == b[|b| - 1];
      FillTableAppend(a, front, isIssue, catalogue);
      if |b| == 1 {
        assert front == [];
      }
    }
  }

  /** The table shows the issue: a row carries its key and severity. */
  predicate Shows(rows: seq<Row>, issue: StoredIssue) {
    exists k :: 0 <= k < |rows| && rows[k].id == issue.jsonkey && rows[k].severity == issue.severity
  }

  /** Every row of a filled table is the row of one of the issues. */
  lemma {:induction false} FillTableSound(issues: seq<StoredIssue>, isIssue: bool, catalogue: Catalogue, k: nat)
    requires k < |FillTable(issues, isIssue, catalogue)|
    ensures exists i :: 0 <= i < |issues| && RowFor(issues[i], catalogue, isIssue) == Some(FillTable(issues, isIssue, catalogue)[k])
    decreases |issues|
  {
    var p := issues[..|issues| - 1];
    var front := FillTable(p, isIssue, catalogue);
    if k < |front| {
      FillTableSound(p, isIssue, catalogue, k);
      var i :| 0 <= i < |p| && RowFor(p[i], catalogue, isIssue) == Some(front[k]);
      assert issues[i] == p[i];
    } else {
      assert RowFor(issues[|issues| - 1], catalogue, isIssue) == Some(FillTable(issues, isIssue, catalogue)[k]);
    }
  }

  /** Every issue that belongs in the table has its row there. */
  lemma {:induction false} FillTableComplete(issues: seq<StoredIssue>, isIssue: bool, catalogue: Catalogue, i: nat)
    requires i < |issues| && RowFor(issues[i], catalogue, isIssue).Some?
    ensures RowFor(issues[i], catalogue, isIssue).value in FillTable(issues, isIssue, catalogue)
    decreases |issues|
  {
    if i < |issues| - 1 {
      var p := issues[..|issues| - 1];
      assert issues[i] == p[i];
      FillTableComplete(p, isIssue, catalogue, i);
    }
  }

  /** An issue is shown in the issue table exactly when its key is in the
      catalogue and its severity is not 0, and in the other table exactly
      when its key is in the catalogue and its severity is 0: every known
      issue lands in one table, and unknown keys in neither. */
  lemma FillTablePartition(issues: seq<StoredIssue>, catalogue: Catalogue, i: nat)
    requires i < |issues|
    ensures Shows(FillTable(issues, true, catalogue), issues[i])
        <==> issues[i].jsonkey in catalogue && issues[i].severity != 0
    ensures Shows(FillTable(issues, false, catalogue), issues[i])
        <==> issues[i].jsonkey in catalogue && issues[i].severity == 0
  {
    ShowsExactly(issues, true, catalogue, i);
    ShowsExactly(issues, false, catalogue, i);
  }

  lemma ShowsExactly(issues: seq<StoredIssue>, isIssue: bool, catalogue: Catalogue, i: nat)
    requires i < |issues|
    ensures Shows(FillTable(issues, isIssue, catalogue), issues[i])
        <==> issues[i].jsonkey in catalogue && (isIssue <==> issues[i].severity != 0)
  {
    var rows := FillTable(issues, isIssue, catalogue);
    var issue := issues[i];
    if RowFor(issue, catalogue, isIssue).Some? {
      FillTableComplete(issues, isIssue, catalogue, i);
      var k :| 0 <= k < |rows| && rows[k] == RowFor(issue, catalogue, isIssue).value;
      assert rows[k].id == issue.jsonkey && rows[k].severity == issue.severity;
    }
    if Shows(rows, issue) {
      var k :| 0 <= k < |rows| && rows[k].id == issue.jsonkey && rows[k].severity == issue.severity;
      FillTableSound(issues, isIssue, catalogue, k);
      var j :| 0 <= j < |issues| && RowFor(issues[j], catalogue, isIssue) == Some(rows[k]);
      assert issues[j].jsonkey == issue.jsonkey && issues[j].severity == issue.severity;
    }
  }

  /** Counting: the two tables together hold one row per issue whose key
      is in the catalogue. */
  function KnownCount(issues: seq<StoredIssue>, catalogue: Catalogue): nat
    decreases |issues|
  {
    if |issues| == 0 then 0
    else KnownCount(issues[..|issues| - 1], catalogue) + (if issues[|issues| - 1].jsonkey in catalogue then 1 else 0)
  }

  lemma {:induction false} FillTableCounts(issues: seq<StoredIssue>, catalogue: Catalogue)
    ensures |FillTable(issues, true, catalogue)| + |FillTable(issues, false, catalogue)| == KnownCount(issues, catalogue)
    decreases |issues|
  {
    if |issues| > 0 {
      FillTableCounts(issues[..|issues| - 1], catalogue);
    }
  }

  /** The page's `fillTable` with the user's language. */
  function FillTableIn(issues: seq<StoredIssue>, isIssue: bool, catalogues: Catalogues, language: Option<int>)
    : seq<Row>
  {
    FillTable(issues, isIssue, CatalogueFor(catalogues, language))
  }

  // ---------------------------------------------------------------------
  // `changeTable`

  /** The four risk check boxes above the issue table. */
  datatype Selection = Selection(high: bool, medium: bool, low: bool, info: bool)

  /** The box for a severity is ticked: 1 low, 2 medium, 3 high, 4 info.
      Severity 0 and anything else has no box. */
  predicate Selected(sel: Selection, severity: int) {
    || (sel.low && severity == 1)
    || (sel.medium && severity == 2)
    || (sel.high && severity == 3)
    || (sel.info && severity == 4)
  }

  /** The stored issues whose severity's box is ticked, in order. */
  function FilterSelected(issues: seq<StoredIssue>, sel: Selection): (r: seq<StoredIssue>)
    ensures |r| <= |issues|
    ensures forall k :: 0 <= k < |r| ==> r[k] in issues && Selected(sel, r[k].severity)
    ensures forall k :: 0 <= k < |issues| && Selected(sel, issues[k].severity) ==> issues[k] in r
    decreases |issues|
  {
    if |issues| == 0 then []
    else
      var front := FilterSelected(issues[..|issues| - 1], sel);
      var last := issues[|issues| - 1];
      assert forall k :: 0 <= k < |issues| - 1 ==> issues[k] == issues[..|issues| - 1][k];
      if Selected(sel, last.severity) then front + [last] else front
  }

  /** `changeTable`: the issue table refilled with the issues whose risk
      level is ticked. No row has severity 0, and every row's severity is
      ticked. */
  function ChangeTable(issues: seq<StoredIssue>, sel: Selection, catalogues: Catalogues, language: Option<int>)
    : (rows: seq<Row>)
    ensures forall k :: 0 <= k < |rows| ==> 1 <= rows[k].severity <= 4 && Selected(sel, rows[k].severity)
    ensures forall i :: (0 <= i < |issues| && Selected(sel, issues[i].severity)
                         && issues[i].jsonkey in CatalogueFor(catalogues, language)) ==> Shows(rows, issues[i])
  {
    var kept := FilterSelected(issues, sel);
    var catalogue := CatalogueFor(catalogues, language);
    var rows := FillTableIn(kept, true, catalogues, language);
    forall k | 0 <= k < |rows|
      ensures 1 <= rows[k].severity <= 4 && Selected(sel, rows[k].severity)
    {
      FillTableSound(kept, true, catalogue, k);
    }
    forall i | 0 <= i < |issues| && Selected(sel, issues[i].severity) && issues[i].jsonkey in catalogue
      ensures Shows(rows, issues[i])
    {
      var j :| 0 <= j < |kept| && kept[j] == issues[i];
      ShowsExactly(kept, true, catalogue, j);
    }
    rows
  }

  // ---------------------------------------------------------------------
  // `sortTable`

  datatype Direction = Unset | Ascending | Descending

  /** Every sort flips the table's direction; an unsorted table is sorted
      ascending first. */
  function Flip(d: Direction): (r: Direction)
    ensures r != Unset && r != d
  {
    if d == Ascending then Descending else Ascending
  }

  /** Two sorts on a sorted table restore its direction. */
  lemma FlipTwice(d: Direction)
    requires d != Unset
    ensures Flip(Flip(d)) == d
  {
  }

  /** A comparison function in the manner of `Array.prototype.sort`:
      negative, zero or positive. */
  type Comparison = (Row, Row) -> int

  /** A comparison whose answer reverses when its arguments swap, as a
      consistent sort comparator must. */
  ghost predicate Consistent(cmp: Comparison) {
    forall a, b :: cmp(a, b) > 0 ==> cmp(b, a) < 0
  }

  /** Each row is ordered no later than the next. */
  ghost predicate SortedBy(rows: seq<Row>, cmp: Comparison) {
    forall k :: 0 <= k < |rows| - 1 ==> cmp(rows[k], rows[k + 1]) <= 0
  }

  /** `x` placed before the first row it does not follow. */
  function Insert(x: Row, rows: seq<Row>, cmp: Comparison): (r: seq<Row>)
    ensures multiset(r) == multiset(rows) + multiset{x}
    ensures |r| == |rows| + 1
    decreases |rows|
  {
    if |rows| == 0 || cmp(x, rows[0]) <= 0 then [x] + rows
    else
      assert rows == [rows[0]] + rows[1..];
      [rows[0]] + Insert(x, rows[1..], cmp)
  }

  lemma {:induction false} InsertSorted(x: Row, rows: seq<Row>, cmp: Comparison)
    requires Consistent(cmp) && SortedBy(rows, cmp)
    ensures SortedBy(Insert(x, rows, cmp), cmp)
    ensures |rows| > 0 ==> Insert(x, rows, cmp)[0] == x || Insert(x, rows, cmp)[0] == rows[0]
    decreases |rows|
  {
    if |rows| > 0 && cmp(x, rows[0]) > 0 {
      var t := rows[1..];
      assert SortedBy(t, cmp) by {
        forall k | 0 <= k < |t| - 1 ensures cmp(t[k], t[k + 1]) <= 0 {
          assert t[k] == rows[k + 1] && t[k + 1] == rows[k + 2];
        }
      }
      InsertSorted(x, t, cmp);
      var r := Insert(x, rows, cmp);
      assert r == [rows[0]] + Insert(x, t, cmp);
      forall k | 0 <= k < |r| - 1 ensures cmp(r[k], r[k + 1]) <= 0 {
        if k == 0 {
          if |t| > 0 && Insert(x, t, cmp)[0] == t[0] {
            assert r[1] == rows[1];
          } else {
            assert r[1] == x;
          }
        } else {
          assert r[k] == Insert(x, t, cmp)[k - 1] && r[k + 1] == Insert(x, t, cmp)[k];
        }
      }
    }
  }

  /** An insertion sort: each row goes before the first sorted row it
      does not follow. */
  function Sort(rows: seq<Row>, cmp: Comparison): (r: seq<Row>)
    ensures multiset(r) == multiset(rows)
    ensures |r| == |rows|
    decreases |rows|
  {
    if |rows| == 0 then []
    else
      assert rows == [rows[0]] + rows[1..];
      Insert(rows[0], Sort(rows[1..], cmp), cmp)
  }

  lemma {:induction false} SortSorted(rows: seq<Row>, cmp: Comparison)
    requires Consistent(cmp)
    ensures SortedBy(Sort(rows, cmp), cmp)
    decreases |rows|
  {
    if |rows| > 0 {
      SortSorted(rows[1..], cmp);
      InsertSorted(rows[0], Sort(rows[1..], cmp), cmp);
    }
  }

  /** The rank the risk column sorts by; `None` for a label outside the
      order, whose comparisons give `NaN`. */
  function RiskRank(text: string): (r: Option<int>)
    ensures r.Some? ==> 1 <= r.value <= 4
  {
    if text == "high" then Some(1)
    else if text == "medium" then Some(2)
    else if text == "low" then Some(3)
    else if text == "info" then Some(4)
    else None
  }

  /** A row's rank in the risk column (`0` when it has none). */
  function RowRank(row: Row): int {
    if |row.cells| > 2 && RiskRank(ToLower(row.cells[2])).Some? then RiskRank(ToLower(row.cells[2])).value else 0
  }

  /** Every row has a risk label the order knows. */
  predicate RiskRanked(rows: seq<Row>) {
    forall k :: 0 <= k < |rows| ==> |rows[k].cells| > 2 && RiskRank(ToLower(rows[k].cells[2])).Some?
  }

  /** The comparator for a column and direction. The text columns use the
      locale's collation `collate` (`localeCompare`) on the lower-cased
      cell texts; the risk column subtracts the ranks. */
  function ColumnComparison(column: nat, direction: Direction, collate: (string, string) -> int): Comparison {
    if column != 2 then
      if direction == Ascending then
        (a: Row, b: Row) => collate(Cell(a, column), Cell(b, column))
      else
        (a: Row, b: Row) => collate(Cell(b, column), Cell(a, column))
    else
      if direction == Ascending then
        (a: Row, b: Row) => RowRank(a) - RowRank(b)
      else
        (a: Row, b: Row) => RowRank(b) - RowRank(a)
  }

  /** The lower-cased text of a cell ("" when the row is shorter). */
  function Cell(row: Row, column: nat): string {
    if column < |row.cells| then ToLower(row.cells[column]) else ""
  }

  /** A collation whose answer reverses when its arguments swap. */
  ghost predicate ConsistentCollation(collate: (string, string) -> int) {
    forall a, b :: collate(a, b) > 0 ==> collate(b, a) < 0
  }

  lemma ColumnComparisonConsistent(column: nat, direction: Direction, collate: (string, string) -> int)
    requires ConsistentCollation(collate)
    ensures Consistent(ColumnComparison(column, direction, collate))
  {
    var cmp := ColumnComparison(column, direction, collate);
    forall a: Row, b: Row | cmp(a, b) > 0 ensures cmp(b, a) < 0 {
      if column != 2 {
        if direction == Ascending {
          assert cmp(a, b) == collate(Cell(a, column), Cell(b, column));
          assert cmp(b, a) == collate(Cell(b, column), Cell(a, column));
        } else {
          assert cmp(a, b) == collate(Cell(b, column), Cell(a, column));
          assert cmp(b, a) == collate(Cell(a, column), Cell(b, column));
        }
      }
    }
  }

  /** `sortTable`: the new direction and the rows reordered by the column.
      The risk column needs every row's label to be in the order (`NaN`
      comparisons leave the order to the engine). */
  function SortTable(rows: seq<Row>, column: nat, direction: Direction, collate: (string, string) -> int)
    : (r: (seq<Row>, Direction))
    requires column <= 2
    requires forall k :: 0 <= k < |rows| ==> column < |rows[k].cells|
    requires column == 2 ==> RiskRanked(rows)
    requires ConsistentCollation(collate)
    ensures r.1 == Flip(direction)
    ensures multiset(r.0) == multiset(rows) && |r.0| == |rows|
    ensures SortedBy(r.0, ColumnComparison(column, r.1, collate))
  {
    var d := Flip(direction);
    var cmp := ColumnComparison(column, d, collate);
    ColumnComparisonConsistent(column, d, collate);
    SortSorted(rows, cmp);
    (Sort(rows, cmp), d)
  }

  /** Adjacent order on a key extends to every pair. */
  lemma {:induction false} KeysOrdered(rows: seq<Row>, cmp: Comparison, key: Row -> int, i: nat, j: nat)
    requires SortedBy(rows, cmp)
    requires forall a, b :: cmp(a, b) == key(a) - key(b)
    requires i <= j < |rows|
    ensures key(rows[i]) <= key(rows[j])
    decreases j - i
  {
    if i < j {
      assert cmp(rows[i], rows[i + 1]) <= 0;
      KeysOrdered(rows, cmp, key, i + 1, j);
    }
  }

  /** The risk column compares ranks: ascending as they are, descending
      reversed. */
  lemma RiskComparison(direction: Direction, collate: (string, string) -> int)
    ensures direction == Ascending ==>
      forall a, b :: ColumnComparison(2, direction, collate)(a, b) == RowRank(a) - RowRank(b)
    ensures direction != Ascending ==>
      forall a, b :: ColumnComparison(2, direction, collate)(a, b) == -RowRank(a) - -RowRank(b)
  {
  }

  /** Sorting on the risk column ascending puts high before medium before
      low before info, and descending the reverse. */
  lemma RiskSortOrder(rows: seq<Row>, direction: Direction, collate: (string, string) -> int, i: nat, j: nat)
    requires forall k :: 0 <= k < |rows| ==> 2 < |rows[k].cells|
    requires RiskRanked(rows) && ConsistentCollation(collate)
    requires i <= j < |rows|
    ensures var r := SortTable(rows, 2, direction, collate);
      r.1 == Ascending ==> RowRank(r.0[i]) <= RowRank(r.0[j])
    ensures var r := SortTable(rows, 2, direction, collate);
      r.1 == Descending ==> RowRank(r.0[j]) <= RowRank(r.0[i])
  {
    var r := SortTable(rows, 2, direction, collate);
    var cmp := ColumnComparison(2, r.1, collate);
    RiskComparison(r.1, collate);
    if r.1 == Ascending {
      KeysOrdered(r.0, cmp, RowRank, i, j);
    } else {
      KeysOrdered(r.0, cmp, (a: Row) => -RowRank(a), i, j);
    }
  }

  /** The rank order is high, medium, low, info. */
  lemma RiskRanksOrdered()
    ensures RiskRank(ToLower("High")) == Some(1) && RiskRank(ToLower("Medium")) == Some(2)
    ensures RiskRank(ToLower("Low")) == Some(3) && RiskRank(ToLower("Info")) == Some(4)
    ensures RiskRank(ToLower("Acceptable")).None?
  {
    assert ToLower("High") == "high";
    assert ToLower("Medium") == "medium";
    assert ToLower("Low") == "low";
    assert ToLower("Info") == "info";
    assert ToLower("Acceptable")[0] == 'a';
  }

  /** The issue table after `changeTable` can always be sorted on the risk
      column: its severities are 1 to 4, whose labels are all in the
      order. */
  lemma ChangeTableRiskRanked(issues: seq<StoredIssue>, sel: Selection, catalogues: Catalogues, language: Option<int>)
    ensures RiskRanked(ChangeTable(issues, sel, catalogues, language))
  {
    var rows := ChangeTable(issues, sel, catalogues, language);
    var catalogue := CatalogueFor(catalogues, language);
    RiskRanksOrdered();
    forall k | 0 <= k < |rows|
      ensures |rows[k].cells| > 2 && RiskRank(ToLower(rows[k].cells[2])).Some?
    {
      var kept := FilterSelected(issues, sel);
      FillTableSound(kept, true, catalogue, k);
      var i :| 0 <= i < |kept| && RowFor(kept[i], catalogue, true) == Some(rows[k]);
      assert rows[k].cells[2] == RiskCell(kept[i].severity);
    }
  }
}
