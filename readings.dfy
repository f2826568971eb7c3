/**
 * The reading-data part of `simulateCost` (src/lib/actions.ts): the grid of
 * cells, the search for the "Datos lecturas" section, the header row two
 * rows below it, the six consumption columns, and the per-period sums.
 */
module Readings {
  import opened Wrappers
  import opened Text
  import opened Numbers

  /**
   * A cell as the spreadsheet reader or the CSV parser delivers it: text, a
   * number, or nothing (an `undefined` hole in a spreadsheet row).
   */
  datatype Cell = Str(text: string) | Num(number: real) | Blank

  type Row = seq<Cell>
  type Grid = seq<Row>

  const SectionMarker: string := "Datos lecturas"

  /** The header row is this many rows below the marker row. */
  const HeaderOffset: nat := 2

  const ConsumptionLabels: seq<string> := [
    "Consumo Activa P1", "Consumo Activa P2", "Consumo Activa P3",
    "Consumo Activa P4", "Consumo Activa P5", "Consumo Activa P6"]

  /** A string cell whose text contains the marker (case-sensitive). */
  predicate IsMarkerCell(c: Cell) {
    c.Str? && Contains(c.text, SectionMarker)
  }

  predicate IsMarkerRow(row: Row) {
    exists j :: 0 <= j < |row| && IsMarkerCell(row[j])
  }

  function FindSectionFrom(g: Grid, k: nat): (r: Option<nat>)
    requires k <= |g|
    ensures r.Some? ==> k <= r.value < |g| && IsMarkerRow(g[r.value])
                        && forall j :: k <= j < r.value ==> !IsMarkerRow(g[j])
    ensures r.None? ==> forall j :: k <= j < |g| ==> !IsMarkerRow(g[j])
    decreases |g| - k
  {
    if k == |g| then None
    else if IsMarkerRow(g[k]) then Some(k)
    else FindSectionFrom(g, k + 1)
  }

  /** `rawData.findIndex(...)`: the first row holding a string cell that contains "Datos lecturas". */
  function FindSection(g: Grid): (r: Option<nat>)
    ensures r.Some? ==> r.value < |g| && IsMarkerRow(g[r.value])
                        && forall j :: 0 <= j < r.value ==> !IsMarkerRow(g[j])
    ensures r.None? <==> forall j :: 0 <= j < |g| ==> !IsMarkerRow(g[j])
  {
    FindSectionFrom(g, 0)
  }

  /**
   * `String(h).trim()` of a header cell, kept only for string cells: the
   * rendering of a number or of `undefined` is never one of the labels.
   */
  function HeaderLabel(c: Cell): Option<string> {
    match c
    case Str(s) => Some(Trim(s))
    case _ => None
  }

  function HeaderLabels(row: Row): (r: seq<Option<string>>)
    ensures |r| == |row| && forall j :: 0 <= j < |row| ==> r[j] == HeaderLabel(row[j])
  {
    seq(|row|, j requires 0 <= j < |row| => HeaderLabel(row[j]))
  }

  /** `headers.indexOf(wanted)`: the first position holding `wanted`, or `None` for -1. */
  function IndexOf(headers: seq<Option<string>>, wanted: string): (r: Option<nat>)
    ensures r.Some? ==> r.value < |headers| && headers[r.value] == Some(wanted)
                        && forall j :: 0 <= j < r.value ==> headers[j] != Some(wanted)
    ensures r.None? <==> forall j :: 0 <= j < |headers| ==> headers[j] != Some(wanted)
  {
    if headers == [] then None
    else if headers[0] == Some(wanted) then Some(0)
    else match IndexOf(headers[1..], wanted)
      case None => None
      case Some(i) => Some(i + 1)
  }

  /**
   * The six consumption columns, P1 first, each at the first header that
   * matches its label; `None` (the error path) as soon as one label is absent.
   */
  function ResolveColumns(headers: seq<Option<string>>): (r: Option<seq<nat>>)
    ensures r.None? <==> exists k :: 0 <= k < 6 && forall j :: 0 <= j < |headers| ==> headers[j] != Some(ConsumptionLabels[k])
    ensures r.Some? ==> |r.value| == 6 && forall k :: 0 <= k < 6 ==>
              r.value[k] < |headers| && headers[r.value[k]] == Some(ConsumptionLabels[k])
              && forall j :: 0 <= j < r.value[k] ==> headers[j] != Some(ConsumptionLabels[k])
  {
    if exists k :: 0 <= k < 6 && IndexOf(headers, ConsumptionLabels[k]).None? then None
    else
      assert forall k :: 0 <= k < 6 ==> IndexOf(headers, ConsumptionLabels[k]).Some?;
      var cols := seq(6, k requires 0 <= k < 6 => IndexOf(headers, ConsumptionLabels[k]).value);
      assert forall k :: 0 <= k < 6 ==> headers[cols[k]] == Some(ConsumptionLabels[k]);
      Some(cols)
  }

  /** `row[col]`, which is `undefined` past the end of the row. */
  function CellAt(row: Row, col: nat): Cell {
    if col < |row| then row[col] else Blank
  }

  /** JavaScript truthiness of a cell: a non-empty string or a non-zero number. */
  predicate Truthy(c: Cell): (b: bool)
    ensures !b <==> c == Str("") || c == Num(0.0) || c == Blank
  {
    match c
    case Str(s) => s != ""
    case Num(n) => n != 0.0
    case Blank => false
  }

  /** The loop's guard `!row || row.length === 0 || !row[0]` lets the row through. */
  predicate IsCounted(row: Row) {
    |row| > 0 && Truthy(row[0])
  }

  /**
   * `parseFloat(String(cell).replace(',', '.')) || 0`: the first comma of a
   * text becomes a decimal point; a number is itself; NaN and `undefined`
   * give 0.
   */
  function CellKwh(c: Cell): (r: real)
    ensures c.Blank? ==> r == 0.0
    ensures c.Num? ==> r == c.number
    ensures c.Str? ==> r == match ParseFloat(ReplaceFirst(c.text, ',', '.'))
                            case None => 0.0
                            case Some(v) => v
  {
    match c
    case Str(s) => ParseFloat(ReplaceFirst(s, ',', '.')).GetOr(0.0)
    case Num(n) => n
    case Blank => 0.0
  }

  /** A text cell of nothing but white space is NaN to `parseFloat`, so it counts as 0. */
  lemma WhiteTextCellIsZero(s: string)
    requires AllWhite(s)
    ensures CellKwh(Str(s)) == 0.0
  {
    assert forall i :: 0 <= i < |s| ==> s[i] != ',';
    assert ReplaceFirst(s, ',', '.') == s;
    assert TrimStart(s) == [];
  }

  /** What one data row adds to the total of the column `col`. */
  function RowKwh(row: Row, col: nat): real {
    if IsCounted(row) then CellKwh(CellAt(row, col)) else 0.0
  }

  /** The total of column `col` over `rows`: the sum of RowKwh, row by row. */
  function PeriodSum(rows: seq<Row>, col: nat): real {
    if rows == [] then 0.0 else PeriodSum(rows[..|rows| - 1], col) + RowKwh(rows[|rows| - 1], col)
  }

  /** The six period totals, P1 first. */
  function PeriodTotals(rows: seq<Row>, cols: seq<nat>): (r: seq<real>)
    requires |cols| == 6
    ensures |r| == 6 && forall k :: 0 <= k < 6 ==> r[k] == PeriodSum(rows, cols[k])
  {
    seq(6, k requires 0 <= k < 6 => PeriodSum(rows, cols[k]))
  }

  /** The loop over `dataRows` that accumulates the six totals, proved to compute PeriodTotals. */
  method SumPeriods(rows: seq<Row>, cols: seq<nat>) returns (totals: seq<real>)
    requires |cols| == 6
    ensures totals == PeriodTotals(rows, cols)
  {
    var p1, p2, p3, p4, p5, p6 := 0.0, 0.0, 0.0, 0.0, 0.0, 0.0;
    for i := 0 to |rows|
      invariant p1 == PeriodSum(rows[..i], cols[0]) && p2 == PeriodSum(rows[..i], cols[1])
      invariant p3 == PeriodSum(rows[..i], cols[2]) && p4 == PeriodSum(rows[..i], cols[3])
      invariant p5 == PeriodSum(rows[..i], cols[4]) && p6 == PeriodSum(rows[..i], cols[5])
    {
      var row := rows[i];
      assert rows[..i + 1][..i] == rows[..i];
      if |row| == 0 || !Truthy(row[0]) {
        continue;
      }
      p1 := p1 + CellKwh(CellAt(row, cols[0]));
      p2 := p2 + CellKwh(CellAt(row, cols[1]));
      p3 := p3 + CellKwh(CellAt(row, cols[2]));
      p4 := p4 + CellKwh(CellAt(row, cols[3]));
      p5 := p5 + CellKwh(CellAt(row, cols[4]));
      p6 := p6 + CellKwh(CellAt(row, cols[5]));
    }
    assert rows[..|rows|] == rows;
    totals := [p1, p2, p3, p4, p5, p6];
  }

  /** Totals are additive over a split of the data rows. */
  lemma {:induction false} PeriodSumAppend(a: seq<Row>, b: seq<Row>, col: nat)
    ensures PeriodSum(a + b, col) == PeriodSum(a, col) + PeriodSum(b, col)
  {
    if b == [] {
      assert a + b == a;
    } else {
      assert (a + b)[..|a + b| - 1] == a + b[..|b| - 1];
      PeriodSumAppend(a, b[..|b| - 1], col);
    }
  }

  /** The sum does not depend on the order of the rows: swapping two blocks keeps it. */
  lemma PeriodSumSwap(a: seq<Row>, b: seq<Row>, col: nat)
    ensures PeriodSum(a + b, col) == PeriodSum(b + a, col)
  {
    PeriodSumAppend(a, b, col);
    PeriodSumAppend(b, a, col);
  }

  /** A row that the guard skips, or whose cell is missing, adds exactly nothing. */
  lemma SkippedRowAddsNothing(rows: seq<Row>, row: Row, col: nat)
    requires !IsCounted(row) || col >= |row|
    ensures PeriodSum(rows + [row], col) == PeriodSum(rows, col)
  {
    assert (rows + [row])[..|rows|] == rows;
  }

  /** A cell whose text fails to parse adds exactly nothing. */
  lemma UnparsableCellAddsNothing(rows: seq<Row>, row: Row, col: nat)
    requires col < |row| && row[col].Str? && ParseFloat(ReplaceFirst(row[col].text, ',', '.')).None?
    ensures PeriodSum(rows + [row], col) == PeriodSum(rows, col)
  {
    assert (rows + [row])[..|rows|] == rows;
  }

  lemma ReplaceDecimalComma()
    ensures ReplaceFirst("12,5", ',', '.') == "12.5"
  {
    assert "12,5" == "12" + ([','] + "5");
    ReplaceFirstAfter("12", "5", ',', '.');
    assert "12" + (['.'] + "5") == "12.5";
  }

  lemma MantissaTwelveAndAHalf()
    ensures Mantissa("12", "5") == 12.5
  {
    assert "12"[..1] == "1";
    assert DigitsValue("12") == 12;
    assert DigitsValue("5") == 5;
  }

  lemma ParseTwelveAndAHalf()
    ensures ParseFloat("12.5") == Some(12.5)
  {
    var t := "12.5";
    assert t == "12" + ("." + ("5" + ""));
    assert LeadingWhite(t) == 0;
    assert TrimStart(t) == t && SkipSign(t) == t;
    DecimalMagnitude("12", "5", "");
    MantissaTwelveAndAHalf();
  }

  /** A decimal comma is read as a decimal point: "12,5" is 12.5 kWh. */
  lemma DecimalCommaCell()
    ensures CellKwh(Str("12,5")) == 12.5
  {
    ReplaceDecimalComma();
    ParseTwelveAndAHalf();
  }

  lemma ReplaceThousandsComma()
    ensures ReplaceFirst("1.234,56", ',', '.') == "1.234.56"
  {
    assert "1.234,56" == "1.234" + ([','] + "56");
    ReplaceFirstAfter("1.234", "56", ',', '.');
    assert "1.234" + (['.'] + "56") == "1.234.56";
  }

  lemma MantissaOnePointTwoThreeFour()
    ensures Mantissa("1", "234") == 1.234
  {
    assert "234"[..2] == "23" && "23"[..1] == "2";
    assert DigitsValue("234") == 234;
    assert DigitsValue("1") == 1;
    assert Pow10(3) == 1000;
  }

  lemma ParseOnePointTwoThreeFour()
    ensures ParseFloat("1.234.56") == Some(1.234)
  {
    var t := "1.234.56";
    assert t == "1" + ("." + ("234" + ".56"));
    assert LeadingWhite(t) == 0;
    assert TrimStart(t) == t && SkipSign(t) == t;
    DecimalMagnitude("1", "234", ".56");
    MantissaOnePointTwoThreeFour();
  }

  /**
   * Only the first comma is replaced and the dot is not a thousands
   * separator: "1.234,56" is read as 1.234 kWh, not 1234.56.
   */
  lemma ThousandsSeparatorCell()
    ensures CellKwh(Str("1.234,56")) == 1.234
  {
    ReplaceThousandsComma();
    ParseOnePointTwoThreeFour();
  }
}
