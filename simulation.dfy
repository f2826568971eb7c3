/**
 * `simulateCost` of src/lib/actions.ts without its form validation and its
 * calls to the text-generation service: the uploaded file becomes a grid,
 * the reading section is located, the six consumption columns summed, each
 * tariff rated, the costs ranked and the savings computed. Every thrown
 * error of the source is a `Failure` here, an unreadable workbook included;
 * no partial result is returned.
 */
module Simulation {
  import opened Wrappers
  import opened Csv
  import opened Decoding
  import opened Data
  import opened Readings
  import opened Rating
  import opened Ranking

  /** The error each `throw` of the pipeline stands for. */
  datatype Error =
    | CsvUndecodable             // every decoder left the text empty
    | SpreadsheetUnreadable      // `xlsx.read` throws on the file's bytes
    | NoSheet                    // the workbook has no first sheet
    | UnsupportedFormat          // neither CSV nor a spreadsheet
    | SectionNotFound            // no "Datos lecturas" row
    | HeaderRowMissing           // `rawData[headersRowIndex]` is undefined, so `.map` throws
    | ConsumptionColumnsMissing  // one of the six consumption labels is absent
    | ZeroConsumption            // `totalKwh === 0`
    | NoTariffs                  // `details[0]` is undefined, so `bestOption.name` throws

  /**
   * The uploaded file once the foreign decoders have run: for a CSV file the
   * outcome of each text decoder in order, for a spreadsheet its first sheet
   * as `sheet_to_json(sheet, { header: 1 })` gives it, if the workbook has one,
   * or a spreadsheet that `xlsx.read` cannot read.
   */
  datatype Upload =
    | CsvFile(attempts: seq<Option<string>>)
    | SpreadsheetFile(firstSheet: Option<Grid>)
    | UnreadableSpreadsheet
    | OtherFile

  const PeriodLabel: string := "Año Completo"

  /** The rows of `parseCsv`, every field a string cell. */
  function CsvGrid(rows: seq<seq<string>>): (g: Grid)
    ensures |g| == |rows| && forall i :: 0 <= i < |rows| ==> |g[i]| == |rows[i]|
    ensures forall i, j :: 0 <= i < |rows| && 0 <= j < |rows[i]| ==> g[i][j] == Str(rows[i][j])
  {
    seq(|rows|, i requires 0 <= i < |rows| => seq(|rows[i]|, j requires 0 <= j < |rows[i]| => Str(rows[i][j])))
  }

  /** The grid the pipeline works on, or the error that stops it before the section search. */
  function LoadGrid(u: Upload): (r: Result<Grid, Error>)
    ensures r == Failure(CsvUndecodable) <==> u.CsvFile? && ChosenText(u.attempts) == ""
    ensures r == Failure(SpreadsheetUnreadable) <==> u.UnreadableSpreadsheet?
    ensures r == Failure(NoSheet) <==> u == SpreadsheetFile(None)
    ensures r == Failure(UnsupportedFormat) <==> u.OtherFile?
    ensures r.Failure? ==> r.error in {CsvUndecodable, SpreadsheetUnreadable, NoSheet, UnsupportedFormat}
    ensures u.CsvFile? && r.Success? ==> r.value == CsvGrid(ParseCsv(ChosenText(u.attempts)))
    ensures u.SpreadsheetFile? && u.firstSheet.Some? ==> r == Success(u.firstSheet.value)
  {
    match u
    case CsvFile(attempts) =>
      var text := ChosenText(attempts);
      if text == "" then Failure(CsvUndecodable) else Success(CsvGrid(ParseCsv(text)))
    case SpreadsheetFile(sheet) =>
      if sheet.None? then Failure(NoSheet) else Success(sheet.value)
    case UnreadableSpreadsheet => Failure(SpreadsheetUnreadable)
    case OtherFile => Failure(UnsupportedFormat)
  }

  /** The rated tariffs, stably sorted by total cost and numbered from 1. */
  function Ranked(tariffs: seq<Tariff>, totals: seq<real>): seq<CompanyCost>
    requires |totals| == 6
  {
    AssignRanks(StableSort(RateAll(tariffs, totals)))
  }

  /** The result for the six period totals, or the error when they sum to zero or no tariff was given. */
  function Report(totals: seq<real>, tariffs: seq<Tariff>): (r: Result<SimulationResult, Error>)
    requires |totals| == 6
    ensures r.Failure? ==> r.error == ZeroConsumption || r.error == NoTariffs
    ensures r == Failure(ZeroConsumption) <==> Sum(totals) == 0.0
  {
    var totalKwh := TotalKwh(totals);
    if totalKwh == 0.0 then Failure(ZeroConsumption)
    else
      var details := Ranked(tariffs, totals);
      if |details| == 0 then Failure(NoTariffs)
      else
        var summary := Summary(totals[0], totals[1], totals[2], totals[3], totals[4], totals[5],
                               totalKwh, PeriodLabel, BestOption(details[0].name, Savings(details)));
        Success(SimulationResult(summary, details))
  }

  /** The data rows of the reading section: every row after the header row. */
  function DataRows(g: Grid, marker: nat): (r: seq<Row>)
    requires marker + HeaderOffset < |g|
    ensures |r| == |g| - (marker + HeaderOffset + 1)
    ensures forall k :: 0 <= k < |r| ==> r[k] == g[marker + HeaderOffset + 1 + k]
  {
    g[marker + HeaderOffset + 1..]
  }

  /** Where the reading section puts things: the marker row and the six consumption columns. */
  datatype Layout = Layout(marker: nat, columns: seq<nat>)

  /** The section search, the header row and the column lookup, or the error that stops them. */
  function Locate(g: Grid): (r: Result<Layout, Error>)
    ensures r.Success? ==> r.value.marker + HeaderOffset < |g| && |r.value.columns| == 6
    ensures r.Failure? ==> r.error == SectionNotFound || r.error == HeaderRowMissing || r.error == ConsumptionColumnsMissing
    ensures r.Success? ==> FindSection(g) == Some(r.value.marker)
                           && ResolveColumns(HeaderLabels(g[r.value.marker + HeaderOffset])) == Some(r.value.columns)
    ensures r == Failure(HeaderRowMissing) <==> FindSection(g).Some? && FindSection(g).value + HeaderOffset >= |g|
  {
    var found := FindSection(g);
    if found.None? then Failure(SectionNotFound)
    else if found.value + HeaderOffset >= |g| then Failure(HeaderRowMissing)
    else
      var columns := ResolveColumns(HeaderLabels(g[found.value + HeaderOffset]));
      if columns.None? then Failure(ConsumptionColumnsMissing)
      else Success(Layout(found.value, columns.value))
  }

  /** The pipeline from the grid on. */
  function Evaluate(g: Grid, tariffs: seq<Tariff>): Result<SimulationResult, Error> {
    match Locate(g)
    case Failure(e) => Failure(e)
    case Success(layout) => Report(PeriodTotals(DataRows(g, layout.marker), layout.columns), tariffs)
  }

  /** The whole simulation, as a function of the upload and the tariff list. */
  function Simulate(u: Upload, tariffs: seq<Tariff>): Result<SimulationResult, Error> {
    match LoadGrid(u)
    case Failure(e) => Failure(e)
    case Success(g) => Evaluate(g, tariffs)
  }

  /** The branch on the file kind, with the decoder loop for CSV files. */
  method ReadUpload(upload: Upload) returns (r: Result<Grid, Error>)
    ensures r == LoadGrid(upload)
  {
    match upload {
      case CsvFile(attempts) =>
        var decodedText := DecodeText(attempts);
        if decodedText == "" {
          return Failure(CsvUndecodable);
        }
        r := Success(CsvGrid(ParseCsv(decodedText)));
      case SpreadsheetFile(sheet) =>
        if sheet.None? {
          return Failure(NoSheet);
        }
        r := Success(sheet.value);
      case UnreadableSpreadsheet =>
        r := Failure(SpreadsheetUnreadable);
      case OtherFile =>
        r := Failure(UnsupportedFormat);
    }
  }

  /** Rating, the in-place sort, the ranks and the savings, proved to compute Report. */
  method RankTariffs(totals: seq<real>, tariffs: seq<Tariff>) returns (r: Result<SimulationResult, Error>)
    requires |totals| == 6
    ensures r == Report(totals, tariffs)
  {
    var totalKwh := TotalKwh(totals);
    if totalKwh == 0.0 {
      return Failure(ZeroConsumption);
    }
    var rated := RateAll(tariffs, totals);
    var sorting := new CompanyCost[|rated|](k requires 0 <= k < |rated| => rated[k]);
    assert sorting[..] == rated;
    SortByTotalCost(sorting);
    var details := AssignRanks(sorting[..]);
    assert details == Ranked(tariffs, totals);

    var userCurrentCost := FindByName(details, CurrentCompanyName);
    if |details| == 0 {
      return Failure(NoTariffs);
    }
    var savings := 0.0;
    if userCurrentCost.Some? {
      savings := details[userCurrentCost.value].totalCost - details[0].totalCost;
    }
    var floored := if savings > 0.0 then savings else 0.0;
    assert floored == Savings(details);
    var summary := Summary(totals[0], totals[1], totals[2], totals[3], totals[4], totals[5],
                           totalKwh, PeriodLabel, BestOption(details[0].name, floored));
    r := Success(SimulationResult(summary, details));
  }

  /** From the grid on: the section search, the summation loop and the ranking, proved to compute Evaluate. */
  method EvaluateGrid(rawData: Grid, tariffs: seq<Tariff>) returns (r: Result<SimulationResult, Error>)
    ensures r == Evaluate(rawData, tariffs)
  {
    var layout := Locate(rawData);
    if layout.Failure? {
      return Failure(layout.error);
    }
    var headersRowIndex := layout.value.marker + HeaderOffset;
    var totals := SumPeriods(rawData[headersRowIndex + 1..], layout.value.columns);
    r := RankTariffs(totals, tariffs);
  }

  /** `simulateCost` step by step, with its loops and its in-place sort, proved to compute Simulate. */
  method SimulateCost(upload: Upload, tariffs: seq<Tariff>) returns (r: Result<SimulationResult, Error>)
    ensures r == Simulate(upload, tariffs)
  {
    var loaded := ReadUpload(upload);
    if loaded.Failure? {
      return Failure(loaded.error);
    }
    r := EvaluateGrid(loaded.value, tariffs);
  }

  /** A cost with its rank cleared, to compare ranked costs with rated ones. */
  function Unranked(s: seq<CompanyCost>): (r: seq<CompanyCost>)
    ensures |r| == |s| && forall i :: 0 <= i < |s| ==> r[i] == s[i].(rank := 0)
  {
    seq(|s|, i requires 0 <= i < |s| => s[i].(rank := 0))
  }

  lemma UnrankedOfRanked(s: seq<CompanyCost>)
    requires forall i :: 0 <= i < |s| ==> s[i].rank == 0
    ensures Unranked(AssignRanks(s)) == s
  {
  }

  /**
   * The ranked list: one entry per tariff, nondecreasing in total cost, the
   * rank of each entry its position plus one, and, ranks aside, a
   * permutation of the rated list that keeps the input order among equal
   * costs.
   */
  lemma RankedIsStableSortedPermutation(tariffs:seq<Tariff>, totals: seq<real>)
    requires |totals| == 6
    ensures var details := Ranked(tariffs, totals);
      && |details| == |tariffs|
      && SortedByCost(details)
      && (forall i :: 0 <= i < |details| ==> details[i].rank == i + 1)
      && multiset(Unranked(details)) == multiset(RateAll(tariffs, totals))
      && forall v :: WithCost(Unranked(details), v) == WithCost(RateAll(tariffs, totals), v)
  {
    var rated := RateAll(tariffs, totals);
    var sorted := StableSort(rated);
    StableSortPermutes(rated);
    StableSortSorted(rated);
    forall v ensures WithCost(sorted, v) == WithCost(rated, v) {
      StableSortKeepsTies(rated, v);
    }
    assert |sorted| == |rated| by {
      assert |multiset(sorted)| == |multiset(rated)|;
    }
    forall i | 0 <= i < |sorted| ensures sorted[i].rank == 0 {
      assert sorted[i] in multiset(rated);
    }
    UnrankedOfRanked(sorted);
  }

  /** A successful report holds the ranked costs, the six totals, their nonzero sum and the name ranked first. */
  lemma ReportSummary(totals: seq<real>, tariffs: seq<Tariff>)
    requires |totals| == 6 && Report(totals, tariffs).Success?
    ensures var res := Report(totals, tariffs).value;
      && res.details == Ranked(tariffs, totals)
      && |res.details| == |tariffs| > 0
      && res.summary.totalKwh == Sum(totals) != 0.0
      && [res.summary.totalKwhP1, res.summary.totalKwhP2, res.summary.totalKwhP3,
          res.summary.totalKwhP4, res.summary.totalKwhP5, res.summary.totalKwhP6] == totals
      && res.summary.period == PeriodLabel
      && res.summary.bestOption.companyName == res.details[0].name
  {
    RankedIsStableSortedPermutation(tariffs, totals);
  }

  /** The best option of a ranked list costs no more than any entry, and the savings are measured from it. */
  lemma RankedSavings(tariffs: seq<Tariff>, totals: seq<real>)
    requires |totals| == 6 && |tariffs| > 0
    ensures var details := Ranked(tariffs, totals);
      && |details| > 0
      && (forall i :: 0 <= i < |details| ==> details[0].totalCost <= details[i].totalCost)
      && Savings(details) >= 0.0
      && match FindByName(details, CurrentCompanyName)
         case None => Savings(details) == 0.0
         case Some(c) =>
           && Savings(details) == details[c].totalCost - details[0].totalCost
           && forall j :: 0 <= j < |details| && details[j].name == CurrentCompanyName ==> details[c].totalCost <= details[j].totalCost
  {
    var details := Ranked(tariffs, totals);
    RankedIsStableSortedPermutation(tariffs, totals);
    if FindByName(details, CurrentCompanyName).Some? {
      SavingsOfSorted(details);
    }
  }

  /**
   * A successful report: the summary holds the six totals and their sum
   * (never zero), the best option is the entry ranked first and costs no
   * more than any other, and the savings are never negative: 0 without a
   * current company, otherwise the cost of its first (cheapest) entry minus
   * the best cost.
   */
  lemma ReportProperties(totals: seq<real>, tariffs: seq<Tariff>)
    requires |totals| == 6 && Report(totals, tariffs).Success?
    ensures var res := Report(totals, tariffs).value;
      var details := res.details;
      && details == Ranked(tariffs, totals)
      && |details| == |tariffs| > 0
      && res.summary.totalKwh == Sum(totals) != 0.0
      && [res.summary.totalKwhP1, res.summary.totalKwhP2, res.summary.totalKwhP3,
          res.summary.totalKwhP4, res.summary.totalKwhP5, res.summary.totalKwhP6] == totals
      && res.summary.period == PeriodLabel
      && res.summary.bestOption.companyName == details[0].name
      && (forall i :: 0 <= i < |details| ==> details[0].totalCost <= details[i].totalCost)
      && res.summary.bestOption.savings >= 0.0
      && match FindByName(details, CurrentCompanyName)
         case None => res.summary.bestOption.savings == 0.0
         case Some(c) =>
           && res.summary.bestOption.savings == details[c].totalCost - details[0].totalCost
           && forall j :: 0 <= j < |details| && details[j].name == CurrentCompanyName ==> details[c].totalCost <= details[j].totalCost
  {
    ReportSummary(totals, tariffs);
    RankedSavings(tariffs, totals);
    assert Report(totals, tariffs).value.summary.bestOption.savings == Savings(Ranked(tariffs, totals));
  }

  /** With a nonzero total, the report fails exactly when the tariff list is empty: `details[0]` is then undefined. */
  lemma NoTariffsIff(totals: seq<real>, tariffs: seq<Tariff>)
    requires |totals| == 6 && Sum(totals) != 0.0
    ensures Report(totals, tariffs) == Failure(NoTariffs) <==> tariffs == []
  {
    RankedIsStableSortedPermutation(tariffs, totals);
  }

  /** Only a grid with no marker row fails for want of the section. */
  lemma SectionNotFoundIff(g: Grid, tariffs: seq<Tariff>)
    ensures Evaluate(g, tariffs) == Failure(SectionNotFound) <==> forall j :: 0 <= j < |g| ==> !IsMarkerRow(g[j])
  {
  }

  /** The header-row error is raised exactly when the marker row is among the last two rows of the grid. */
  lemma HeaderRowMissingIff(g: Grid, tariffs: seq<Tariff>)
    ensures Evaluate(g, tariffs) == Failure(HeaderRowMissing)
            <==> FindSection(g).Some? && FindSection(g).value + HeaderOffset >= |g|
  {
    if Locate(g).Success? {
      var layout := Locate(g).value;
      assert Report(PeriodTotals(DataRows(g, layout.marker), layout.columns), tariffs) != Failure(HeaderRowMissing);
    }
  }

  /** Once the columns are located, zero consumption is reported exactly when the totals over the located data rows sum to 0. */
  lemma ZeroConsumptionIff(g: Grid, tariffs: seq<Tariff>)
    requires Locate(g).Success?
    ensures var layout := Locate(g).value;
      Evaluate(g, tariffs) == Failure(ZeroConsumption)
      <==> Sum(PeriodTotals(g[layout.marker + HeaderOffset + 1..], layout.columns)) == 0.0
  {
    var layout := Locate(g).value;
    assert DataRows(g, layout.marker) == g[layout.marker + HeaderOffset + 1..];
  }

  /** Once the header row exists, the columns error is raised exactly when one of the six labels is absent from it. */
  lemma ColumnsMissingIff(g: Grid, tariffs: seq<Tariff>, marker: nat)
    requires FindSection(g) == Some(marker) && marker + HeaderOffset < |g|
    ensures var headers := HeaderLabels(g[marker + HeaderOffset]);
      Evaluate(g, tariffs) == Failure(ConsumptionColumnsMissing)
      <==> exists k :: 0 <= k < 6 && forall j :: 0 <= j < |headers| ==> headers[j] != Some(ConsumptionLabels[k])
  {
    var columns := ResolveColumns(HeaderLabels(g[marker + HeaderOffset]));
    if columns.None? {
      assert Locate(g) == Failure(ConsumptionColumnsMissing);
    } else {
      var layout := Layout(marker, columns.value);
      assert Locate(g) == Success(layout);
      var report := Report(PeriodTotals(DataRows(g, marker), layout.columns), tariffs);
      assert Evaluate(g, tariffs) == report;
      assert report != Failure(ConsumptionColumnsMissing);
    }
  }

  /**
   * A successful evaluation went through the first marker row, a header row
   * two rows below it and six resolved columns, and its totals are the
   * column sums over exactly the rows after the header row.
   */
  lemma EvaluateSuccess(g: Grid, tariffs: seq<Tariff>)
    requires Evaluate(g, tariffs).Success?
    ensures Locate(g).Success?
    ensures var layout := Locate(g).value;
      && FindSection(g) == Some(layout.marker)
      && ResolveColumns(HeaderLabels(g[layout.marker + HeaderOffset])) == Some(layout.columns)
      && Evaluate(g, tariffs) == Report(PeriodTotals(g[layout.marker + HeaderOffset + 1..], layout.columns), tariffs)
  {
  }

  /** A CSV upload hands the section search only string cells, with no quotes and no surrounding white space. */
  lemma CsvCellsAreClean(attempts: seq<Option<string>>)
    requires LoadGrid(CsvFile(attempts)).Success?
    ensures var g := LoadGrid(CsvFile(attempts)).value;
      forall i, j :: 0 <= i < |g| && 0 <= j < |g[i]| ==> g[i][j].Str? && '"' !in g[i][j].text && Text.Trimmed(g[i][j].text)
  {
  }
}
