/**
 * press_it end to end: the text box is split into lines, the lines are
 * parsed into records, the records are cleaned, and the cleaned table is
 * walked date by date into the report rows.
 */
module MileageReport {
  import opened Wrappers
  import opened Text
  import opened RecordParser
  import opened Normalizer
  import opened Distance
  import opened LegBuilder

  /** The report of one press of the button, or the error that ends the run. */
  function Report(text: string, chart: Chart): Result<seq<Leg>, RunError> {
    var rows :- Normalize(ParseRecords(SplitLines(text)));
    Legs(rows, chart)
  }

  /** The button handler, with the chart given and the spreadsheet left to the caller. */
  method PressIt(text: string, chart: Chart) returns (r: Result<seq<Leg>, RunError>)
    ensures r == Report(text, chart)
  {
    var inputText := SplitLines(text);
    var records := ParseLines(inputText);
    var cleaned := Normalize(records);
    if cleaned.Err? {
      return Err(cleaned.error);
    }
    r := BuildLegs(cleaned.value, chart);
  }

  /** A run fails with a parse error exactly when some date or time of some record does not parse. */
  lemma ReportParseError(text: string, chart: Chart)
    ensures var records := ParseRecords(SplitLines(text));
      (Report(text, chart).Err? && Report(text, chart).error.ParseError?) <==> !AllParse(records)
  {
    var records := ParseRecords(SplitLines(text));
    NormalizeMeets(records);
    if Normalize(records).Ok? && Legs(Normalize(records).value, chart).Err? {
      LegsErrorIsLookup(Normalize(records).value, chart);
    }
  }

  /** A run succeeds exactly when every record parses and every lookup the walk makes succeeds. */
  lemma ReportSucceeds(text: string, chart: Chart)
    ensures var records := ParseRecords(SplitLines(text));
      Report(text, chart).Ok?
      <==> Normalize(records).Ok?
           && forall date :: date in DateIns(Normalize(records).value)
                ==> LookupsSucceed(RowsOn(Normalize(records).value, date), chart)
  {
    var records := ParseRecords(SplitLines(text));
    if Normalize(records).Ok? {
      LegsOkIff(Normalize(records).value, chart);
    }
  }

  /**
   * The rows of a successful run: each is a recordable move between
   * consecutive visits of one date of the cleaned table, in date-group and
   * visit order, none is missing, and dates follow the calendar.
   */
  lemma ReportLegs(text: string, chart: Chart) returns (at: seq<(nat, nat)>)
    requires Report(text, chart).Ok?
    ensures Normalize(ParseRecords(SplitLines(text))).Ok?
    ensures var rows := Normalize(ParseRecords(SplitLines(text))).value;
      var dates := Unique(DateIns(rows));
      && Cleaned(rows)
      && (forall k :: 0 <= k < |rows| ==> rows[k].duration != "0:00")
      && Origins(Report(text, chart).value, at, rows, dates, chart, |dates|)
    ensures var rows, legs := Normalize(ParseRecords(SplitLines(text))).value, Report(text, chart).value;
      forall i, j :: 0 <= i < j < |legs| && legs[i].date != legs[j].date ==> DaysBefore(rows, legs[i].date, legs[j].date)
  {
    var records := ParseRecords(SplitLines(text));
    NormalizeMeets(records);
    var rows := Normalize(records).value;
    at := LegsAreGenuine(rows, chart);
    LegsChronological(rows, chart);
  }
}
