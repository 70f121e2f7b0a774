/**
 * The cleaning stage of press_it: the date and time columns of the parsed
 * records are converted the way pandas converts them, rows whose duration
 * reads "0:00" are dropped and the rest are sorted by the instant of entry.
 */
module Normalizer {
  import opened Wrappers
  import opened Calendar
  import opened TimestampText
  import opened RecordParser

  /** A cleaned row: the seven text columns, rewritten, and the two timestamp columns. */
  datatype Visit = Visit(
    branch: string,
    timeIn: string,     // "%I:%M %p"
    dateIn: string,     // "%Y-%m-%d"
    timeOut: string,
    dateOut: string,
    duration: string,
    length: string,
    entry: DateTime,    // datetime_in
    exit: DateTime)     // datetime_out

  /**
   * pd.to_datetime over one column: every text parsed in order; the first
   * text that does not parse raises, which ends the run.
   */
  function ParseColumn<T>(texts: seq<string>, parse: string -> Option<T>): (r: Result<seq<T>, RunError>)
    ensures r.Ok? <==> forall i :: 0 <= i < |texts| ==> parse(texts[i]).Some?
    ensures r.Ok? ==> |r.value| == |texts| && forall i :: 0 <= i < |texts| ==> parse(texts[i]) == Some(r.value[i])
    ensures r.Err? ==> r.error.ParseError?
  {
    if texts == [] then Ok([])
    else
      match parse(texts[0])
      case None => Err(ParseError(texts[0]))
      case Some(x) =>
        var rest :- ParseColumn(texts[1..], parse);
        Ok([x] + rest)
  }

  /** The error names the first text of the column that does not parse. */
  lemma {:induction false} ParseColumnReportsFirstFailure<T>(texts: seq<string>, parse: string -> Option<T>)
    requires ParseColumn(texts, parse).Err?
    ensures exists i :: 0 <= i < |texts| && parse(texts[i]).None?
                     && ParseColumn(texts, parse).error == ParseError(texts[i])
                     && forall j :: 0 <= j < i ==> parse(texts[j]).Some?
  {
    if parse(texts[0]).Some? {
      ParseColumnReportsFirstFailure(texts[1..], parse);
      var i :| 0 <= i < |texts[1..]| && parse(texts[1..][i]).None?
             && ParseColumn(texts[1..], parse).error == ParseError(texts[1..][i])
             && forall j :: 0 <= j < i ==> parse(texts[1..][j]).Some?;
      assert forall j :: 0 <= j < i + 1 ==> parse(texts[j]).Some? by {
        forall j | 0 <= j < i + 1 ensures parse(texts[j]).Some? {
          if j > 0 { assert texts[j] == texts[1..][j - 1]; }
        }
      }
      assert parse(texts[i + 1]).None?;
    } else {
      assert parse(texts[0]).None?;
    }
  }

  /** The three strptime formats the conversion reads with. */
  datatype Readers = Readers(
    dateTime: string -> Option<DateTime>,   // "%b %d, %Y %I:%M %p"
    date: string -> Option<Date>,           // "%b %d, %Y"
    time: string -> Option<Time>)           // "%I:%M %p"

  /** Readers that give only existing dates and times. */
  ghost predicate Sound(r: Readers) {
    && (forall s :: r.date(s).Some? ==> ValidDate(r.date(s).value))
    && (forall s :: r.time(s).Some? ==> ValidTime(r.time(s).value))
  }

  /** A date and a time that read alone read as one timestamp once joined by a space. */
  ghost predicate JoinsParts(r: Readers) {
    forall d, t :: r.date(d).Some? && r.time(t).Some? ==>
      r.dateTime(d + " " + t) == Some(DateTime(r.date(d).value, r.time(t).value))
  }

  const Strptime := Readers(ParseDateTime, ParseDate, ParseTime)

  lemma StrptimeIsSound()
    ensures Sound(Strptime) && JoinsParts(Strptime)
  {
    forall d, t | ParseDate(d).Some? && ParseTime(t).Some?
      ensures ParseDateTime(d + " " + t) == Some(DateTime(ParseDate(d).value, ParseTime(t).value))
    {
      ParseDateTimeOfParts(d, t);
    }
  }

  function EntryTexts(raws: seq<RawVisit>): (r: seq<string>)
    ensures |r| == |raws|
  {
    seq(|raws|, i requires 0 <= i < |raws| => raws[i].dateIn + " " + raws[i].timeIn)
  }

  function ExitTexts(raws: seq<RawVisit>): (r: seq<string>)
    ensures |r| == |raws|
  {
    seq(|raws|, i requires 0 <= i < |raws| => raws[i].dateOut + " " + raws[i].timeOut)
  }

  function DatesIn(raws: seq<RawVisit>): (r: seq<string>)
    ensures |r| == |raws|
  {
    seq(|raws|, i requires 0 <= i < |raws| => raws[i].dateIn)
  }

  function DatesOut(raws: seq<RawVisit>): (r: seq<string>)
    ensures |r| == |raws|
  {
    seq(|raws|, i requires 0 <= i < |raws| => raws[i].dateOut)
  }

  function TimesIn(raws: seq<RawVisit>): (r: seq<string>)
    ensures |r| == |raws|
  {
    seq(|raws|, i requires 0 <= i < |raws| => raws[i].timeIn)
  }

  function TimesOut(raws: seq<RawVisit>): (r: seq<string>)
    ensures |r| == |raws|
  {
    seq(|raws|, i requires 0 <= i < |raws| => raws[i].timeOut)
  }

  /**
   * The six conversions, one whole column at a time and in the order the
   * program performs them: both combined timestamps, then the two dates,
   * then the two times. Dates are rewritten as "%Y-%m-%d" and times as
   * "%I:%M %p".
   */
  function ConvertColumns(raws: seq<RawVisit>, read: Readers): (r: Result<seq<Visit>, RunError>)
    requires Sound(read)
    ensures r.Ok? ==> |r.value| == |raws|
    ensures r.Err? ==> r.error.ParseError?
  {
    var entries :- ParseColumn(EntryTexts(raws), read.dateTime);
    var exits :- ParseColumn(ExitTexts(raws), read.dateTime);
    var datesIn :- ParseColumn(DatesIn(raws), read.date);
    var datesOut :- ParseColumn(DatesOut(raws), read.date);
    var timesIn :- ParseColumn(TimesIn(raws), read.time);
    var timesOut :- ParseColumn(TimesOut(raws), read.time);
    Ok(seq(|raws|, i requires 0 <= i < |raws| =>
      Visit(raws[i].branch, Clock12(timesIn[i]), IsoDate(datesIn[i]), Clock12(timesOut[i]),
            IsoDate(datesOut[i]), raws[i].duration, raws[i].length, entries[i], exits[i])))
  }

  /** Whether every date and time text of a record reads on its own. */
  predicate RowParses(raw: RawVisit, read: Readers) {
    read.date(raw.dateIn).Some? && read.date(raw.dateOut).Some?
    && read.time(raw.timeIn).Some? && read.time(raw.timeOut).Some?
  }

  /** One record converted by itself: the reference the column-wise conversion is held to. */
  function ConvertRow(raw: RawVisit, read: Readers): (v: Visit)
    requires Sound(read) && RowParses(raw, read)
    ensures Consistent(v)
    ensures v.branch == raw.branch && v.duration == raw.duration && v.length == raw.length
  {
    var dateIn, dateOut := read.date(raw.dateIn).value, read.date(raw.dateOut).value;
    var timeIn, timeOut := read.time(raw.timeIn).value, read.time(raw.timeOut).value;
    Visit(raw.branch, Clock12(timeIn), IsoDate(dateIn), Clock12(timeOut), IsoDate(dateOut),
          raw.duration, raw.length, DateTime(dateIn, timeIn), DateTime(dateOut, timeOut))
  }

  /**
   * A record whose dates and times are written as the time clock writes them
   * converts to exactly the timestamps the texts name, and its date columns
   * are rewritten as "%Y-%m-%d" of those dates.
   */
  lemma ConvertRowOfText(raw: RawVisit, dIn: Date, tIn: Time, dOut: Date, tOut: Time)
    requires ValidDate(dIn) && ValidTime(tIn) && ValidDate(dOut) && ValidTime(tOut)
    requires raw.dateIn == DateText(dIn) && raw.timeIn == Clock12(tIn)
    requires raw.dateOut == DateText(dOut) && raw.timeOut == Clock12(tOut)
    ensures Sound(Strptime) && RowParses(raw, Strptime)
    ensures var v := ConvertRow(raw, Strptime);
      && v.entry == DateTime(dIn, tIn) && v.exit == DateTime(dOut, tOut)
      && v.dateIn == IsoDate(dIn) && v.dateOut == IsoDate(dOut)
  {
    StrptimeIsSound();
    ParseDateOfDateText(dIn);
    ParseDateOfDateText(dOut);
    ParseTimeOfClock12(tIn);
    ParseTimeOfClock12(tOut);
  }

  /** The text columns of a cleaned row are the renderings of its timestamps. */
  predicate Consistent(v: Visit) {
    ValidDateTime(v.entry) && ValidDateTime(v.exit)
    && v.dateIn == IsoDate(v.entry.date) && v.timeIn == Clock12(v.entry.time)
    && v.dateOut == IsoDate(v.exit.date) && v.timeOut == Clock12(v.exit.time)
  }

  /** When every record reads, each column converts and the rows are the records converted one by one. */
  lemma ConvertColumnsOk(raws: seq<RawVisit>, read: Readers)
    requires Sound(read) && JoinsParts(read)
    requires forall i :: 0 <= i < |raws| ==> RowParses(raws[i], read)
    ensures ConvertColumns(raws, read).Ok?
    ensures forall i :: 0 <= i < |raws| ==> ConvertColumns(raws, read).value[i] == ConvertRow(raws[i], read)
  {
    TimestampColumnsRead(raws, read);
    DateColumnsRead(raws, read);
    TimeColumnsRead(raws, read);
  }

  lemma TimestampColumnsRead(raws: seq<RawVisit>, read: Readers)
    requires Sound(read) && JoinsParts(read)
    requires forall i :: 0 <= i < |raws| ==> RowParses(raws[i], read)
    ensures forall i :: 0 <= i < |raws| ==> read.dateTime(EntryTexts(raws)[i]) == Some(ConvertRow(raws[i], read).entry)
    ensures forall i :: 0 <= i < |raws| ==> read.dateTime(ExitTexts(raws)[i]) == Some(ConvertRow(raws[i], read).exit)
  {
  }

  lemma DateColumnsRead(raws: seq<RawVisit>, read: Readers)
    requires forall i :: 0 <= i < |raws| ==> RowParses(raws[i], read)
    ensures forall i :: 0 <= i < |raws| ==> read.date(DatesIn(raws)[i]) == read.date(raws[i].dateIn)
    ensures forall i :: 0 <= i < |raws| ==> read.date(DatesOut(raws)[i]) == read.date(raws[i].dateOut)
    ensures ParseColumn(DatesIn(raws), read.date).Ok? && ParseColumn(DatesOut(raws), read.date).Ok?
  {
    assert forall i :: 0 <= i < |raws| ==> DatesIn(raws)[i] == raws[i].dateIn;
    assert forall i :: 0 <= i < |raws| ==> DatesOut(raws)[i] == raws[i].dateOut;
  }

  lemma TimeColumnsRead(raws: seq<RawVisit>, read: Readers)
    requires forall i :: 0 <= i < |raws| ==> RowParses(raws[i], read)
    ensures forall i :: 0 <= i < |raws| ==> read.time(TimesIn(raws)[i]) == read.time(raws[i].timeIn)
    ensures forall i :: 0 <= i < |raws| ==> read.time(TimesOut(raws)[i]) == read.time(raws[i].timeOut)
    ensures ParseColumn(TimesIn(raws), read.time).Ok? && ParseColumn(TimesOut(raws), read.time).Ok?
  {
    assert forall i :: 0 <= i < |raws| ==> TimesIn(raws)[i] == raws[i].timeIn;
    assert forall i :: 0 <= i < |raws| ==> TimesOut(raws)[i] == raws[i].timeOut;
  }

  /** Malformed dates abort the run: a record whose date or time does not read fails the conversion. */
  lemma ConvertColumnsFails(raws: seq<RawVisit>, read: Readers, i: nat)
    requires Sound(read)
    requires i < |raws| && !RowParses(raws[i], read)
    ensures ConvertColumns(raws, read).Err?
  {
    if read.date(raws[i].dateIn).None? {
      assert read.date(DatesIn(raws)[i]).None?;
    } else if read.date(raws[i].dateOut).None? {
      assert read.date(DatesOut(raws)[i]).None?;
    } else if read.time(raws[i].timeIn).None? {
      assert read.time(TimesIn(raws)[i]).None?;
    } else {
      assert read.time(TimesOut(raws)[i]).None?;
    }
  }

  /** mileageDF.loc[mileageDF["duration"] != "0:00"]: the rows kept, in order. */
  function DropZeroDuration(visits: seq<Visit>): (r: seq<Visit>)
    ensures forall k :: 0 <= k < |r| ==> r[k].duration != "0:00"
    ensures forall v :: multiset(r)[v] == if v.duration == "0:00" then 0 else multiset(visits)[v]
  {
    if visits == [] then []
    else
      assert visits == [visits[0]] + visits[1..];
      var rest := DropZeroDuration(visits[1..]);
      if visits[0].duration == "0:00" then rest else [visits[0]] + rest
  }

  /** The sort key of sort_values(by="datetime_in"): the entry instant in minutes. */
  function EntryKey(v: Visit): int {
    Instant(v.entry)
  }

  predicate SortedBy<T>(visits: seq<T>, key: T -> int) {
    forall i, j :: 0 <= i < j < |visits| ==> key(visits[i]) <= key(visits[j])
  }

  predicate EntrySorted(visits: seq<Visit>) {
    SortedBy(visits, EntryKey)
  }

  function InsertBy<T>(v: T, sorted: seq<T>, key: T -> int): (r: seq<T>)
    requires SortedBy(sorted, key)
    ensures SortedBy(r, key)
    ensures multiset(r) == multiset(sorted) + multiset{v}
  {
    if sorted == [] then [v]
    else if key(v) <= key(sorted[0]) then
      ConsSorted(v, sorted, key);
      [v] + sorted
    else
      assert sorted == [sorted[0]] + sorted[1..];
      var rest := InsertBy(v, sorted[1..], key);
      KeptAbove(sorted[0], v, sorted[1..], rest, key);
      ConsSorted(sorted[0], rest, key);
      [sorted[0]] + rest
  }

  /** A row no later than the first of a sorted table may go in front of it. */
  lemma ConsSorted<T>(x: T, rest: seq<T>, key: T -> int)
    requires SortedBy(rest, key)
    requires forall k :: 0 <= k < |rest| ==> key(x) <= key(rest[k])
    ensures SortedBy([x] + rest, key)
  {
    assert forall k :: 0 <= k < |rest| ==> ([x] + rest)[k + 1] == rest[k];
  }

  /** Rows drawn from a table and one more row, all no earlier than `low`, stay no earlier than `low`. */
  lemma KeptAbove<T>(first: T, v: T, tail: seq<T>, rest: seq<T>, key: T -> int)
    requires SortedBy([first] + tail, key) && key(first) < key(v)
    requires multiset(rest) == multiset(tail) + multiset{v}
    ensures forall k :: 0 <= k < |rest| ==> key(first) <= key(rest[k])
  {
    forall k | 0 <= k < |rest|
      ensures key(first) <= key(rest[k])
    {
      assert rest[k] in multiset(rest);
      if rest[k] != v {
        assert multiset(tail)[rest[k]] > 0;
        assert rest[k] in tail;
        assert ([first] + tail)[0] == first;
        var j :| 0 <= j < |tail| && tail[j] == rest[k];
        assert ([first] + tail)[j + 1] == tail[j];
      }
    }
  }

  /** The rows rearranged so that `key` never decreases: an insertion sort. */
  function SortBy<T>(visits: seq<T>, key: T -> int): (r: seq<T>)
    ensures SortedBy(r, key)
    ensures multiset(r) == multiset(visits)
  {
    if visits == [] then []
    else
      assert visits == [visits[0]] + visits[1..];
      InsertBy(visits[0], SortBy(visits[1..], key), key)
  }

  /**
   * sort_values(by="datetime_in"): the rows rearranged so that entry times
   * never decrease. Rows with equal entry times may come out in any order
   * in the program; here they keep their order.
   */
  function SortByEntry(visits: seq<Visit>): (r: seq<Visit>)
    ensures EntrySorted(r)
    ensures multiset(r) == multiset(visits)
  {
    SortBy(visits, EntryKey)
  }

  /** The whole cleaning stage. */
  function Normalize(raws: seq<RawVisit>): (r: Result<seq<Visit>, RunError>)
    ensures r.Err? ==> r.error.ParseError?
    ensures r.Ok? ==> EntrySorted(r.value)
  {
    StrptimeIsSound();
    var visits :- ConvertColumns(raws, Strptime);
    Ok(SortByEntry(DropZeroDuration(visits)))
  }

  /** Whether every date and time of every record parses. */
  predicate AllParse(raws: seq<RawVisit>) {
    forall i :: 0 <= i < |raws| ==> RowParses(raws[i], Strptime)
  }

  /** The rows each record turns into, when every record parses. */
  function ConvertRows(raws: seq<RawVisit>): (r: seq<Visit>)
    requires AllParse(raws)
    ensures |r| == |raws|
    ensures forall k :: 0 <= k < |r| ==> Consistent(r[k])
  {
    StrptimeIsSound();
    seq(|raws|, i requires 0 <= i < |raws| => ConvertRow(raws[i], Strptime))
  }

  /**
   * What the cleaning stage promises: it fails exactly when some date or
   * time does not parse; otherwise its rows are the converted records
   * without those lasting "0:00", each consistent with its timestamps, and
   * sorted by the instant of entry.
   */
  lemma NormalizeMeets(raws: seq<RawVisit>)
    ensures Normalize(raws).Ok? <==> AllParse(raws)
    ensures Normalize(raws).Err? ==> Normalize(raws).error.ParseError?
    ensures Normalize(raws).Ok? ==>
              var rows := Normalize(raws).value;
              && EntrySorted(rows)
              && (forall k :: 0 <= k < |rows| ==> rows[k].duration != "0:00" && Consistent(rows[k]))
              && forall v :: multiset(rows)[v] == if v.duration == "0:00" then 0 else multiset(ConvertRows(raws))[v]
  {
    StrptimeIsSound();
    if AllParse(raws) {
      ConvertColumnsOk(raws, Strptime);
      var converted := ConvertColumns(raws, Strptime).value;
      assert converted == ConvertRows(raws);
      var kept := DropZeroDuration(converted);
      var rows := SortByEntry(kept);
      assert Normalize(raws) == Ok(rows);
      forall k | 0 <= k < |rows| ensures rows[k].duration != "0:00" && Consistent(rows[k]) {
        assert rows[k] in multiset(rows);
        assert rows[k] in multiset(kept);
        assert rows[k] in multiset(converted);
      }
    } else {
      var i :| 0 <= i < |raws| && !RowParses(raws[i], Strptime);
      ConvertColumnsFails(raws, Strptime, i);
    }
  }
}
