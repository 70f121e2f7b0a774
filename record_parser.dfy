/**
 * Stage 1 of the report: the line-buffer state machine that turns pasted
 * timeclock lines into seven-field visit records.
 */
module RecordParser {
  import opened Wrappers
  import opened Text

  /** One row of the raw visit table, columns in the source's order. */
  datatype RawVisit = RawVisit(
    branch: string, timeIn: string, dateIn: string,
    timeOut: string, dateOut: string, duration: string, length: string)

  function Fields(v: RawVisit): seq<string> {
    [v.branch, v.timeIn, v.dateIn, v.timeOut, v.dateOut, v.duration, v.length]
  }

  /** Assigning a seven-item list to a new row of the table. */
  function FromFields(f: seq<string>): (v: RawVisit)
    requires |f| == 7
    ensures Fields(v) == f
  {
    RawVisit(f[0], f[1], f[2], f[3], f[4], f[5], f[6])
  }

  /** A line with its tabs and newlines removed. */
  function CleanLine(line: string): string {
    Remove(Remove(line, '\t'), '\n')
  }

  /** A cleaned line holds no tab or newline, and a line without them is left as it is. */
  lemma CleanLineIsClean(line: string)
    ensures IsClean(CleanLine(line))
    ensures IsClean(line) ==> CleanLine(line) == line
  {
    RemoveKeepsOthers(line, '\t');
    RemoveKeepsOthers(Remove(line, '\t'), '\n');
  }

  predicate IsClean(line: string) {
    '\t' !in line && '\n' !in line
  }

  predicate IsNoise(line: string) {
    line in ["CST", "", "-"]
  }

  /** The last line of every entry carries the distance, "... miles". */
  predicate IsTerminator(line: string) {
    Contains(line, "miles")
  }

  /** What one input line does: the record it emits, if any, and the new buffer. */
  datatype Step = Step(emitted: seq<RawVisit>, buffer: seq<string>)

  function StepLine(buffer: seq<string>, raw: string): (r: Step)
    ensures IsNoise(CleanLine(raw)) ==> r == Step([], buffer)
    ensures IsTerminator(CleanLine(raw)) ==> r.buffer == []
    ensures |r.emitted| <= 1
    ensures r.emitted != [] ==>
              IsTerminator(CleanLine(raw)) && |buffer| == 6 && Fields(r.emitted[0]) == buffer + [CleanLine(raw)]
  {
    var line := CleanLine(raw);
    if IsNoise(line) then
      NoiseIsNotTerminator(line);
      Step([], buffer)
    else if IsTerminator(line) then
      var entry := buffer + [line];
      if |entry| == 7 then Step([FromFields(entry)], []) else Step([], [])
    else Step([], buffer + [line])
  }

  /** The records emitted and the buffer left over. */
  datatype Outcome = Outcome(records: seq<RawVisit>, buffer: seq<string>)

  /** Lines fed one at a time to `step`, starting from buffer `buffer`. */
  function RunSteps(step: (seq<string>, string) -> Step, buffer: seq<string>, lines: seq<string>): Outcome
    decreases |lines|
  {
    if lines == [] then Outcome([], buffer)
    else
      var s := step(buffer, lines[0]);
      var rest := RunSteps(step, s.buffer, lines[1..]);
      Outcome(s.emitted + rest.records, rest.buffer)
  }

  /** The parser run over `lines`, starting from buffer `buffer`. */
  function Run(buffer: seq<string>, lines: seq<string>): Outcome {
    RunSteps(StepLine, buffer, lines)
  }

  function ParseRecords(lines: seq<string>): seq<RawVisit> {
    Run([], lines).records
  }

  /** A pending buffer holds only clean, non-noise, non-terminator lines. */
  predicate BufferOk(buffer: seq<string>) {
    forall i :: 0 <= i < |buffer| ==>
      IsClean(buffer[i]) && !IsNoise(buffer[i]) && !IsTerminator(buffer[i])
  }

  /** The shape of every emitted record. */
  predicate WellFormed(v: RawVisit) {
    var f := Fields(v);
    (forall i :: 0 <= i < 7 ==> IsClean(f[i]) && !IsNoise(f[i]))
    && (forall i :: 0 <= i < 6 ==> !IsTerminator(f[i]))
    && IsTerminator(f[6])
  }

  /** The number of lines that end an entry. */
  function TerminatorCount(lines: seq<string>): nat {
    if lines == [] then 0
    else (if IsTerminator(CleanLine(lines[0])) then 1 else 0) + TerminatorCount(lines[1..])
  }

  lemma NoiseIsNotTerminator(line: string)
    requires IsNoise(line)
    ensures !IsTerminator(line)
  {
  }

  /** The parser loop of `press_it`, with `timeEntry` as its buffer. */
  method ParseLines(lines: seq<string>) returns (records: seq<RawVisit>)
    ensures records == ParseRecords(lines)
    ensures forall k :: 0 <= k < |records| ==> WellFormed(records[k])
    ensures |records| <= TerminatorCount(lines)
  {
    var timeEntry: seq<string> := [];
    records := [];
    for i := 0 to |lines|
      invariant Run([], lines[..i]) == Outcome(records, timeEntry)
    {
      RunSnoc(lines, i);
      var line := CleanLine(lines[i]);
      if IsNoise(line) {
        continue;
      }
      if IsTerminator(line) {
        timeEntry := timeEntry + [line];
        if |timeEntry| == 7 {
          records := records + [FromFields(timeEntry)];
          timeEntry := [];
        } else {
          timeEntry := [];
          continue;
        }
      } else {
        timeEntry := timeEntry + [line];
      }
    }
    assert lines[..|lines|] == lines;
    RecordsAreWellFormed([], lines);
    RecordsAtMostTerminators([], lines);
  }

  /** The state after `i + 1` lines is one step from the state after `i`. */
  lemma RunSnoc(lines: seq<string>, i: nat)
    requires i < |lines|
    ensures var before := Run([], lines[..i]);
            var step := StepLine(before.buffer, lines[i]);
            Run([], lines[..i + 1]) == Outcome(before.records + step.emitted, step.buffer)
  {
    assert lines[..i + 1] == lines[..i] + [lines[i]];
    RunAppend([], lines[..i], [lines[i]]);
    RunSingle(Run([], lines[..i]).buffer, lines[i]);
  }

  lemma RunSingle(buffer: seq<string>, line: string)
    ensures Run(buffer, [line]) == Outcome(StepLine(buffer, line).emitted, StepLine(buffer, line).buffer)
  {
    var s := StepLine(buffer, line);
    assert [line][1..] == [];
    assert RunSteps(StepLine, s.buffer, []) == Outcome([], s.buffer);
    assert s.emitted + [] == s.emitted;
  }

  /** Running over `a + b` is running over `a`, then over `b` from where `a` left the buffer. */
  lemma RunAppend(buffer: seq<string>, a: seq<string>, b: seq<string>)
    ensures var first := Run(buffer, a);
            var second := Run(first.buffer, b);
            Run(buffer, a + b) == Outcome(first.records + second.records, second.buffer)
  {
    StepsAppend(StepLine, buffer, a, b);
  }

  lemma {:induction false} StepsAppend(step: (seq<string>, string) -> Step, buffer: seq<string>,
                                       a: seq<string>, b: seq<string>)
    decreases |a|
    ensures var first := RunSteps(step, buffer, a);
            var second := RunSteps(step, first.buffer, b);
            RunSteps(step, buffer, a + b) == Outcome(first.records + second.records, second.buffer)
  {
    if a == [] {
      assert a + b == b;
    } else {
      assert (a + b)[0] == a[0] && (a + b)[1..] == a[1..] + b;
      var s := step(buffer, a[0]);
      StepsAppend(step, s.buffer, a[1..], b);
      var first := RunSteps(step, s.buffer, a[1..]);
      var second := RunSteps(step, first.buffer, b);
      assert s.emitted + (first.records + second.records) == s.emitted + first.records + second.records;
    }
  }

  /** A noise line anywhere in the input changes nothing. */
  lemma NoiseIsIgnored(buffer: seq<string>, a: seq<string>, noise: string, b: seq<string>)
    requires IsNoise(CleanLine(noise))
    ensures Run(buffer, a + [noise] + b) == Run(buffer, a + b)
  {
    var mid := Run(buffer, a).buffer;
    RunAppend(buffer, a, [noise] + b);
    RunAppend(buffer, a, b);
    assert a + [noise] + b == a + ([noise] + b);
    assert ([noise] + b)[0] == noise && ([noise] + b)[1..] == b;
    assert StepLine(mid, noise) == Step([], mid);
    assert Run(mid, [noise] + b) == Run(mid, b);
  }

  /**
   * A terminator line always leaves the buffer empty, and emits one record
   * exactly when the buffer with it holds seven lines.
   */
  lemma TerminatorRule(buffer: seq<string>, a: seq<string>, t: string)
    requires IsTerminator(CleanLine(t))
    ensures var before := Run(buffer, a);
            var after := Run(buffer, a + [t]);
            after.buffer == []
            && after.records == before.records
                 + (if |before.buffer| == 6 then [FromFields(before.buffer + [CleanLine(t)])] else [])
  {
    RunAppend(buffer, a, [t]);
    RunSingle(Run(buffer, a).buffer, t);
    if IsNoise(CleanLine(t)) {
      NoiseIsNotTerminator(CleanLine(t));
    }
  }

  /** Lines without a terminator never emit: a trailing partial entry is lost. */
  lemma {:induction false} NoTerminatorNoRecords(buffer: seq<string>, b: seq<string>)
    requires forall i :: 0 <= i < |b| ==> !IsTerminator(CleanLine(b[i]))
    ensures Run(buffer, b).records == []
    decreases |b|
  {
    if b != [] {
      NoTerminatorNoRecords(StepLine(buffer, b[0]).buffer, b[1..]);
    }
  }

  lemma TrailingEntryDropped(a: seq<string>, b: seq<string>)
    requires forall i :: 0 <= i < |b| ==> !IsTerminator(CleanLine(b[i]))
    ensures ParseRecords(a + b) == ParseRecords(a)
  {
    RunAppend([], a, b);
    NoTerminatorNoRecords(Run([], a).buffer, b);
  }

  /** Every emitted record has the shape of a complete entry; the buffer keeps its invariant. */
  lemma {:induction false} RecordsAreWellFormed(buffer: seq<string>, lines: seq<string>)
    requires BufferOk(buffer)
    ensures forall k :: 0 <= k < |Run(buffer, lines).records| ==> WellFormed(Run(buffer, lines).records[k])
    ensures BufferOk(Run(buffer, lines).buffer)
    decreases |lines|
  {
    if lines != [] {
      var line := CleanLine(lines[0]);
      CleanLineIsClean(lines[0]);
      var s := StepLine(buffer, lines[0]);
      if !IsNoise(line) && IsTerminator(line) && |buffer| == 6 {
        var f := Fields(s.emitted[0]);
        assert f == buffer + [line];
        assert f[6] == line;
      }
      assert BufferOk(s.buffer);
      RecordsAreWellFormed(s.buffer, lines[1..]);
    }
  }

  /** There are never more records than terminator lines. */
  lemma {:induction false} RecordsAtMostTerminators(buffer: seq<string>, lines: seq<string>)
    ensures |Run(buffer, lines).records| <= TerminatorCount(lines)
    decreases |lines|
  {
    if lines != [] {
      if IsNoise(CleanLine(lines[0])) {
        NoiseIsNotTerminator(CleanLine(lines[0]));
      }
      RecordsAtMostTerminators(StepLine(buffer, lines[0]).buffer, lines[1..]);
    }
  }
  // An independent reading of the input format: the entries are the runs of
  // significant lines that end at a terminator, and a record is an entry of
  // exactly seven lines.

  /** The cleaned lines that are not noise, in input order. */
  function Significant(lines: seq<string>): seq<string> {
    if lines == [] then []
    else
      var line := CleanLine(lines[0]);
      (if IsNoise(line) then [] else [line]) + Significant(lines[1..])
  }

  /** The position of the first terminator, or `|sig|` when there is none. */
  function FirstTerminator(sig: seq<string>): (k: nat)
    ensures k <= |sig|
    ensures forall i :: 0 <= i < k ==> !IsTerminator(sig[i])
    ensures k < |sig| ==> IsTerminator(sig[k])
  {
    if sig == [] || IsTerminator(sig[0]) then 0 else 1 + FirstTerminator(sig[1..])
  }

  /** The entries of `sig`, each ending with its terminator; an unterminated tail is no entry. */
  function Entries(sig: seq<string>): seq<seq<string>>
    decreases |sig|
  {
    var k := FirstTerminator(sig);
    if k == |sig| then [] else [sig[..k + 1]] + Entries(sig[k + 1..])
  }

  /** The entries of exactly seven lines, as records. */
  function CompleteRecords(entries: seq<seq<string>>): seq<RawVisit> {
    if entries == [] then []
    else (if |entries[0]| == 7 then [FromFields(entries[0])] else []) + CompleteRecords(entries[1..])
  }

  lemma EntriesSplit(buffer: seq<string>, t: string, rest: seq<string>)
    requires forall i :: 0 <= i < |buffer| ==> !IsTerminator(buffer[i])
    requires IsTerminator(t)
    ensures Entries(buffer + [t] + rest) == [buffer + [t]] + Entries(rest)
  {
    var sig := buffer + [t] + rest;
    assert sig[|buffer|] == t;
    assert FirstTerminator(sig) == |buffer|;
    assert sig[..|buffer| + 1] == buffer + [t];
    assert sig[|buffer| + 1..] == rest;
  }

  /** The parser emits exactly the complete entries of the input, in order. */
  lemma {:induction false} RunKeepsCompleteEntries(buffer: seq<string>, lines: seq<string>)
    requires forall i :: 0 <= i < |buffer| ==> !IsTerminator(buffer[i])
    ensures Run(buffer, lines).records == CompleteRecords(Entries(buffer + Significant(lines)))
    decreases |lines|, 1
  {
    if lines == [] {
      assert buffer + [] == buffer;
      assert FirstTerminator(buffer) == |buffer|;
    } else if IsNoise(CleanLine(lines[0])) {
      NoiseKeepsEntries(buffer, lines);
    } else if IsTerminator(CleanLine(lines[0])) {
      TerminatorKeepsEntry(buffer, lines);
    } else {
      LineKeepsEntries(buffer, lines);
    }
  }

  lemma {:induction false} NoiseKeepsEntries(buffer: seq<string>, lines: seq<string>)
    requires forall i :: 0 <= i < |buffer| ==> !IsTerminator(buffer[i])
    requires lines != [] && IsNoise(CleanLine(lines[0]))
    ensures Run(buffer, lines).records == CompleteRecords(Entries(buffer + Significant(lines)))
    decreases |lines|, 0
  {
    assert Significant(lines) == Significant(lines[1..]);
    assert StepLine(buffer, lines[0]) == Step([], buffer);
    RunKeepsCompleteEntries(buffer, lines[1..]);
  }

  lemma {:induction false} LineKeepsEntries(buffer: seq<string>, lines: seq<string>)
    requires forall i :: 0 <= i < |buffer| ==> !IsTerminator(buffer[i])
    requires lines != [] && !IsNoise(CleanLine(lines[0])) && !IsTerminator(CleanLine(lines[0]))
    ensures Run(buffer, lines).records == CompleteRecords(Entries(buffer + Significant(lines)))
    decreases |lines|, 0
  {
    var line := CleanLine(lines[0]);
    SignificantCons(lines);
    PlainLineStep(buffer, lines[0]);
    RunCons(buffer, lines);
    RunKeepsCompleteEntries(buffer + [line], lines[1..]);
    AppendAssoc(buffer, [line], Significant(lines[1..]));
  }

  lemma {:induction false} TerminatorKeepsEntry(buffer: seq<string>, lines: seq<string>)
    requires forall i :: 0 <= i < |buffer| ==> !IsTerminator(buffer[i])
    requires lines != [] && !IsNoise(CleanLine(lines[0])) && IsTerminator(CleanLine(lines[0]))
    ensures Run(buffer, lines).records == CompleteRecords(Entries(buffer + Significant(lines)))
    decreases |lines|, 0
  {
    var emitted := TerminatorStep(buffer, lines);
    TerminatorEntry(buffer, lines);
    RunKeepsCompleteEntries([], lines[1..]);
    assert [] + Significant(lines[1..]) == Significant(lines[1..]);
  }

  lemma TerminatorStep(buffer: seq<string>, lines: seq<string>) returns (emitted: seq<RawVisit>)
    requires lines != [] && !IsNoise(CleanLine(lines[0])) && IsTerminator(CleanLine(lines[0]))
    ensures emitted == if |buffer| == 6 then [FromFields(buffer + [CleanLine(lines[0])])] else []
    ensures Run(buffer, lines).records == emitted + Run([], lines[1..]).records
  {
    emitted := if |buffer| == 6 then [FromFields(buffer + [CleanLine(lines[0])])] else [];
    assert StepLine(buffer, lines[0]) == Step(emitted, []);
  }

  lemma TerminatorEntry(buffer: seq<string>, lines: seq<string>)
    requires forall i :: 0 <= i < |buffer| ==> !IsTerminator(buffer[i])
    requires lines != [] && !IsNoise(CleanLine(lines[0])) && IsTerminator(CleanLine(lines[0]))
    ensures CompleteRecords(Entries(buffer + Significant(lines)))
            == (if |buffer| == 6 then [FromFields(buffer + [CleanLine(lines[0])])] else [])
               + CompleteRecords(Entries(Significant(lines[1..])))
  {
    SignificantCons(lines);
    AppendAssoc(buffer, [CleanLine(lines[0])], Significant(lines[1..]));
    TerminatedEntry(buffer, CleanLine(lines[0]), Significant(lines[1..]));
  }

  /** A line that is neither noise nor a terminator joins the buffer. */
  lemma PlainLineStep(buffer: seq<string>, raw: string)
    requires !IsNoise(CleanLine(raw)) && !IsTerminator(CleanLine(raw))
    ensures StepLine(buffer, raw) == Step([], buffer + [CleanLine(raw)])
  {
  }

  lemma RunCons(buffer: seq<string>, lines: seq<string>)
    requires lines != []
    ensures Run(buffer, lines).records
            == StepLine(buffer, lines[0]).emitted + Run(StepLine(buffer, lines[0]).buffer, lines[1..]).records
  {
  }

  /** A significant first line heads the significant lines. */
  lemma SignificantCons(lines: seq<string>)
    requires lines != [] && !IsNoise(CleanLine(lines[0]))
    ensures Significant(lines) == [CleanLine(lines[0])] + Significant(lines[1..])
  {
  }

  lemma AppendAssoc(a: seq<string>, b: seq<string>, c: seq<string>)
    ensures a + (b + c) == a + b + c
  {
  }

  lemma TerminatedEntry(buffer: seq<string>, line: string, tail: seq<string>)
    requires forall i :: 0 <= i < |buffer| ==> !IsTerminator(buffer[i])
    requires IsTerminator(line)
    ensures CompleteRecords(Entries(buffer + [line] + tail))
            == (if |buffer| == 6 then [FromFields(buffer + [line])] else []) + CompleteRecords(Entries(tail))
  {
    EntriesSplit(buffer, line, tail);
    var es := [buffer + [line]] + Entries(tail);
    assert es[0] == buffer + [line] && es[1..] == Entries(tail);
  }

  lemma ParserKeepsCompleteEntries(lines: seq<string>)
    ensures ParseRecords(lines) == CompleteRecords(Entries(Significant(lines)))
  {
    RunKeepsCompleteEntries([], lines);
    assert [] + Significant(lines) == Significant(lines);
  }
}
