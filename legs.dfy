/**
 * Leg reconstruction: the cleaned visits of each date, in table order,
 * are walked pairwise and every move between two different branches that
 * the mileage chart gives a non-zero distance becomes a report row.
 */
module LegBuilder {
  import opened Wrappers
  import opened Normalizer
  import opened Distance
  import opened Calendar
  import opened TimestampText

  /** One row of the final report. */
  datatype Leg = Leg(date: string, fromBranch: string, toBranch: string, distance: real)

  /** The date_in column. */
  function DateIns(rows: seq<Visit>): (r: seq<string>)
    ensures |r| == |rows|
    ensures forall i :: 0 <= i < |rows| ==> r[i] == rows[i].dateIn
  {
    seq(|rows|, i requires 0 <= i < |rows| => rows[i].dateIn)
  }

  /** Series.unique(): the distinct values, in order of first appearance. */
  function Unique(xs: seq<string>): (r: seq<string>)
    ensures forall i, j :: 0 <= i < j < |r| ==> r[i] != r[j]
    ensures forall x :: x in r <==> x in xs
  {
    if xs == [] then []
    else
      var front := Unique(xs[..|xs| - 1]);
      assert xs == xs[..|xs| - 1] + [xs[|xs| - 1]];
      if xs[|xs| - 1] in front then front else front + [xs[|xs| - 1]]
  }

  /** The position at which `x` first occurs in `xs`. */
  function FirstIndex(xs: seq<string>, x: string): (k: nat)
    requires x in xs
    ensures k < |xs| && xs[k] == x
    ensures forall j :: 0 <= j < k ==> xs[j] != x
  {
    if xs[0] == x then 0 else 1 + FirstIndex(xs[1..], x)
  }

  lemma FirstIndexOfPrefix(xs: seq<string>, n: nat, x: string)
    requires n <= |xs| && x in xs[..n]
    ensures FirstIndex(xs[..n], x) == FirstIndex(xs, x)
  {
    var k := FirstIndex(xs[..n], x);
    assert xs[k] == x;
    assert forall j :: 0 <= j < k ==> xs[j] == xs[..n][j];
    FirstIndexIsFirst(xs, x, k);
  }

  lemma FirstIndexIsFirst(xs: seq<string>, x: string, k: nat)
    requires k < |xs| && xs[k] == x && forall j :: 0 <= j < k ==> xs[j] != x
    ensures FirstIndex(xs, x) == k
  {
    var f := FirstIndex(xs, x);
    assert xs[f] == x;
  }

  /** unique() lists its values in the order in which they first occur. */
  lemma {:induction false} UniqueInFirstAppearanceOrder(xs: seq<string>, i: nat, j: nat)
    requires i < j < |Unique(xs)|
    ensures FirstIndex(xs, Unique(xs)[i]) < FirstIndex(xs, Unique(xs)[j])
    decreases |xs|
  {
    var n := |xs| - 1;
    var front := Unique(xs[..n]);
    var u := Unique(xs);
    assert xs == xs[..n] + [xs[n]];
    if j < |front| {
      assert u[i] == front[i] && u[j] == front[j];
      UniqueInFirstAppearanceOrder(xs[..n], i, j);
      FirstIndexOfPrefix(xs, n, u[i]);
      FirstIndexOfPrefix(xs, n, u[j]);
    } else {
      assert u[j] == xs[n] && xs[n] !in front && u[i] == front[i];
      assert xs[n] !in xs[..n];
      FirstIndexOfPrefix(xs, n, u[i]);
      assert forall k :: 0 <= k < n ==> xs[k] != xs[n];
      FirstIndexIsFirst(xs, xs[n], n);
    }
  }

  /** mileageDF.loc[mileageDF["date_in"] == date]: the rows of one date, in table order. */
  function RowsOn(rows: seq<Visit>, date: string): (r: seq<Visit>)
    ensures forall k :: 0 <= k < |r| ==> r[k].dateIn == date
    ensures forall v :: multiset(r)[v] == if v.dateIn == date then multiset(rows)[v] else 0
  {
    if rows == [] then []
    else
      assert rows == [rows[0]] + rows[1..];
      var rest := RowsOn(rows[1..], date);
      if rows[0].dateIn == date then [rows[0]] + rest else rest
  }

  /** Selecting a date keeps the table's order: rows sorted by entry stay sorted. */
  lemma {:induction false} RowsOnKeepsOrder(rows: seq<Visit>, date: string)
    requires EntrySorted(rows)
    ensures EntrySorted(RowsOn(rows, date))
  {
    if rows != [] {
      var rest := RowsOn(rows[1..], date);
      RowsOnKeepsOrder(rows[1..], date);
      if rows[0].dateIn == date {
        forall k | 0 <= k < |rest| ensures EntryKey(rows[0]) <= EntryKey(rest[k]) {
          assert rest[k] in multiset(rest);
          assert rest[k] in rows[1..];
        }
      }
    }
  }

  /**
   * Step `x` of one date's walk (source lines 186-205): from the branch of
   * visit x - 1 to that of visit x; a move within one branch costs no
   * lookup, and a distance of zero emits nothing.
   */
  function LegAt(date: string, day: seq<Visit>, x: nat, chart: Chart): (r: Result<seq<Leg>, RunError>)
    requires 1 <= x < |day|
    ensures r.Ok? ==> |r.value| <= 1
    ensures forall leg :: r == Ok([leg]) ==> LegOf(leg, date, day, x, chart)
    ensures Moves(day, x, chart) ==> r.Ok? && |r.value| == 1
    ensures r.Err? <==> day[x - 1].branch != day[x].branch && GetMileage(chart, day[x - 1].branch, day[x].branch).Err?
  {
    var fromBranch, toBranch := day[x - 1].branch, day[x].branch;
    if fromBranch == toBranch then Ok([])
    else
      var distance :- GetMileage(chart, fromBranch, toBranch);
      if distance == 0.0 then Ok([]) else Ok([Leg(date, fromBranch, toBranch, distance)])
  }

  /**
   * What a walk's steps produce, joined in order: the first step that fails
   * is the result, as the loop returns at the first lookup that raises.
   */
  function Flatten<T>(parts: seq<Result<seq<T>, RunError>>): Result<seq<T>, RunError> {
    if parts == [] then Ok([])
    else
      var before :- Flatten(parts[..|parts| - 1]);
      var last :- parts[|parts| - 1];
      Ok(before + last)
  }

  lemma FlattenSnoc<T>(parts: seq<Result<seq<T>, RunError>>, part: Result<seq<T>, RunError>)
    ensures Flatten(parts + [part])
         == if Flatten(parts).Err? then Flatten(parts)
            else if part.Err? then Err(part.error)
            else Ok(Flatten(parts).value + part.value)
  {
    assert (parts + [part])[..|parts|] == parts;
  }

  lemma {:induction false} FlattenErrorPersists<T>(parts: seq<Result<seq<T>, RunError>>, more: seq<Result<seq<T>, RunError>>)
    requires Flatten(parts).Err?
    ensures Flatten(parts + more) == Flatten(parts)
    decreases |more|
  {
    if more == [] {
      assert parts + more == parts;
    } else {
      var front := more[..|more| - 1];
      FlattenErrorPersists(parts, front);
      assert parts + more == (parts + front) + [more[|more| - 1]];
      FlattenSnoc(parts + front, more[|more| - 1]);
    }
  }

  /** The steps of one date's walk: step 0 does nothing, step x moves from visit x - 1 to visit x. */
  function Steps(date: string, day: seq<Visit>, chart: Chart): (r: seq<Result<seq<Leg>, RunError>>)
    ensures |r| == |day|
  {
    seq(|day|, x requires 0 <= x < |day| => if x == 0 then Ok([]) else LegAt(date, day, x, chart))
  }

  /** The legs of one date; a date with a single visit is not walked at all. */
  function DayLegs(date: string, day: seq<Visit>, chart: Chart): (r: Result<seq<Leg>, RunError>)
    ensures |day| <= 1 ==> r == Ok([])
  {
    if |day| == 1 then Ok([])
    else
      assert |day| == 0 ==> Steps(date, day, chart) == [];
      Flatten(Steps(date, day, chart))
  }

  /** The legs of every date, one after another, in the order of `dates`. */
  function Days(rows: seq<Visit>, dates: seq<string>, chart: Chart): (r: seq<Result<seq<Leg>, RunError>>)
    ensures |r| == |dates|
  {
    seq(|dates|, k requires 0 <= k < |dates| => DayLegs(dates[k], RowsOn(rows, dates[k]), chart))
  }

  /** The final report of a cleaned table. */
  function Legs(rows: seq<Visit>, chart: Chart): Result<seq<Leg>, RunError> {
    Flatten(Days(rows, Unique(DateIns(rows)), chart))
  }

  /** The loop of source lines 172-205 over the unique dates. */
  method BuildLegs(rows: seq<Visit>, chart: Chart) returns (r: Result<seq<Leg>, RunError>)
    ensures r == Legs(rows, chart)
  {
    var uniqueDates := Unique(DateIns(rows));
    ghost var days := Days(rows, uniqueDates, chart);
    var finalLegs: seq<Leg> := [];
    var fromBranch := "";
    var toBranch := "";
    for k := 0 to |uniqueDates|
      invariant Flatten(days[..k]) == Ok(finalLegs)
    {
      var date := uniqueDates[k];
      var selected := RowsOn(rows, date);
      var srLen := |selected|;
      StepsSnoc(days, k);
      if srLen != 1 {
        var walked;
        walked, fromBranch, toBranch := WalkDay(date, selected, chart, finalLegs, fromBranch, toBranch);
        if walked.Err? {
          StepsFailFrom(days, k + 1);
          return walked;
        }
        finalLegs := walked.value;
      }
    }
    assert days[..|uniqueDates|] == days;
    r := Ok(finalLegs);
  }

  /**
   * The inner loop of source lines 178-205 over the visits of one date,
   * appending to `legs`; it returns the error of the first lookup that fails.
   */
  method WalkDay(date: string, selected: seq<Visit>, chart: Chart, legs: seq<Leg>,
                 fromBranch0: string, toBranch0: string)
    returns (r: Result<seq<Leg>, RunError>, fromBranch: string, toBranch: string)
    ensures r == match Flatten(Steps(date, selected, chart))
                 case Ok(dayLegs) => Ok(legs + dayLegs)
                 case Err(e) => Err(e)
  {
    ghost var steps := Steps(date, selected, chart);
    var finalLegs := legs;
    ghost var dayLegs: seq<Leg> := [];
    fromBranch, toBranch := fromBranch0, toBranch0;
    for x := 0 to |selected|
      invariant finalLegs == legs + dayLegs
      invariant Flatten(steps[..x]) == Ok(dayLegs)
      invariant 2 <= x ==> toBranch == selected[x - 1].branch
    {
      StepsSnoc(steps, x);
      if x == 0 {
        continue;
      }
      if x == 1 {
        fromBranch := selected[0].branch;
        toBranch := selected[1].branch;
      } else {
        fromBranch := toBranch;
        toBranch := selected[x].branch;
      }
      assert steps[x] == LegAt(date, selected, x, chart);
      if fromBranch != toBranch {
        var distance := GetMileage(chart, fromBranch, toBranch);
        if distance.Err? {
          StepsFailFrom(steps, x + 1);
          return Err(distance.error), fromBranch, toBranch;
        }
        if distance.value == 0.0 {
          continue;
        }
        finalLegs := finalLegs + [Leg(date, fromBranch, toBranch, distance.value)];
        dayLegs := dayLegs + [Leg(date, fromBranch, toBranch, distance.value)];
      }
    }
    assert steps[..|selected|] == steps;
    r := Ok(finalLegs);
  }

  /** One more step joins its result on, unless a step has already failed. */
  lemma StepsSnoc<T>(parts: seq<Result<seq<T>, RunError>>, i: nat)
    requires i < |parts|
    ensures Flatten(parts[..i + 1])
         == if Flatten(parts[..i]).Err? then Flatten(parts[..i])
            else if parts[i].Err? then Err(parts[i].error)
            else Ok(Flatten(parts[..i]).value + parts[i].value)
    ensures parts[i].Ok? && parts[i].value == [] && Flatten(parts[..i]).Ok? ==> Flatten(parts[..i + 1]) == Flatten(parts[..i])
  {
    assert parts[..i + 1] == parts[..i] + [parts[i]];
    FlattenSnoc(parts[..i], parts[i]);
    if Flatten(parts[..i]).Ok? {
      assert Flatten(parts[..i]).value + [] == Flatten(parts[..i]).value;
    }
  }

  /** Once a step fails, the whole walk fails with that error. */
  lemma StepsFailFrom<T>(parts: seq<Result<seq<T>, RunError>>, i: nat)
    requires i <= |parts| && Flatten(parts[..i]).Err?
    ensures Flatten(parts) == Flatten(parts[..i])
  {
    FlattenErrorPersists(parts[..i], parts[i..]);
    assert parts[..i] + parts[i..] == parts;
  }

  /** A walk succeeds exactly when every one of its steps does. */
  lemma {:induction false} FlattenOkIff<T>(parts: seq<Result<seq<T>, RunError>>)
    ensures Flatten(parts).Ok? <==> forall i :: 0 <= i < |parts| ==> parts[i].Ok?
    decreases |parts|
  {
    if parts != [] {
      var n := |parts| - 1;
      FlattenOkIff(parts[..n]);
      assert forall i :: 0 <= i < n ==> parts[..n][i] == parts[i];
    }
  }

  /** A walk that fails reports the error of its first failing step. */
  lemma {:induction false} FlattenFirstError<T>(parts: seq<Result<seq<T>, RunError>>) returns (i: nat)
    requires Flatten(parts).Err?
    ensures i < |parts| && parts[i] == Flatten(parts)
    ensures forall j :: 0 <= j < i ==> parts[j].Ok?
    decreases |parts|
  {
    var n := |parts| - 1;
    if Flatten(parts[..n]).Err? {
      i := FlattenFirstError(parts[..n]);
      assert forall j :: 0 <= j <= i ==> parts[..n][j] == parts[j];
    } else {
      FlattenOkIff(parts[..n]);
      assert forall j :: 0 <= j < n ==> parts[..n][j] == parts[j];
      i := n;
    }
  }

  /**
   * When every step yields at most one item, the items of a successful walk
   * are those of the steps that yield one, in step order: `idx` names the
   * step of each item.
   */
  lemma {:induction false} FlattenPicks<T>(parts: seq<Result<seq<T>, RunError>>) returns (idx: seq<nat>)
    requires Flatten(parts).Ok?
    requires forall i :: 0 <= i < |parts| && parts[i].Ok? ==> |parts[i].value| <= 1
    ensures |idx| == |Flatten(parts).value|
    ensures forall i :: 0 <= i < |idx| ==> idx[i] < |parts| && parts[idx[i]] == Ok([Flatten(parts).value[i]])
    ensures forall i, j :: 0 <= i < j < |idx| ==> idx[i] < idx[j]
    ensures forall p :: 0 <= p < |parts| && parts[p].Ok? && |parts[p].value| == 1 ==> p in idx
    decreases |parts|
  {
    if parts == [] {
      idx := [];
    } else {
      var n := |parts| - 1;
      assert forall i :: 0 <= i < n ==> parts[..n][i] == parts[i];
      var front := FlattenPicks(parts[..n]);
      var before := Flatten(parts[..n]).value;
      var last := parts[n].value;
      assert Flatten(parts).value == before + last;
      if |last| == 0 {
        assert before + last == before;
        idx := front;
      } else {
        assert last == [last[0]];
        idx := front + [n];
      }
    }
  }

  lemma {:induction false} FlattenAllSingles<T>(parts: seq<Result<seq<T>, RunError>>)
    requires |parts| >= 1 && parts[0] == Ok([])
    requires forall i :: 1 <= i < |parts| ==> parts[i].Ok? && |parts[i].value| == 1
    ensures Flatten(parts).Ok? && |Flatten(parts).value| == |parts| - 1
    decreases |parts|
  {
    var n := |parts| - 1;
    if n == 0 {
      assert parts[..0] == [];
    } else {
      assert forall i :: 0 <= i < n ==> parts[..n][i] == parts[i];
      FlattenAllSingles(parts[..n]);
    }
  }

  /**
   * Visit x - 1 to visit x is a move the report records: two different
   * branches whose charted distance exists and is not zero.
   */
  predicate Moves(day: seq<Visit>, x: nat, chart: Chart)
    requires 1 <= x < |day|
  {
    var lookup := GetMileage(chart, day[x - 1].branch, day[x].branch);
    day[x - 1].branch != day[x].branch && lookup.Ok? && lookup.value != 0.0
  }

  /** `leg` is the move from visit x - 1 to visit x of `day`, priced by the chart. */
  predicate LegOf(leg: Leg, date: string, day: seq<Visit>, x: nat, chart: Chart) {
    1 <= x < |day| && Moves(day, x, chart)
    && leg == Leg(date, day[x - 1].branch, day[x].branch, leg.distance)
    && leg.fromBranch != leg.toBranch && leg.distance != 0.0
    && GetMileage(chart, leg.fromBranch, leg.toBranch) == Ok(leg.distance)
  }

  /** What one step of a walk yields. */
  lemma StepYields(date: string, day: seq<Visit>, chart: Chart, x: nat)
    requires x < |day|
    ensures var step := Steps(date, day, chart)[x];
      && (step.Ok? ==> |step.value| <= 1)
      && (x == 0 ==> step == Ok([]))
      && (forall leg :: step == Ok([leg]) ==> LegOf(leg, date, day, x, chart))
      && (1 <= x && Moves(day, x, chart) ==> step.Ok? && |step.value| == 1)
      && (step.Ok? <==> x == 0 || day[x - 1].branch == day[x].branch
                        || GetMileage(chart, day[x - 1].branch, day[x].branch).Ok?)
      && (step.Err? ==> 1 <= x && day[x - 1].branch != day[x].branch
                        && step == Err(GetMileage(chart, day[x - 1].branch, day[x].branch).error))
  {
    if x > 0 {
      assert Steps(date, day, chart)[x] == LegAt(date, day, x, chart);
    }
  }

  /**
   * Leg adjacency within one date: each leg is the move from visit
   * idx[i] - 1 to visit idx[i], in visit order, and every recordable move
   * of the date is among them.  The from-branch is always the previous
   * visit's even when the previous move was skipped.
   */
  lemma DayLegsAdjacent(date: string, day: seq<Visit>, chart: Chart) returns (idx: seq<nat>)
    requires DayLegs(date, day, chart).Ok?
    ensures Picks(DayLegs(date, day, chart).value, idx, date, day, chart)
  {
    if |day| == 1 {
      idx := [];
    } else {
      var steps := Steps(date, day, chart);
      forall i | 0 <= i < |steps| && steps[i].Ok? ensures |steps[i].value| <= 1 {
        StepYields(date, day, chart, i);
      }
      idx := FlattenPicks(steps);
      var legs := Flatten(steps).value;
      forall i | 0 <= i < |idx| ensures LegOf(legs[i], date, day, idx[i], chart) {
        StepYields(date, day, chart, idx[i]);
      }
      forall x | 1 <= x < |day| && Moves(day, x, chart) ensures x in idx {
        StepYields(date, day, chart, x);
      }
    }
  }

  /** A date's walk succeeds exactly when each lookup it makes succeeds. */
  lemma DayLegsOkIff(date: string, day: seq<Visit>, chart: Chart)
    ensures DayLegs(date, day, chart).Ok? <==> LookupsSucceed(day, chart)
  {
    if |day| != 1 {
      var steps := Steps(date, day, chart);
      FlattenOkIff(steps);
      forall x | 0 <= x < |day| {
        StepYields(date, day, chart, x);
      }
    }
  }

  /** A date's walk that fails stops with the error of its first failing lookup. */
  lemma DayLegsFirstError(date: string, day: seq<Visit>, chart: Chart) returns (x: nat)
    requires DayLegs(date, day, chart).Err?
    ensures 1 <= x < |day| && day[x - 1].branch != day[x].branch
    ensures var lookup := GetMileage(chart, day[x - 1].branch, day[x].branch);
      lookup.Err? && DayLegs(date, day, chart) == Err(lookup.error)
    ensures forall y :: 1 <= y < x && day[y - 1].branch != day[y].branch
                        ==> GetMileage(chart, day[y - 1].branch, day[y].branch).Ok?
  {
    var steps := Steps(date, day, chart);
    x := FlattenFirstError(steps);
    StepYields(date, day, chart, x);
    forall y | 1 <= y < x && day[y - 1].branch != day[y].branch
      ensures GetMileage(chart, day[y - 1].branch, day[y].branch).Ok?
    {
      StepYields(date, day, chart, y);
    }
  }

  /**
   * A date of n visits whose every consecutive pair is a recordable move
   * yields exactly n - 1 legs (no legs at all for a single visit).
   */
  lemma DayLegsCount(date: string, day: seq<Visit>, chart: Chart)
    requires |day| >= 1
    requires forall x :: 1 <= x < |day| ==> Moves(day, x, chart)
    ensures DayLegs(date, day, chart).Ok? && |DayLegs(date, day, chart).value| == |day| - 1
  {
    if |day| != 1 {
      var steps := Steps(date, day, chart);
      forall i | 0 <= i < |steps| ensures i == 0 ==> steps[i] == Ok([])
        ensures 1 <= i ==> steps[i].Ok? && |steps[i].value| == 1
      {
        StepYields(date, day, chart, i);
      }
      FlattenAllSingles(steps);
    }
  }

  /** Every lookup that a walk over `day` makes succeeds. */
  predicate LookupsSucceed(day: seq<Visit>, chart: Chart) {
    forall x :: 1 <= x < |day| && day[x - 1].branch != day[x].branch
                ==> GetMileage(chart, day[x - 1].branch, day[x].branch).Ok?
  }

  /** Position (k, x) comes before (k', x'): by date group, then by visit index. */
  predicate Precedes(a: (nat, nat), b: (nat, nat)) {
    a.0 < b.0 || (a.0 == b.0 && a.1 < b.1)
  }

  /**
   * `at` accounts for `legs` as the legs of the first n dates: leg i is the
   * move into visit at[i].1 of date dates[at[i].0], the positions ascend,
   * and every recordable move of those dates is present.
   */
  ghost predicate Origins(legs: seq<Leg>, at: seq<(nat, nat)>, rows: seq<Visit>, dates: seq<string>,
                          chart: Chart, n: nat)
  {
    |at| == |legs| && OriginsGenuine(legs, at, rows, dates, chart, n) && Ascending(at)
    && OriginsComplete(at, rows, dates, chart, n)
  }

  ghost predicate OriginsGenuine(legs: seq<Leg>, at: seq<(nat, nat)>, rows: seq<Visit>, dates: seq<string>,
                                 chart: Chart, n: nat)
    requires |at| == |legs|
  {
    forall i :: 0 <= i < |at| ==>
      at[i].0 < n && at[i].0 < |dates|
      && LegOf(legs[i], dates[at[i].0], RowsOn(rows, dates[at[i].0]), at[i].1, chart)
  }

  ghost predicate Ascending(at: seq<(nat, nat)>) {
    forall i, j :: 0 <= i < j < |at| ==> Precedes(at[i], at[j])
  }

  ghost predicate OriginsComplete(at: seq<(nat, nat)>, rows: seq<Visit>, dates: seq<string>, chart: Chart, n: nat) {
    forall k, x :: 0 <= k < n && k < |dates| && 1 <= x < |RowsOn(rows, dates[k])| && Moves(RowsOn(rows, dates[k]), x, chart)
      ==> (k, x) in at
  }

  /** `idx` accounts for `legs` as the legs of one date, as DayLegsAdjacent states. */
  ghost predicate Picks(legs: seq<Leg>, idx: seq<nat>, date: string, day: seq<Visit>, chart: Chart) {
    && |idx| == |legs|
    && (forall i :: 0 <= i < |idx| ==> LegOf(legs[i], date, day, idx[i], chart))
    && (forall i, j :: 0 <= i < j < |idx| ==> idx[i] < idx[j])
    && (forall x :: 1 <= x < |day| && Moves(day, x, chart) ==> x in idx)
  }

  /** The positions of one date's legs, after those of the dates before it. */
  function Tagged(k: nat, idx: seq<nat>): (r: seq<(nat, nat)>)
    ensures |r| == |idx| && forall j :: 0 <= j < |idx| ==> r[j] == (k, idx[j])
  {
    seq(|idx|, j requires 0 <= j < |idx| => (k, idx[j]))
  }

  /** The legs of one more date extend the account of the dates before it. */
  lemma OriginsSnoc(legs: seq<Leg>, at: seq<(nat, nat)>, rows: seq<Visit>, dates: seq<string>,
                    chart: Chart, k: nat, dayLegs: seq<Leg>, idx: seq<nat>)
    requires k < |dates| && Origins(legs, at, rows, dates, chart, k)
    requires Picks(dayLegs, idx, dates[k], RowsOn(rows, dates[k]), chart)
    ensures Origins(legs + dayLegs, at + Tagged(k, idx), rows, dates, chart, k + 1)
  {
    GenuineSnoc(legs, at, rows, dates, chart, k, dayLegs, idx);
    AscendingSnoc(at, k, idx);
    CompleteSnoc(at, rows, dates, chart, k, dayLegs, idx);
  }

  lemma GenuineSnoc(legs: seq<Leg>, at: seq<(nat, nat)>, rows: seq<Visit>, dates: seq<string>,
                    chart: Chart, k: nat, dayLegs: seq<Leg>, idx: seq<nat>)
    requires k < |dates| && |at| == |legs| && OriginsGenuine(legs, at, rows, dates, chart, k)
    requires |idx| == |dayLegs|
    requires forall i :: 0 <= i < |idx| ==> LegOf(dayLegs[i], dates[k], RowsOn(rows, dates[k]), idx[i], chart)
    ensures OriginsGenuine(legs + dayLegs, at + Tagged(k, idx), rows, dates, chart, k + 1)
  {
    var at', all, back := at + Tagged(k, idx), legs + dayLegs, Tagged(k, idx);
    forall i | 0 <= i < |at'|
      ensures at'[i].0 < k + 1 && at'[i].0 < |dates|
        && LegOf(all[i], dates[at'[i].0], RowsOn(rows, dates[at'[i].0]), at'[i].1, chart)
    {
      if i < |at| {
        assert at'[i] == at[i] && all[i] == legs[i];
      } else {
        assert at'[i] == back[i - |at|] && all[i] == dayLegs[i - |at|];
      }
    }
  }

  lemma AscendingSnoc(at: seq<(nat, nat)>, k: nat, idx: seq<nat>)
    requires Ascending(at) && forall i :: 0 <= i < |at| ==> at[i].0 < k
    requires forall i, j :: 0 <= i < j < |idx| ==> idx[i] < idx[j]
    ensures Ascending(at + Tagged(k, idx))
  {
    var at', back := at + Tagged(k, idx), Tagged(k, idx);
    forall i, j | 0 <= i < j < |at'| ensures Precedes(at'[i], at'[j]) {
      if j < |at| {
        assert at'[i] == at[i] && at'[j] == at[j];
      } else if i < |at| {
        assert at'[i] == at[i] && at'[j] == back[j - |at|];
      } else {
        assert at'[i] == back[i - |at|] && at'[j] == back[j - |at|];
      }
    }
  }

  lemma CompleteSnoc(at: seq<(nat, nat)>, rows: seq<Visit>, dates: seq<string>,
                     chart: Chart, k: nat, dayLegs: seq<Leg>, idx: seq<nat>)
    requires k < |dates| && OriginsComplete(at, rows, dates, chart, k)
    requires forall x :: 1 <= x < |RowsOn(rows, dates[k])| && Moves(RowsOn(rows, dates[k]), x, chart) ==> x in idx
    ensures OriginsComplete(at + Tagged(k, idx), rows, dates, chart, k + 1)
  {
    var at', back := at + Tagged(k, idx), Tagged(k, idx);
    forall k', x | 0 <= k' < k + 1 && k' < |dates| && 1 <= x < |RowsOn(rows, dates[k'])|
        && Moves(RowsOn(rows, dates[k']), x, chart)
      ensures (k', x) in at'
    {
      if k' == k {
        var j :| 0 <= j < |idx| && idx[j] == x;
        assert at'[|at| + j] == (k, x);
      } else {
        assert (k', x) in at;
      }
    }
  }

  /** The legs of the first n dates, accounted for position by position. */
  lemma {:induction false} DaysOrigin(rows: seq<Visit>, dates: seq<string>, chart: Chart, n: nat)
    returns (at: seq<(nat, nat)>)
    requires n <= |dates| && Flatten(Days(rows, dates, chart)[..n]).Ok?
    ensures Origins(Flatten(Days(rows, dates, chart)[..n]).value, at, rows, dates, chart, n)
    decreases n
  {
    var days := Days(rows, dates, chart);
    if n == 0 {
      at := [];
    } else {
      var k := n - 1;
      StepsSnoc(days, k);
      var front := DaysOrigin(rows, dates, chart, k);
      var day := RowsOn(rows, dates[k]);
      assert days[k] == DayLegs(dates[k], day, chart);
      var idx := DayLegsAdjacent(dates[k], day, chart);
      OriginsSnoc(Flatten(days[..k]).value, front, rows, dates, chart, k, days[k].value, idx);
      at := front + Tagged(k, idx);
    }
  }

  /**
   * Every leg of the report is a recordable move between consecutive
   * visits of one date (so no leg spans two dates), the legs are ordered by
   * date group and then by visit index, and no recordable move is missing.
   */
  lemma LegsAreGenuine(rows: seq<Visit>, chart: Chart) returns (at: seq<(nat, nat)>)
    requires Legs(rows, chart).Ok?
    ensures var dates := Unique(DateIns(rows));
      Origins(Legs(rows, chart).value, at, rows, dates, chart, |dates|)
    ensures var dates, legs := Unique(DateIns(rows)), Legs(rows, chart).value;
      forall i :: 0 <= i < |at| ==>
        RowsOn(rows, dates[at[i].0])[at[i].1 - 1].dateIn == legs[i].date
        && RowsOn(rows, dates[at[i].0])[at[i].1].dateIn == legs[i].date
  {
    var dates := Unique(DateIns(rows));
    var days := Days(rows, dates, chart);
    assert days[..|dates|] == days;
    at := DaysOrigin(rows, dates, chart, |dates|);
  }

  lemma DayOkIff(rows: seq<Visit>, dates: seq<string>, chart: Chart, k: nat)
    requires k < |dates|
    ensures Days(rows, dates, chart)[k].Ok? <==> LookupsSucceed(RowsOn(rows, dates[k]), chart)
  {
    DayLegsOkIff(dates[k], RowsOn(rows, dates[k]), chart);
  }

  /** The walks over `dates` all succeed exactly when each of their lookups does. */
  lemma DaysOkIff(rows: seq<Visit>, dates: seq<string>, chart: Chart)
    ensures Flatten(Days(rows, dates, chart)).Ok?
        <==> forall k :: 0 <= k < |dates| ==> LookupsSucceed(RowsOn(rows, dates[k]), chart)
  {
    var days := Days(rows, dates, chart);
    FlattenOkIff(days);
    forall k | 0 <= k < |dates| ensures days[k].Ok? <==> LookupsSucceed(RowsOn(rows, dates[k]), chart) {
      DayOkIff(rows, dates, chart, k);
    }
  }

  /**
   * The report is built exactly when every lookup made on every date of the
   * table succeeds; otherwise the run stops with a lookup error.
   */
  lemma LegsOkIff(rows: seq<Visit>, chart: Chart)
    ensures Legs(rows, chart).Ok?
        <==> forall date :: date in DateIns(rows) ==> LookupsSucceed(RowsOn(rows, date), chart)
  {
    var dates := Unique(DateIns(rows));
    DaysOkIff(rows, dates, chart);
    assert forall date :: date in DateIns(rows) <==> exists k :: 0 <= k < |dates| && dates[k] == date;
  }

  /**
   * A failed run reports the first lookup that failed: on date k, at the
   * move into visit x, after every lookup of the earlier dates and of the
   * earlier visits of that date succeeded.
   */
  lemma DaysFirstError(rows: seq<Visit>, dates: seq<string>, chart: Chart) returns (k: nat, x: nat)
    requires Flatten(Days(rows, dates, chart)).Err?
    ensures k < |dates| && 1 <= x < |RowsOn(rows, dates[k])|
    ensures var day := RowsOn(rows, dates[k]);
      var lookup := GetMileage(chart, day[x - 1].branch, day[x].branch);
      && day[x - 1].branch != day[x].branch
      && lookup.Err? && Flatten(Days(rows, dates, chart)) == Err(lookup.error)
      && (forall y :: 1 <= y < x && day[y - 1].branch != day[y].branch
                      ==> GetMileage(chart, day[y - 1].branch, day[y].branch).Ok?)
    ensures forall k' :: 0 <= k' < k ==> LookupsSucceed(RowsOn(rows, dates[k']), chart)
  {
    var days := Days(rows, dates, chart);
    k := FlattenFirstError(days);
    assert days[k] == DayLegs(dates[k], RowsOn(rows, dates[k]), chart);
    x := DayLegsFirstError(dates[k], RowsOn(rows, dates[k]), chart);
    forall k' | 0 <= k' < k ensures LookupsSucceed(RowsOn(rows, dates[k']), chart) {
      DayOkIff(rows, dates, chart, k');
    }
  }

  /** DaysFirstError, for the dates of the table in first-appearance order. */
  lemma LegsFirstError(rows: seq<Visit>, chart: Chart) returns (k: nat, x: nat)
    requires Legs(rows, chart).Err?
    ensures var dates := Unique(DateIns(rows));
      k < |dates| && 1 <= x < |RowsOn(rows, dates[k])|
    ensures var day := RowsOn(rows, Unique(DateIns(rows))[k]);
      var lookup := GetMileage(chart, day[x - 1].branch, day[x].branch);
      && day[x - 1].branch != day[x].branch
      && lookup.Err? && Legs(rows, chart) == Err(lookup.error)
      && (forall y :: 1 <= y < x && day[y - 1].branch != day[y].branch
                      ==> GetMileage(chart, day[y - 1].branch, day[y].branch).Ok?)
    ensures forall k' :: 0 <= k' < k ==> LookupsSucceed(RowsOn(rows, Unique(DateIns(rows))[k']), chart)
  {
    k, x := DaysFirstError(rows, Unique(DateIns(rows)), chart);
  }

  /** The cleaned table: sorted by entry, every row consistent with its timestamps. */
  ghost predicate Cleaned(rows: seq<Visit>) {
    EntrySorted(rows) && forall k :: 0 <= k < |rows| ==> Consistent(rows[k])
  }

  /**
   * What the date groups need of a cleaned table: date texts agree exactly
   * when entry days do, and a later row with another date text was entered
   * on a later day.
   */
  ghost predicate DatedInOrder(rows: seq<Visit>) {
    && (forall p, q :: 0 <= p < |rows| && 0 <= q < |rows| ==>
          (rows[p].dateIn == rows[q].dateIn <==> rows[p].entry.date == rows[q].entry.date))
    && (forall p, q :: 0 <= p < q < |rows| && rows[p].dateIn != rows[q].dateIn ==>
          DateBefore(rows[p].entry.date, rows[q].entry.date))
  }

  lemma CleanedIsDatedInOrder(rows: seq<Visit>)
    requires Cleaned(rows)
    ensures DatedInOrder(rows)
  {
    forall p, q | 0 <= p < |rows| && 0 <= q < |rows|
      ensures rows[p].dateIn == rows[q].dateIn <==> rows[p].entry.date == rows[q].entry.date
    {
      IsoDateInjective(rows[p].entry.date, rows[q].entry.date);
    }
    forall p, q | 0 <= p < q < |rows| && rows[p].dateIn != rows[q].dateIn
      ensures DateBefore(rows[p].entry.date, rows[q].entry.date)
    {
      assert EntryKey(rows[p]) <= EntryKey(rows[q]);
      DateOfEarlierInstant(rows[p].entry, rows[q].entry);
    }
  }

  /** Every visit dated `a` was entered on an earlier day than every visit dated `b`. */
  ghost predicate DaysBefore(rows: seq<Visit>, a: string, b: string) {
    forall p, q :: 0 <= p < |rows| && 0 <= q < |rows| && rows[p].dateIn == a && rows[q].dateIn == b
      ==> DateBefore(rows[p].entry.date, rows[q].entry.date)
  }

  /**
   * On a cleaned table the date groups come in calendar order: every visit
   * of an earlier group was entered on an earlier day than every visit of a
   * later one.
   */
  lemma DateGroupsAscend(rows: seq<Visit>, i: nat, j: nat)
    requires Cleaned(rows) && i < j < |Unique(DateIns(rows))|
    ensures DaysBefore(rows, Unique(DateIns(rows))[i], Unique(DateIns(rows))[j])
  {
    CleanedIsDatedInOrder(rows);
    DatedGroupsAscend(rows, i, j);
  }

  lemma DatedGroupsAscend(rows: seq<Visit>, i: nat, j: nat)
    requires DatedInOrder(rows) && i < j < |Unique(DateIns(rows))|
    ensures DaysBefore(rows, Unique(DateIns(rows))[i], Unique(DateIns(rows))[j])
  {
    var dates, column := Unique(DateIns(rows)), DateIns(rows);
    assert dates[i] in column && dates[j] in column;
    var p0, q0 := FirstIndex(column, dates[i]), FirstIndex(column, dates[j]);
    UniqueInFirstAppearanceOrder(column, i, j);
    assert rows[p0].dateIn == column[p0] == dates[i] != dates[j] == column[q0] == rows[q0].dateIn;
  }

  /**
   * On a cleaned table the report is chronological: of two legs on
   * different dates, the earlier leg's date is the earlier calendar day.
   */
  lemma LegsChronological(rows: seq<Visit>, chart: Chart)
    requires Cleaned(rows) && Legs(rows, chart).Ok?
    ensures var legs := Legs(rows, chart).value;
      forall i, j :: 0 <= i < j < |legs| && legs[i].date != legs[j].date ==> DaysBefore(rows, legs[i].date, legs[j].date)
  {
    var legs := Legs(rows, chart).value;
    var at := LegsAreGenuine(rows, chart);
    var dates := Unique(DateIns(rows));
    forall i, j | 0 <= i < j < |legs| && legs[i].date != legs[j].date
      ensures DaysBefore(rows, legs[i].date, legs[j].date)
    {
      assert Precedes(at[i], at[j]);
      assert legs[i].date == dates[at[i].0] && legs[j].date == dates[at[j].0];
      DateGroupsAscend(rows, at[i].0, at[j].0);
    }
  }

  /** Walking the table fails only on a lookup: an unknown branch or a pair missing from the chart. */
  lemma LegsErrorIsLookup(rows: seq<Visit>, chart: Chart)
    requires Legs(rows, chart).Err?
    ensures Legs(rows, chart).error.UnknownBranch? || Legs(rows, chart).error.MissingDistance?
  {
    var k, x := LegsFirstError(rows, chart);
  }
}
