/**
 * One month's table of process measures: a row per clinic holding the
 * measures of each window, the targets, the dependent variances with their
 * direction glyphs, and the rubric categories. Columns are named by typed
 * selectors; Label functions give the names the dashboard uses.
 */
module ProcessFrame {
  import opened Wrappers
  import opened Referrals
  import opened ProcessWindows
  import Calendar

  /** The calendar month, or a moving window ending with it. */
  datatype Window = MonthWindow | Mov28 | Mov91 | Mov182 | Mov364 {
    /** The prefix of the window's column names. */
    function Prefix(): string {
      match this
      case MonthWindow => ""
      case Mov28 => "MOV28 "
      case Mov91 => "MOV91 "
      case Mov182 => "MOV182 "
      case Mov364 => "MOV364 "
    }

    /** First day of the window for the report month with the given key. */
    function Start(key: int): int {
      match this
      case MonthWindow => Calendar.FirstDay(key)
      case Mov28 => Calendar.FirstDay(key + 1) - 28
      case Mov91 => Calendar.FirstDay(key + 1) - 91
      case Mov182 => Calendar.FirstDay(key + 1) - 182
      case Mov364 => Calendar.FirstDay(key + 1) - 364
    }
  }

  /** Every window ends (exclusive) at the first day of the next month. */
  function WindowEnd(key: int): int {
    Calendar.FirstDay(key + 1)
  }

  const Windows: seq<Window> := [MonthWindow, Mov28, Mov91, Mov182, Mov364]

  lemma WindowsListed(w: Window)
    ensures w in Windows
  {
  }

  /** The calendar month lies inside the 91-, 182- and 364-day windows; those nest. */
  lemma WindowsNest(key: int)
    ensures Mov364.Start(key) < Mov182.Start(key) < Mov91.Start(key) < Mov28.Start(key) < WindowEnd(key)
    ensures Mov91.Start(key) < MonthWindow.Start(key) < WindowEnd(key)
    ensures Mov28.Start(key) <= MonthWindow.Start(key) + 3
  {
    Calendar.MonthLength(key);
  }

  /** A measure of one window's aggregation. */
  datatype Field =
    | SentField | AgedField | RejectedField | CanceledField | ClosedField
    | SeenAfterField | ScheduledField | WaitingField | NotScheduledField
    | SeenWithinField | PctSeenWithinField
    | AcceptedField | CompletedField | CompletedAndSeenField
    | MedianSeenField | MedianScheduledField | MedianCompletedField | MedianAcceptField
    | PctSeenField | PctScheduledField

  /** A field of the urgent or routine aggregation; None when that aggregation has no such column. */
  function PriorityField(m: PriorityMeasures, f: Field): Option<real> {
    match f
    case SentField => Some(m.sent as real)
    case AgedField => Some(m.aged as real)
    case RejectedField => Some(m.rejected as real)
    case CanceledField => Some(m.canceled as real)
    case ClosedField => Some(m.closedWithoutSeen as real)
    case SeenAfterField => Some(m.seenAfter as real)
    case ScheduledField => Some(m.scheduled as real)
    case WaitingField => Some(m.waiting as real)
    case NotScheduledField => Some(m.notScheduled as real)
    case SeenWithinField => Some(m.seenWithin as real)
    case PctSeenWithinField => m.pct
    case _ => None
  }

  function AllField(m: AllMeasures, f: Field): Option<real> {
    match f
    case SentField => Some(m.sent as real)
    case AgedField => Some(m.aged as real)
    case RejectedField => Some(m.rejected as real)
    case CanceledField => Some(m.canceled as real)
    case ClosedField => Some(m.closedWithoutSeen as real)
    case SeenAfterField => Some(m.seenAfter as real)
    case ScheduledField => Some(m.scheduled as real)
    case WaitingField => Some(m.waiting as real)
    case NotScheduledField => Some(m.notScheduled as real)
    case AcceptedField => Some(m.accepted as real)
    case CompletedField => Some(m.completed as real)
    case CompletedAndSeenField => Some(m.completedAndSeen as real)
    case MedianSeenField => Some(m.medianSeen)
    case MedianScheduledField => Some(m.medianScheduled)
    case MedianCompletedField => Some(m.medianCompleted)
    case MedianAcceptField => Some(m.medianAccept)
    case PctSeenField => Some(m.pctSeen as real)
    case PctScheduledField => Some(m.pctScheduled as real)
    case _ => None
  }

  datatype TargetName = RoutineTarget | UrgentTarget {
    function Label(): string {
      match this
      case RoutineTarget => "Target Pct Routine Referrals Seen in 30d"
      case UrgentTarget => "Target Pct Urgent Referrals Seen in 5d"
    }
  }

  /** The measures a variance compares. */
  datatype VarianceBase = RoutinePct | UrgentPct | MedianSeen | MedianScheduled {
    function Label(): string {
      match this
      case RoutinePct => "Pct Routine Referrals Seen in 30d"
      case UrgentPct => "Pct Urgent Referrals Seen in 5d"
      case MedianSeen => "Median Days until Seen"
      case MedianScheduled => "Median Days until Scheduled"
    }

    /** The column of this measure in a window. */
    function In(w: Window): Column {
      match this
      case RoutinePct => RoutineCol(w, PctSeenWithinField)
      case UrgentPct => UrgentCol(w, PctSeenWithinField)
      case MedianSeen => AllCol(w, MedianSeenField)
      case MedianScheduled => AllCol(w, MedianScheduledField)
    }
  }

  /** A trend (a window against the next longer one) or a window against its target. */
  datatype VarianceName = Trend(base: VarianceBase, w: Window) | VsTarget(base: VarianceBase, w: Window) {
    function Label(): string {
      "Var " + (if VsTarget? then "Target " else "") + w.Prefix() + base.Label()
    }
  }

  datatype CategoryName = RoutinePerformance | RoutineImprovement | UrgentPerformance | UrgentImprovement {
    function Label(): string {
      match this
      case RoutinePerformance => "Routine Performance vs. Target"
      case RoutineImprovement => "Routine Improvement Direction"
      case UrgentPerformance => "Urgent Performance vs. Target"
      case UrgentImprovement => "Urgent Improvement Direction"
    }
  }

  /** A column of the month table. */
  datatype Column =
    | ClinicCol
    | UrgentCol(w: Window, f: Field)
    | RoutineCol(w: Window, f: Field)
    | AllCol(w: Window, f: Field)
    | AgeToScheduledCol
    | AgeToSeenCol
    | TargetCol(t: TargetName)
    | VarianceCol(v: VarianceName)
    | DirectionCol(v: VarianceName)
    | CategoryCol(c: CategoryName)

  /** A cell: a number, a text, or NaN. */
  datatype Value = Num(x: real) | Text(s: string) | NaN

  datatype ClinicRow = ClinicRow(
    clinic: string,
    urgent: map<Window, PriorityMeasures>,
    routine: map<Window, PriorityMeasures>,
    all: map<Window, AllMeasures>,
    ageToScheduled: AgeCategory,
    ageToSeen: AgeCategory,
    targets: map<TargetName, real>,
    variances: map<VarianceName, real>,
    directions: map<VarianceName, string>,
    categories: map<CategoryName, Option<string>>)

  /** The number in a numeric column, None when the row has no such numeric column. */
  function NumAt(row: ClinicRow, col: Column): Option<real> {
    match col
    case UrgentCol(w, f) => if w in row.urgent then PriorityField(row.urgent[w], f) else None
    case RoutineCol(w, f) => if w in row.routine then PriorityField(row.routine[w], f) else None
    case AllCol(w, f) => if w in row.all then AllField(row.all[w], f) else None
    case TargetCol(t) => if t in row.targets then Some(row.targets[t]) else None
    case VarianceCol(v) => if v in row.variances then Some(row.variances[v]) else None
    case _ => None
  }

  /** Any cell; None when the column does not exist. */
  function CellAt(row: ClinicRow, col: Column): Option<Value> {
    match col
    case ClinicCol => Some(Text(row.clinic))
    case AgeToScheduledCol => Some(Text(row.ageToScheduled.Label()))
    case AgeToSeenCol => Some(Text(row.ageToSeen.Label()))
    case DirectionCol(v) => if v in row.directions then Some(Text(row.directions[v])) else None
    case CategoryCol(c) =>
      if c !in row.categories then None
      else if row.categories[c].Some? then Some(Text(row.categories[c].value)) else Some(NaN)
    case _ => if NumAt(row, col).Some? then Some(Num(NumAt(row, col).value)) else None
  }

  // ---- Targets ----

  /** Both targets are the constant 50 percent. */
  function WithTargets(row: ClinicRow): ClinicRow {
    row.(targets := row.targets[RoutineTarget := 50.0][UrgentTarget := 50.0])
  }

  // ---- Dependent variances ----

  datatype VarianceDef = VarianceDef(measure: VarianceName, value: Column, standard: Column)

  /** A moving window against the next longer one. */
  function TrendDef(base: VarianceBase, shorter: Window, longer: Window): VarianceDef {
    VarianceDef(Trend(base, longer), base.In(shorter), base.In(longer))
  }

  function TargetDef(base: VarianceBase, w: Window, t: TargetName): VarianceDef {
    VarianceDef(VsTarget(base, w), base.In(w), TargetCol(t))
  }

  /** The twenty variances, in the order the dashboard defines them. */
  const DependentVariances: seq<VarianceDef> := [
    TrendDef(RoutinePct, Mov28, Mov91), TrendDef(RoutinePct, Mov91, Mov182), TrendDef(RoutinePct, Mov182, Mov364),
    TargetDef(RoutinePct, MonthWindow, RoutineTarget), TargetDef(RoutinePct, Mov91, RoutineTarget),
    TargetDef(RoutinePct, Mov182, RoutineTarget), TargetDef(RoutinePct, Mov364, RoutineTarget),
    TrendDef(UrgentPct, Mov28, Mov91), TrendDef(UrgentPct, Mov91, Mov182), TrendDef(UrgentPct, Mov182, Mov364),
    TargetDef(UrgentPct, MonthWindow, UrgentTarget), TargetDef(UrgentPct, Mov91, UrgentTarget),
    TargetDef(UrgentPct, Mov182, UrgentTarget), TargetDef(UrgentPct, Mov364, UrgentTarget),
    TrendDef(MedianSeen, Mov28, Mov91), TrendDef(MedianSeen, Mov91, Mov182), TrendDef(MedianSeen, Mov182, Mov364),
    TrendDef(MedianScheduled, Mov28, Mov91), TrendDef(MedianScheduled, Mov91, Mov182),
    TrendDef(MedianScheduled, Mov182, Mov364)]

  /** The direction glyph of a variance. */
  function UpOrDown(x: real): (g: string)
    ensures g == "▼" <==> x < 0.0
    ensures g == "▲" <==> x > 0.0
    ensures g == "-" <==> x == 0.0
  {
    if x < 0.0 then "▼" else if x > 0.0 then "▲" else "-"
  }

  /** The variance's value and standard are numeric columns of the row, and not variances themselves. */
  predicate Applicable(row: ClinicRow, d: VarianceDef) {
    NumAt(row, d.value).Some? && NumAt(row, d.standard).Some? &&
    !d.value.VarianceCol? && !d.standard.VarianceCol?
  }

  function ApplyVariance(row: ClinicRow, d: VarianceDef): ClinicRow
    requires Applicable(row, d)
  {
    var x := VarianceValue(row, d);
    row.(variances := row.variances[d.measure := x], directions := row.directions[d.measure := UpOrDown(x)])
  }

  /** Adding a variance leaves every non-variance column as it was. */
  lemma ApplyVarianceKeeps(row: ClinicRow, d: VarianceDef, col: Column)
    requires Applicable(row, d) && !col.VarianceCol?
    ensures NumAt(ApplyVariance(row, d), col) == NumAt(row, col)
  {
  }

  predicate AllApplicable(row: ClinicRow, defs: seq<VarianceDef>) {
    forall k :: 0 <= k < |defs| ==> Applicable(row, defs[k])
  }

  /** The row with every variance of defs added, in order. */
  function ApplyVariances(row: ClinicRow, defs: seq<VarianceDef>): (r: ClinicRow)
    requires AllApplicable(row, defs)
    ensures r.clinic == row.clinic && r.urgent == row.urgent && r.routine == row.routine && r.all == row.all
    ensures r.targets == row.targets && r.categories == row.categories
    ensures r.ageToScheduled == row.ageToScheduled && r.ageToSeen == row.ageToSeen
    decreases |defs|
  {
    if |defs| == 0 then row
    else
      var d := defs[|defs| - 1];
      var prev := ApplyVariances(row, defs[..|defs| - 1]);
      assert Applicable(prev, d) by {
        assert Applicable(row, d);
        assert NumAt(prev, d.value) == NumAt(row, d.value) by { NonVarianceColumnsKept(row, prev, d.value); }
        assert NumAt(prev, d.standard) == NumAt(row, d.standard) by { NonVarianceColumnsKept(row, prev, d.standard); }
      }
      ApplyVariance(prev, d)
  }

  lemma NonVarianceColumnsKept(row: ClinicRow, other: ClinicRow, col: Column)
    requires other.urgent == row.urgent && other.routine == row.routine && other.all == row.all
    requires other.targets == row.targets && !col.VarianceCol?
    ensures NumAt(other, col) == NumAt(row, col)
  {
  }

  predicate DistinctMeasures(defs: seq<VarianceDef>) {
    forall i, j :: 0 <= i < j < |defs| ==> defs[i].measure != defs[j].measure
  }

  lemma ApplicablePrefix(row: ClinicRow, defs: seq<VarianceDef>, n: int)
    requires AllApplicable(row, defs) && 0 <= n <= |defs|
    ensures AllApplicable(row, defs[..n])
  {
    forall j | 0 <= j < n ensures Applicable(row, defs[..n][j]) {
      assert defs[..n][j] == defs[j];
    }
  }

  lemma DistinctPrefix(defs: seq<VarianceDef>, n: int)
    requires DistinctMeasures(defs) && 0 <= n <= |defs|
    ensures DistinctMeasures(defs[..n])
  {
    forall i, j | 0 <= i < j < n ensures defs[..n][i].measure != defs[..n][j].measure {
      assert defs[..n][i] == defs[i] && defs[..n][j] == defs[j];
    }
  }

  /** The variances of the first k + 1 definitions are those of the first k plus the k-th. */
  lemma ApplyVariancesNext(row: ClinicRow, defs: seq<VarianceDef>, k: int)
    requires AllApplicable(row, defs) && 0 <= k < |defs|
    ensures AllApplicable(row, defs[..k]) && AllApplicable(row, defs[..k + 1])
    ensures Applicable(ApplyVariances(row, defs[..k]), defs[k])
    ensures ApplyVariances(row, defs[..k + 1]) == ApplyVariance(ApplyVariances(row, defs[..k]), defs[k])
  {
    ApplicablePrefix(row, defs, k);
    ApplicablePrefix(row, defs, k + 1);
    assert defs[..k + 1][..k] == defs[..k];
    var prev := ApplyVariances(row, defs[..k]);
    NonVarianceColumnsKept(row, prev, defs[k].value);
    NonVarianceColumnsKept(row, prev, defs[k].standard);
  }

  /** The difference a definition computes on a row. */
  function VarianceValue(row: ClinicRow, d: VarianceDef): real
    requires Applicable(row, d)
  {
    NumAt(row, d.value).value - NumAt(row, d.standard).value
  }

  /** The last definition sets its variance, computed on the original row, over the earlier ones. */
  lemma ApplyVariancesLast(row: ClinicRow, defs: seq<VarianceDef>)
    requires AllApplicable(row, defs) && |defs| > 0
    ensures var d := defs[|defs| - 1];
      var prev := ApplyVariances(row, defs[..|defs| - 1]);
      var r := ApplyVariances(row, defs);
      r.variances == prev.variances[d.measure := VarianceValue(row, d)] &&
      r.directions == prev.directions[d.measure := UpOrDown(VarianceValue(row, d))]
  {
    var d := defs[|defs| - 1];
    var prev := ApplyVariances(row, defs[..|defs| - 1]);
    NonVarianceColumnsKept(row, prev, d.value);
    NonVarianceColumnsKept(row, prev, d.standard);
    assert VarianceValue(prev, d) == VarianceValue(row, d);
  }

  /**
   * Each variance is its value minus its standard, with the matching glyph.
   */
  lemma {:induction false} VarianceMeaning(row: ClinicRow, defs: seq<VarianceDef>, k: int)
    requires AllApplicable(row, defs) && DistinctMeasures(defs) && 0 <= k < |defs|
    ensures var r := ApplyVariances(row, defs);
      defs[k].measure in r.variances && r.variances[defs[k].measure] == VarianceValue(row, defs[k]) &&
      defs[k].measure in r.directions && r.directions[defs[k].measure] == UpOrDown(VarianceValue(row, defs[k]))
    decreases |defs|
  {
    var n := |defs| - 1;
    var init := defs[..n];
    ApplyVariancesLast(row, defs);
    if k < n {
      ApplicablePrefix(row, defs, n);
      DistinctPrefix(defs, n);
      assert init[k] == defs[k];
      VarianceMeaning(row, init, k);
      assert defs[n].measure != defs[k].measure;
    }
  }

  /** The variance names a list of definitions adds. */
  function MeasuresOf(defs: seq<VarianceDef>): set<VarianceName> {
    if |defs| == 0 then {} else MeasuresOf(defs[..|defs| - 1]) + {defs[|defs| - 1].measure}
  }

  /** Only the defined variances appear. */
  lemma {:induction false} VarianceKeys(row: ClinicRow, defs: seq<VarianceDef>)
    requires AllApplicable(row, defs)
    ensures ApplyVariances(row, defs).variances.Keys == row.variances.Keys + MeasuresOf(defs)
    ensures ApplyVariances(row, defs).directions.Keys == row.directions.Keys + MeasuresOf(defs)
    decreases |defs|
  {
    if |defs| > 0 {
      var n := |defs| - 1;
      ApplicablePrefix(row, defs, n);
      VarianceKeys(row, defs[..n]);
    }
  }

  function BaseRank(b: VarianceBase): int {
    match b
    case RoutinePct => 0
    case UrgentPct => 1
    case MedianSeen => 2
    case MedianScheduled => 3
  }

  function WindowRank(w: Window): int {
    match w
    case MonthWindow => 0
    case Mov28 => 1
    case Mov91 => 2
    case Mov182 => 3
    case Mov364 => 4
  }

  /** A numbering of the variance names: measure, then trend or target, then window. */
  function VarianceCode(v: VarianceName): int {
    100 * BaseRank(v.base) + (if v.VsTarget? then 10 else 0) + WindowRank(v.w)
  }

  predicate CodesIncrease(defs: seq<VarianceDef>) {
    forall k :: 0 <= k < |defs| - 1 ==> VarianceCode(defs[k].measure) < VarianceCode(defs[k + 1].measure)
  }

  /** Codes that rise from each definition to the next rise across any two. */
  lemma {:induction false} CodesIncreaseApart(defs: seq<VarianceDef>, i: int, j: int)
    requires CodesIncrease(defs) && 0 <= i < j < |defs|
    ensures VarianceCode(defs[i].measure) < VarianceCode(defs[j].measure)
    decreases j - i
  {
    if j > i + 1 {
      CodesIncreaseApart(defs, i, j - 1);
    }
  }

  /** Definitions whose codes rise name different variances. */
  lemma IncreasingDistinct(defs: seq<VarianceDef>)
    requires CodesIncrease(defs)
    ensures DistinctMeasures(defs)
  {
    forall i, j | 0 <= i < j < |defs| ensures defs[i].measure != defs[j].measure {
      CodesIncreaseApart(defs, i, j);
    }
  }

  lemma DependentVariancesCodesIncrease()
    ensures CodesIncrease(DependentVariances)
  {
    var codes := [2, 3, 4, 10, 12, 13, 14, 102, 103, 104, 110, 112, 113, 114, 202, 203, 204, 302, 303, 304];
    forall k | 0 <= k < |DependentVariances| ensures VarianceCode(DependentVariances[k].measure) == codes[k] {
    }
  }

  /** The twenty definitions name twenty different variances. */
  lemma DependentVariancesDistinct()
    ensures |DependentVariances| == 20
    ensures DistinctMeasures(DependentVariances)
  {
    DependentVariancesCodesIncrease();
    IncreasingDistinct(DependentVariances);
  }

  // ---- Variance categories ----

  datatype CategoryDef = CategoryDef(
    category: CategoryName,
    nearTerm: VarianceName,
    midTerm: VarianceName,
    longTerm: VarianceName,
    rubric: map<int, string>)

  const PerformanceRubric: map<int, string> := map[
    111 := "Consistent Performer", 11 := "Rising Recovery", 110 := "Performer", 10 := "Setback Recovery",
    101 := "Bouncing Back", 1 := "Turning Upward", 100 := "Falling", 0 := "Consistently Under"]

  const ImprovementRubric: map<int, string> := map[
    111 := "Rising", 11 := "Rising Recovery", 110 := "Rising", 10 := "Setback Recovery",
    101 := "Bouncing Back", 1 := "Turning Upward", 100 := "Falling", 0 := "Falling"]

  const VarianceCategories: seq<CategoryDef> := [
    CategoryDef(RoutinePerformance, VsTarget(RoutinePct, Mov91), VsTarget(RoutinePct, Mov182),
                VsTarget(RoutinePct, Mov364), PerformanceRubric),
    CategoryDef(RoutineImprovement, Trend(RoutinePct, Mov91), Trend(RoutinePct, Mov182),
                Trend(RoutinePct, Mov364), ImprovementRubric),
    CategoryDef(UrgentPerformance, VsTarget(UrgentPct, Mov91), VsTarget(UrgentPct, Mov182),
                VsTarget(UrgentPct, Mov364), PerformanceRubric),
    CategoryDef(UrgentImprovement, Trend(UrgentPct, Mov91), Trend(UrgentPct, Mov182),
                Trend(UrgentPct, Mov364), ImprovementRubric)]

  /** A variance earns its weight when it is not negative (zero counts). */
  function Score(x: real, weight: int): int {
    if x >= 0.0 then weight else 0
  }

  /** The score of a row for a category: 1 near-term, 10 mid-term, 100 long-term. */
  function ScoreOf(row: ClinicRow, c: CategoryDef): (s: int)
    requires c.nearTerm in row.variances && c.midTerm in row.variances && c.longTerm in row.variances
    ensures s in {0, 1, 10, 11, 100, 101, 110, 111}
    ensures s % 10 == 1 <==> row.variances[c.nearTerm] >= 0.0
    ensures (s / 10) % 10 == 1 <==> row.variances[c.midTerm] >= 0.0
    ensures s / 100 == 1 <==> row.variances[c.longTerm] >= 0.0
  {
    Score(row.variances[c.nearTerm], 1) + Score(row.variances[c.midTerm], 10)
      + Score(row.variances[c.longTerm], 100)
  }

  predicate Scorable(row: ClinicRow, c: CategoryDef) {
    c.nearTerm in row.variances && c.midTerm in row.variances && c.longTerm in row.variances
  }

  /** The rubric's name for the score; a score the rubric lacks maps to NaN. */
  function ApplyCategory(row: ClinicRow, c: CategoryDef): ClinicRow
    requires Scorable(row, c)
  {
    var s := ScoreOf(row, c);
    row.(categories := row.categories[c.category := if s in c.rubric then Some(c.rubric[s]) else None])
  }

  function ApplyCategories(row: ClinicRow, cats: seq<CategoryDef>): (r: ClinicRow)
    requires forall k :: 0 <= k < |cats| ==> Scorable(row, cats[k])
    ensures r.(categories := row.categories) == row
    decreases |cats|
  {
    if |cats| == 0 then row
    else
      var prev := ApplyCategories(row, cats[..|cats| - 1]);
      assert cats[|cats| - 1] == cats[|cats| - 1];
      assert Scorable(prev, cats[|cats| - 1]) by {
        assert prev.variances == row.variances;
        assert Scorable(row, cats[|cats| - 1]);
      }
      ApplyCategory(prev, cats[|cats| - 1])
  }

  /** A rubric that names all eight possible scores. */
  predicate TotalRubric(rubric: map<int, string>) {
    forall s :: s in {0, 1, 10, 11, 100, 101, 110, 111} ==> s in rubric
  }

  lemma RubricsTotal()
    ensures forall k :: 0 <= k < |VarianceCategories| ==> TotalRubric(VarianceCategories[k].rubric)
  {
  }

  /** With a total rubric, every clinic receives a named category. */
  lemma CategoryAlwaysNamed(row: ClinicRow, c: CategoryDef)
    requires Scorable(row, c) && TotalRubric(c.rubric)
    ensures var r := ApplyCategory(row, c);
      c.category in r.categories && r.categories[c.category].Some? &&
      r.categories[c.category].value == c.rubric[ScoreOf(row, c)]
  {
  }

  /** Performance against target: all three windows at or above target is a consistent performer. */
  lemma ConsistentPerformer(row: ClinicRow)
    requires Scorable(row, VarianceCategories[0])
    ensures var c := VarianceCategories[0];
      ApplyCategory(row, c).categories[RoutinePerformance] == Some("Consistent Performer") <==>
      row.variances[c.nearTerm] >= 0.0 && row.variances[c.midTerm] >= 0.0 && row.variances[c.longTerm] >= 0.0
  {
    var c := VarianceCategories[0];
    var s := ScoreOf(row, c);
    if ApplyCategory(row, c).categories[RoutinePerformance] == Some("Consistent Performer") {
      assert c.rubric[s] == "Consistent Performer";
      assert s == 111;
    }
  }

  // ---- The month frame ----

  /** The month table, whose columns the variance steps extend in place. */
  class MonthFrame {
    var rows: seq<ClinicRow>

    constructor(rows0: seq<ClinicRow>)
      ensures rows == rows0
    {
      rows := rows0;
    }

    /** Adds the two constant target columns. */
    method AddTargets()
      modifies this
      ensures |rows| == |old(rows)|
      ensures forall i :: 0 <= i < |rows| ==> rows[i] == WithTargets(old(rows)[i])
    {
      rows := seq(|rows|, i requires 0 <= i < |rows| reads this => WithTargets(rows[i]));
    }

    /** Adds each variance and its direction column, one definition at a time. */
    method CalculateDependentVariances(defs: seq<VarianceDef>)
      requires forall i :: 0 <= i < |rows| ==> AllApplicable(rows[i], defs)
      modifies this
      ensures |rows| == |old(rows)|
      ensures forall i :: 0 <= i < |rows| ==> rows[i] == ApplyVariances(old(rows)[i], defs)
    {
      var start := rows;
      for k := 0 to |defs|
        invariant |rows| == |start|
        invariant forall i :: 0 <= i < |rows| ==> rows[i] == ApplyVariances(start[i], defs[..k])
      {
        forall i | 0 <= i < |rows|
          ensures Applicable(rows[i], defs[k])
          ensures ApplyVariances(start[i], defs[..k + 1]) == ApplyVariance(rows[i], defs[k])
        {
          ApplyVariancesNext(start[i], defs, k);
        }
        var prev := rows;
        rows := seq(|prev|, i requires 0 <= i < |prev| =>
          if Applicable(prev[i], defs[k]) then ApplyVariance(prev[i], defs[k]) else prev[i]);
      }
      assert defs[..|defs|] == defs;
    }

    /** Tags each clinic with the rubric name of its score, one category at a time. */
    method CalculateVarianceCategories(cats: seq<CategoryDef>)
      requires forall i, k :: 0 <= i < |rows| && 0 <= k < |cats| ==> Scorable(rows[i], cats[k])
      modifies this
      ensures |rows| == |old(rows)|
      ensures forall i :: 0 <= i < |rows| ==> rows[i] == ApplyCategories(old(rows)[i], cats)
    {
      var start := rows;
      for k := 0 to |cats|
        invariant |rows| == |start|
        invariant forall i :: 0 <= i < |rows| ==> rows[i] == ApplyCategories(start[i], cats[..k])
        invariant forall i :: 0 <= i < |rows| ==> rows[i].variances == start[i].variances
      {
        assert cats[..k + 1][..k] == cats[..k];
        var prev := rows;
        rows := seq(|prev|, i requires 0 <= i < |prev| =>
          if Scorable(prev[i], cats[k]) then ApplyCategory(prev[i], cats[k]) else prev[i]);
      }
      assert cats[..|cats|] == cats;
    }
  }
}
