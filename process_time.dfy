/**
 * The process measures of each reporting month: the month table (a "*ALL*"
 * row followed by one row per clinic, every window's measures merged in and
 * zero-filled), the twelve stored months, and the lookups the dashboard
 * calls.
 */
module ProcessTime {
  import opened Wrappers
  import opened Referrals
  import opened ProcessWindows
  import opened ProcessFrame
  import Strings
  import Calendar
  import Rounding

  /** The clinic column of the master table. */
  function ClinicNames(rs: seq<Referral>): (s: seq<string>)
    ensures |s| == |rs|
    ensures forall i :: 0 <= i < |rs| ==> s[i] == rs[i].raw.clinic
  {
    seq(|rs|, i requires 0 <= i < |rs| => rs[i].raw.clinic)
  }

  /** The rows of the month table: "*ALL*", then the sorted distinct clinic names. */
  function ClinicList(rs: seq<Referral>): (cs: seq<string>)
    ensures |cs| >= 1 && cs[0] == AllClinics
    ensures Strings.StrictlySorted(cs[1..])
    ensures forall c :: c in cs[1..] <==> exists i :: 0 <= i < |rs| && rs[i].raw.clinic == c
  {
    var sorted := Strings.SortedUnique(ClinicNames(rs));
    assert ([AllClinics] + sorted)[1..] == sorted;
    [AllClinics] + sorted
  }

  /** No referral is filed under the placeholder clinic name. */
  predicate NoPlaceholderClinic(rs: seq<Referral>) {
    forall i :: 0 <= i < |rs| ==> rs[i].raw.clinic != AllClinics
  }

  const ZeroPriority: PriorityMeasures := PriorityMeasures(0, 0, 0, 0, 0, 0, 0, 0, 0, 0, Some(0.0))
  const ZeroAll: AllMeasures := AllMeasures(0, 0, 0, 0, 0, 0, 0, 0, 0, 0, 0, 0, 0.0, 0.0, 0.0, 0.0, 0, 0)

  /** A left merge followed by fillna(0): a clinic without a row gets zeros, NaN becomes 0. */
  function FillPriority(m: map<string, PriorityMeasures>, c: string): (p: PriorityMeasures)
    ensures p.pct.Some?
    ensures c !in m ==> p == ZeroPriority
    ensures c in m ==> p.(pct := m[c].pct) == m[c] && p.pct.value == m[c].pct.GetOr(0.0)
  {
    if c in m then m[c].(pct := Some(m[c].pct.GetOr(0.0))) else ZeroPriority
  }

  function FillAll(m: map<string, AllMeasures>, c: string): (a: AllMeasures)
    ensures c !in m ==> a == ZeroAll
    ensures c in m ==> a == m[c]
  {
    if c in m then m[c] else ZeroAll
  }

  /** The 5-day measures of one clinic in every window. */
  function UrgentByWindow(rs: seq<Referral>, clinics: seq<string>, key: int, c: string): (m: map<Window, PriorityMeasures>)
    ensures forall w :: w in Windows ==> w in m && m[w].pct.Some?
  {
    map w | w in Windows :: FillPriority(MeasuresAfter5Days(rs, clinics, w.Start(key), WindowEnd(key)), c)
  }

  /** The 30-day measures of one clinic in every window. */
  function RoutineByWindow(rs: seq<Referral>, clinics: seq<string>, key: int, c: string): (m: map<Window, PriorityMeasures>)
    ensures forall w :: w in Windows ==> w in m && m[w].pct.Some?
  {
    map w | w in Windows :: FillPriority(MeasuresAfter30Days(rs, clinics, w.Start(key), WindowEnd(key)), c)
  }

  /** The 90-day measures of one clinic in every window. */
  function AllByWindow(rs: seq<Referral>, clinics: seq<string>, key: int, c: string): (m: map<Window, AllMeasures>)
    ensures forall w :: w in Windows ==> w in m
  {
    map w | w in Windows :: FillAll(MeasuresAfter90Days(rs, clinics, w.Start(key), WindowEnd(key)), c)
  }

  /** The row of one clinic before targets, variances and categories are added. */
  function BuildRow(rs: seq<Referral>, clinics: seq<string>, key: int, c: string): (row: ClinicRow)
    ensures row.clinic == c && Complete(row)
  {
    var all := AllByWindow(rs, clinics, key, c);
    WindowsListed(MonthWindow);
    ClinicRow(c, UrgentByWindow(rs, clinics, key, c), RoutineByWindow(rs, clinics, key, c), all,
      AgeCategoryOf(Some(all[MonthWindow].medianScheduled)),
      AgeCategoryOf(Some(all[MonthWindow].medianSeen)),
      map[], map[], map[], map[])
  }

  /** The merged, zero-filled month table. */
  function ProcessMeasuresForMonth(rs: seq<Referral>, key: int): (rows: seq<ClinicRow>)
    ensures |rows| == |ClinicList(rs)|
    ensures forall i :: 0 <= i < |rows| ==> rows[i].clinic == ClinicList(rs)[i] && Complete(rows[i])
  {
    var cs := ClinicList(rs);
    seq(|cs|, i requires 0 <= i < |cs| => BuildRow(rs, cs, key, cs[i]))
  }

  /** Row i of the month table is the merged row of the i-th listed clinic. */
  lemma MonthRowAt(rs: seq<Referral>, key: int, i: int)
    requires 0 <= i < |ClinicList(rs)|
    ensures ProcessMeasuresForMonth(rs, key)[i] == BuildRow(rs, ClinicList(rs), key, ClinicList(rs)[i])
  {
  }

  /** The 90-day distribution of the report month. */
  function DistributionsForMonth(rs: seq<Referral>, key: int): map<DistKey, int> {
    DistributionsAfter90Days(rs, ClinicList(rs), Calendar.FirstDay(key), WindowEnd(key))
  }

  /** A row after targets, the twenty variances and the four categories are added. */
  function FinalRow(row: ClinicRow): ClinicRow
    requires Complete(row)
  {
    var t := WithTargets(row);
    TargetsMakeVariancesApplicable(row);
    var v := ApplyVariances(t, DependentVariances);
    CategoriesScorable(t);
    ApplyCategories(v, VarianceCategories)
  }

  /** Each row with targets, variances and categories added. */
  function FinalRows(base: seq<ClinicRow>): (rows: seq<ClinicRow>)
    requires forall i :: 0 <= i < |base| ==> Complete(base[i])
    ensures |rows| == |base|
    ensures forall i :: 0 <= i < |base| ==> rows[i] == FinalRow(base[i])
  {
    seq(|base|, i requires 0 <= i < |base| => FinalRow(base[i]))
  }

  /** The stored table of a report month. */
  function MonthTable(rs: seq<Referral>, key: int): (rows: seq<ClinicRow>)
    ensures |rows| == |ClinicList(rs)|
  {
    FinalRows(ProcessMeasuresForMonth(rs, key))
  }

  /** Every window of every aggregation is present and its percentage filled. */
  predicate Complete(row: ClinicRow) {
    (forall w :: w in Windows ==> w in row.urgent && row.urgent[w].pct.Some?) &&
    (forall w :: w in Windows ==> w in row.routine && row.routine[w].pct.Some?) &&
    (forall w :: w in Windows ==> w in row.all)
  }

  /** A column a variance may read: a window's percentage or median, or a target. */
  predicate Measured(col: Column) {
    match col
    case UrgentCol(_, f) => f == PctSeenWithinField
    case RoutineCol(_, f) => f == PctSeenWithinField
    case AllCol(_, f) => f == MedianSeenField || f == MedianScheduledField
    case TargetCol(_) => true
    case _ => false
  }

  /** Once targets are added, every measured column of a complete row holds a number. */
  lemma MeasuredNumeric(row: ClinicRow, col: Column)
    requires Complete(row) && Measured(col)
    ensures NumAt(WithTargets(row), col).Some?
  {
    var t := WithTargets(row);
    match col
    case UrgentCol(w, _) => WindowsListed(w); assert t.urgent == row.urgent;
    case RoutineCol(w, _) => WindowsListed(w); assert t.routine == row.routine;
    case AllCol(w, _) => WindowsListed(w); assert t.all == row.all;
    case TargetCol(n) => assert n in t.targets by { if n.RoutineTarget? {} else {} }
  }

  /** Each of the twenty definitions reads two measured columns. */
  lemma DependentVariancesMeasured()
    ensures forall k :: 0 <= k < |DependentVariances| ==>
      Measured(DependentVariances[k].value) && Measured(DependentVariances[k].standard)
  {
  }

  lemma TargetsMakeVariancesApplicable(row: ClinicRow)
    requires Complete(row)
    ensures AllApplicable(WithTargets(row), DependentVariances)
  {
    DependentVariancesMeasured();
    forall k | 0 <= k < |DependentVariances| ensures Applicable(WithTargets(row), DependentVariances[k]) {
      MeasuredNumeric(row, DependentVariances[k].value);
      MeasuredNumeric(row, DependentVariances[k].standard);
    }
  }

  /** The variance of the k-th definition is present after all twenty are applied. */
  lemma VarianceAdded(t: ClinicRow, k: int)
    requires AllApplicable(t, DependentVariances) && 0 <= k < |DependentVariances|
    ensures DependentVariances[k].measure in ApplyVariances(t, DependentVariances).variances
  {
    DependentVariancesDistinct();
    VarianceMeaning(t, DependentVariances, k);
  }

  /** A category whose three variances are the i-th, j-th and l-th definitions can be scored. */
  lemma ScorableFrom(t: ClinicRow, c: CategoryDef, i: int, j: int, l: int)
    requires AllApplicable(t, DependentVariances)
    requires 0 <= i < |DependentVariances| && 0 <= j < |DependentVariances| && 0 <= l < |DependentVariances|
    requires DependentVariances[i].measure == c.nearTerm
    requires DependentVariances[j].measure == c.midTerm
    requires DependentVariances[l].measure == c.longTerm
    ensures Scorable(ApplyVariances(t, DependentVariances), c)
  {
    VarianceAdded(t, i);
    VarianceAdded(t, j);
    VarianceAdded(t, l);
  }

  lemma RoutinePerformanceScorable(t: ClinicRow)
    requires AllApplicable(t, DependentVariances)
    ensures Scorable(ApplyVariances(t, DependentVariances), VarianceCategories[0])
  {
    ScorableFrom(t, VarianceCategories[0], 4, 5, 6);
  }

  lemma RoutineImprovementScorable(t: ClinicRow)
    requires AllApplicable(t, DependentVariances)
    ensures Scorable(ApplyVariances(t, DependentVariances), VarianceCategories[1])
  {
    ScorableFrom(t, VarianceCategories[1], 0, 1, 2);
  }

  lemma UrgentPerformanceScorable(t: ClinicRow)
    requires AllApplicable(t, DependentVariances)
    ensures Scorable(ApplyVariances(t, DependentVariances), VarianceCategories[2])
  {
    ScorableFrom(t, VarianceCategories[2], 11, 12, 13);
  }

  lemma UrgentImprovementScorable(t: ClinicRow)
    requires AllApplicable(t, DependentVariances)
    ensures Scorable(ApplyVariances(t, DependentVariances), VarianceCategories[3])
  {
    ScorableFrom(t, VarianceCategories[3], 7, 8, 9);
  }

  /** After the variances are added, every category's three variances exist. */
  lemma CategoriesScorable(t: ClinicRow)
    requires AllApplicable(t, DependentVariances)
    ensures var v := ApplyVariances(t, DependentVariances);
      forall k :: 0 <= k < |VarianceCategories| ==> Scorable(v, VarianceCategories[k])
  {
    RoutinePerformanceScorable(t);
    RoutineImprovementScorable(t);
    UrgentPerformanceScorable(t);
    UrgentImprovementScorable(t);
  }

  /** Adds targets, variances and categories to complete rows on a month frame, step by step. */
  method FinishRows(base: seq<ClinicRow>) returns (rows: seq<ClinicRow>)
    requires forall i :: 0 <= i < |base| ==> Complete(base[i])
    ensures rows == FinalRows(base)
  {
    var frame := new MonthFrame(base);
    frame.AddTargets();
    forall i | 0 <= i < |base| ensures AllApplicable(frame.rows[i], DependentVariances) {
      TargetsMakeVariancesApplicable(base[i]);
    }
    frame.CalculateDependentVariances(DependentVariances);
    forall i, k | 0 <= i < |base| && 0 <= k < |VarianceCategories|
      ensures Scorable(frame.rows[i], VarianceCategories[k])
    {
      TargetsMakeVariancesApplicable(base[i]);
      CategoriesScorable(WithTargets(base[i]));
    }
    frame.CalculateVarianceCategories(VarianceCategories);
    rows := frame.rows;
  }

  /** Builds one month's table. */
  method CalculateMonth(rs: seq<Referral>, key: int) returns (rows: seq<ClinicRow>)
    ensures rows == MonthTable(rs, key)
  {
    var base := ProcessMeasuresForMonth(rs, key);
    rows := FinishRows(base);
  }

  // ---- The twelve stored months ----

  /** The first stored month: twelve months before the as-of month. */
  const FirstMonth: int := Calendar.AsOfMonth - 12

  /** The position of the first row for the clinic, in table order. */
  function FirstIndex(rows: seq<ClinicRow>, clinic: string): (k: Option<nat>)
    ensures k.None? <==> forall i :: 0 <= i < |rows| ==> rows[i].clinic != clinic
    ensures k.Some? ==> k.value < |rows| && rows[k.value].clinic == clinic
    ensures k.Some? ==> forall j :: 0 <= j < k.value ==> rows[j].clinic != clinic
  {
    if |rows| == 0 then None
    else if rows[0].clinic == clinic then Some(0)
    else
      var k := FirstIndex(rows[1..], clinic);
      if k.Some? then Some(k.value + 1) else None
  }

  /** The tables of months first .. next - 1, keyed by month. */
  function TablesBetween(rs: seq<Referral>, first: int, next: int): map<int, seq<ClinicRow>>
    decreases next - first
  {
    if next <= first then map[] else TablesBetween(rs, first, next - 1)[next - 1 := MonthTable(rs, next - 1)]
  }

  /** The distributions of months first .. next - 1, keyed by month. */
  function DistributionsBetween(rs: seq<Referral>, first: int, next: int): map<int, map<DistKey, int>>
    decreases next - first
  {
    if next <= first then map[]
    else DistributionsBetween(rs, first, next - 1)[next - 1 := DistributionsForMonth(rs, next - 1)]
  }

  lemma TablesStep(rs: seq<Referral>, first: int, key: int)
    requires first <= key
    ensures TablesBetween(rs, first, key + 1) == TablesBetween(rs, first, key)[key := MonthTable(rs, key)]
  {
  }

  lemma DistributionsStep(rs: seq<Referral>, first: int, key: int)
    requires first <= key
    ensures DistributionsBetween(rs, first, key + 1) == DistributionsBetween(rs, first, key)[key := DistributionsForMonth(rs, key)]
  {
  }

  /** The stored months are exactly first .. next - 1. */
  lemma {:induction false} TablesBetweenKeys(rs: seq<Referral>, first: int, next: int, k: int)
    ensures k in TablesBetween(rs, first, next) <==> first <= k < next
    decreases next - first
  {
    if first < next && k != next - 1 {
      TablesBetweenKeys(rs, first, next - 1, k);
    }
  }

  /** Keeping equal values under the same key gives equal maps. */
  lemma UpdateWith<V>(m: map<int, V>, k: int, a: V, b: V)
    requires a == b
    ensures m[k := a] == m[k := b]
  {
  }

  /** Keeping month key after a merge is the merge of the extended months. */
  lemma MergeNext<V>(o: map<int, V>, t: map<int, V>, t2: map<int, V>, cm: map<int, V>, cm2: map<int, V>, key: int, v: V)
    requires cm == o + t
    requires t2 == t[key := v]
    requires cm2 == cm[key := v]
    ensures cm2 == o + t2
  {
  }

  lemma MergeEmpty<V>(b: map<int, V>)
    ensures map[] + b == b
  {
  }

  /** The first row for the clinic: what df[df['Clinic'] == clinic].iloc[0] selects. */
  function FirstRow(rows: seq<ClinicRow>, clinic: string): Option<ClinicRow> {
    var k := FirstIndex(rows, clinic);
    if k.Some? then Some(rows[k.value]) else None
  }

  /** The measure store: the month tables and distributions, keyed by report month. */
  class ProcessTimeStore {
    var clinicMeasures: map<int, seq<ClinicRow>>
    var distributionData: map<int, map<DistKey, int>>

    /** The month before the as-of month: the last complete reporting month. */
    const lastMonth: int
    /** The oldest stored month, twelve months before the as-of month. */
    const firstMonth: int

    constructor(rs: seq<Referral>)
      ensures lastMonth == Calendar.AsOfMonth - 1 && firstMonth == FirstMonth
      ensures clinicMeasures == TablesBetween(rs, firstMonth, firstMonth + 12)
      ensures distributionData == DistributionsBetween(rs, firstMonth, firstMonth + 12)
    {
      lastMonth := Calendar.AsOfMonth - 1;
      firstMonth := FirstMonth;
      clinicMeasures := map[];
      distributionData := map[];
      new;
      CalculateProcessTimeMeasures(rs);
      MergeEmpty(TablesBetween(rs, firstMonth, firstMonth + 12));
      MergeEmpty(DistributionsBetween(rs, firstMonth, firstMonth + 12));
    }

    /** Computes and keeps each of the twelve months, oldest first. */
    method CalculateProcessTimeMeasures(rs: seq<Referral>)
      modifies this
      ensures clinicMeasures == old(clinicMeasures) + TablesBetween(rs, firstMonth, firstMonth + 12)
      ensures distributionData == old(distributionData) + DistributionsBetween(rs, firstMonth, firstMonth + 12)
    {
      for key := firstMonth to firstMonth + 12
        invariant clinicMeasures == old(clinicMeasures) + TablesBetween(rs, firstMonth, key)
        invariant distributionData == old(distributionData) + DistributionsBetween(rs, firstMonth, key)
      {
        ghost var measuresBefore, distributionsBefore := clinicMeasures, distributionData;
        StoreMonth(rs, key);
        TablesStep(rs, firstMonth, key);
        MergeNext(old(clinicMeasures), TablesBetween(rs, firstMonth, key), TablesBetween(rs, firstMonth, key + 1),
          measuresBefore, clinicMeasures, key, MonthTable(rs, key));
        DistributionsStep(rs, firstMonth, key);
        MergeNext(old(distributionData), DistributionsBetween(rs, firstMonth, key), DistributionsBetween(rs, firstMonth, key + 1),
          distributionsBefore, distributionData, key, DistributionsForMonth(rs, key));
      }
    }

    /** Computes one month and keeps its table and distribution under the month. */
    method StoreMonth(rs: seq<Referral>, key: int)
      modifies this
      ensures clinicMeasures == old(clinicMeasures)[key := MonthTable(rs, key)]
      ensures distributionData == old(distributionData)[key := DistributionsForMonth(rs, key)]
    {
      var rows := CalculateMonth(rs, key);
      var dist := DistributionsForMonth(rs, key);
      UpdateWith(clinicMeasures, key, rows, MonthTable(rs, key));
      clinicMeasures := clinicMeasures[key := rows];
      distributionData := distributionData[key := dist];
    }

    /** Any cell of a clinic's row; a clinic without a row reads as 0; a missing column is None. */
    function GetClinicMeasure(month: int, clinic: string, col: Column): (v: Option<Value>)
      requires month in clinicMeasures
      reads this
      ensures FirstRow(clinicMeasures[month], clinic).None? ==> v == Some(Num(0.0))
      ensures FirstRow(clinicMeasures[month], clinic).Some? ==>
        v == CellAt(FirstRow(clinicMeasures[month], clinic).value, col)
    {
      var row := FirstRow(clinicMeasures[month], clinic);
      if row.None? then Some(Num(0.0)) else CellAt(row.value, col)
    }

    /** get_overall_measure: the clinic lookup for "*ALL*", which reads the table's leading "*ALL*" row. */
    function GetOverallMeasure(month: int, col: Column): (v: Option<Value>)
      requires month in clinicMeasures
      reads this
      ensures |clinicMeasures[month]| > 0 && clinicMeasures[month][0].clinic == AllClinics ==>
        v == CellAt(clinicMeasures[month][0], col)
      ensures (forall i :: 0 <= i < |clinicMeasures[month]| ==> clinicMeasures[month][i].clinic != AllClinics) ==>
        v == Some(Num(0.0))
    {
      GetClinicMeasure(month, AllClinics, col)
    }

    /** Whether the month table has the column with a numeric type. */
    function IsNumericColumn(month: int, col: Column): bool
      requires month in clinicMeasures
      reads this
    {
      |clinicMeasures[month]| > 0 && NumAt(clinicMeasures[month][0], col).Some?
    }

    /**
     * A numeric measure of the month offset months from report_month: 0.0 when
     * the clinic has no row; None (no value returned) when the column is not numeric.
     */
    function GetClinicRateMeasure(month: int, clinic: string, col: Column, offset: int): (r: Option<real>)
      requires month + offset in clinicMeasures
      reads this
      ensures !IsNumericColumn(month + offset, col) ==> r.None?
      ensures IsNumericColumn(month + offset, col) && FirstRow(clinicMeasures[month + offset], clinic).None?
        ==> r == Some(0.0)
    {
      var key := month + offset;
      if !IsNumericColumn(key, col) then None
      else
        var row := FirstRow(clinicMeasures[key], clinic);
        if row.None? then Some(0.0) else NumAt(row.value, col)
    }

    /** get_overall_rate_measure: the numeric cell of the leading "*ALL*" row; None for a column that is not numeric. */
    function GetOverallRateMeasure(month: int, col: Column): (r: Option<real>)
      requires month in clinicMeasures
      reads this
      ensures !IsNumericColumn(month, col) ==> r.None?
      ensures IsNumericColumn(month, col) && clinicMeasures[month][0].clinic == AllClinics ==>
        r == NumAt(clinicMeasures[month][0], col)
    {
      GetClinicRateMeasure(month, AllClinics, col, 0)
    }

    /** The same lookup, converted with int() (truncation toward zero). */
    function GetClinicCountMeasure(month: int, clinic: string, col: Column, offset: int): (r: Option<int>)
      requires month + offset in clinicMeasures
      reads this
      ensures r.Some? <==> GetClinicRateMeasure(month, clinic, col, offset).Some?
      ensures r.Some? ==> r.value == Rounding.Trunc(GetClinicRateMeasure(month, clinic, col, offset).value)
    {
      var x := GetClinicRateMeasure(month, clinic, col, offset);
      if x.Some? then Some(Rounding.Trunc(x.value)) else None
    }

    /** get_overall_count_measure: the same cell of the "*ALL*" row, truncated by int(). */
    function GetOverallCountMeasure(month: int, col: Column): (r: Option<int>)
      requires month in clinicMeasures
      reads this
      ensures !IsNumericColumn(month, col) ==> r.None?
      ensures IsNumericColumn(month, col) && clinicMeasures[month][0].clinic == AllClinics ==>
        (r.Some? <==> NumAt(clinicMeasures[month][0], col).Some?) &&
        (r.Some? ==> r.value == Rounding.Trunc(NumAt(clinicMeasures[month][0], col).value))
    {
      GetClinicCountMeasure(month, AllClinics, col, 0)
    }

    /** The clinic names of a month, in table order, without "*ALL*". */
    function GetClinics(month: int): (cs: seq<string>)
      requires month in clinicMeasures
      reads this
      ensures AllClinics !in cs
      ensures forall c :: c in cs <==> c != AllClinics && c in RowClinics(clinicMeasures[month])
      ensures forall i, j :: 0 <= i < j < |cs| ==> cs[i] != cs[j]
    {
      ClinicsExcept(clinicMeasures[month], AllClinics)
    }

    /** The aged count of a (clinic, priority, age category) group; 0 when there is none. */
    function GetClinicDistributionCount(month: int, clinic: string, category: string, priority: string): (n: int)
      requires month in distributionData
      reads this
      ensures DistKey(clinic, priority, category) !in distributionData[month] ==> n == 0
    {
      DistCount(distributionData[month], DistKey(clinic, priority, category))
    }
  }

  /** The stored distribution of each month is that month's 90-day distribution. */
  lemma {:induction false} DistributionsBetweenAt(rs: seq<Referral>, first: int, next: int, key: int)
    requires first <= key < next
    ensures key in DistributionsBetween(rs, first, next)
    ensures DistributionsBetween(rs, first, next)[key] == DistributionsForMonth(rs, key)
    decreases next - first
  {
    if key != next - 1 {
      DistributionsBetweenAt(rs, first, next - 1, key);
    }
  }

  /**
   * In a store filled from the referrals, a distribution lookup counts the aged
   * referrals of the (clinic, priority, age category) group among those that reached
   * 90 days in the month, and the seven age counts of a clinic and priority add up
   * to all of its aged referrals there.
   */
  lemma StoredDistributionCounts(store: ProcessTimeStore, rs: seq<Referral>, month: int,
                                 clinic: string, priority: string, category: string)
    requires store.distributionData == DistributionsBetween(rs, store.firstMonth, store.firstMonth + 12)
    requires store.firstMonth <= month < store.firstMonth + 12
    ensures month in store.distributionData
    ensures store.GetClinicDistributionCount(month, clinic, category, priority) ==
      SumAged(OfKey(Select(rs, ClinicList(rs), Lag90, Calendar.FirstDay(month), WindowEnd(month)),
        DistKey(clinic, priority, category)))
    ensures DistCountsOver(store.distributionData[month], clinic, priority, AgeLabels) ==
      SumAged(OfPriority(OfClinic(Select(rs, ClinicList(rs), Lag90, Calendar.FirstDay(month), WindowEnd(month)),
        clinic), priority))
  {
    DistributionsBetweenAt(rs, store.firstMonth, store.firstMonth + 12, month);
    DistributionGroups(rs, ClinicList(rs), Calendar.FirstDay(month), WindowEnd(month), DistKey(clinic, priority, category));
    DistributionTotal(rs, ClinicList(rs), Calendar.FirstDay(month), WindowEnd(month), clinic, priority);
  }

  /** The clinic column of a table. */
  function RowClinics(rows: seq<ClinicRow>): (cs: seq<string>)
    ensures |cs| == |rows|
    ensures forall i :: 0 <= i < |rows| ==> cs[i] == rows[i].clinic
  {
    seq(|rows|, i requires 0 <= i < |rows| => rows[i].clinic)
  }

  /** Names other than skip, each once, in order of first appearance: pandas' unique(). */
  function UniqueExcept(s: seq<string>, skip: string): (u: seq<string>)
    ensures skip !in u
    ensures forall c :: c in u <==> c != skip && c in s
    ensures forall i, j :: 0 <= i < j < |u| ==> u[i] != u[j]
    decreases |s|
  {
    if |s| == 0 then []
    else
      var n := |s| - 1;
      var init := UniqueExcept(s[..n], skip);
      assert s == s[..n] + [s[n]];
      if s[n] == skip || s[n] in init then init else init + [s[n]]
  }

  /** A list of distinct names after a leading skipped name comes back unchanged. */
  lemma {:induction false} UniqueExceptDistinct(cs: seq<string>, skip: string)
    requires skip !in cs
    requires forall i, j :: 0 <= i < j < |cs| ==> cs[i] != cs[j]
    ensures UniqueExcept([skip] + cs, skip) == cs
    decreases |cs|
  {
    if |cs| > 0 {
      var n := |cs| - 1;
      var s := [skip] + cs;
      assert s[..|s| - 1] == [skip] + cs[..n];
      UniqueExceptDistinct(cs[..n], skip);
      assert cs[n] !in cs[..n];
      assert cs == cs[..n] + [cs[n]];
    }
  }

  /** The clinic column without "*ALL*" and without repeats, in table order. */
  function ClinicsExcept(rows: seq<ClinicRow>, skip: string): seq<string> {
    UniqueExcept(RowClinics(rows), skip)
  }

  /** Adding targets, variances and categories keeps the clinic name. */
  lemma FinalRowClinic(row: ClinicRow)
    requires Complete(row)
    ensures FinalRow(row).clinic == row.clinic
  {
    TargetsMakeVariancesApplicable(row);
    var v := ApplyVariances(WithTargets(row), DependentVariances);
    CategoriesScorable(WithTargets(row));
    var r := ApplyCategories(v, VarianceCategories);
    assert r.(categories := v.categories).clinic == r.clinic;
  }

  lemma FinalRowsClinics(base: seq<ClinicRow>)
    requires forall i :: 0 <= i < |base| ==> Complete(base[i])
    ensures RowClinics(FinalRows(base)) == RowClinics(base)
  {
    forall i | 0 <= i < |base| ensures FinalRows(base)[i].clinic == base[i].clinic {
      FinalRowClinic(base[i]);
    }
  }

  /** The clinic column of a month's table is "*ALL*" followed by the sorted distinct clinics. */
  lemma MonthTableClinics(rs: seq<Referral>, key: int)
    ensures RowClinics(MonthTable(rs, key)) == ClinicList(rs)
  {
    FinalRowsClinics(ProcessMeasuresForMonth(rs, key));
  }

  /** Every month table starts with the "*ALL*" row, so the overall getters read the all-clinic measures. */
  lemma MonthTableStartsWithAll(rs: seq<Referral>, key: int)
    ensures |MonthTable(rs, key)| > 0 && MonthTable(rs, key)[0].clinic == AllClinics
  {
    MonthTableClinics(rs, key);
    assert RowClinics(MonthTable(rs, key))[0] == AllClinics;
  }

  /** The clinics listed for a stored month are the sorted distinct clinics of the referrals. */
  lemma StoredClinics(rs: seq<Referral>, key: int)
    requires NoPlaceholderClinic(rs)
    ensures ClinicsExcept(MonthTable(rs, key), AllClinics) == ClinicList(rs)[1..]
  {
    var cs := ClinicList(rs);
    MonthTableClinics(rs, key);
    assert cs == [AllClinics] + cs[1..];
    forall i, j | 0 <= i < j < |cs[1..]| ensures cs[1..][i] != cs[1..][j] {
      Strings.StrictlySortedDistinct(cs[1..], i, j);
    }
    UniqueExceptDistinct(cs[1..], AllClinics);
  }
}
