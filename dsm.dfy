/**
 * Direct secure messages (DSMs) and their conversion into referrals: the
 * message master table with its derived columns, and for each reporting
 * month the number of distinct patients per clinic who were sent a DSM, and
 * of those whose DSM carries a referral, counted on the 90-day lagged date.
 */
module DsmUse {
  import opened Wrappers
  import Referrals
  import ProcessWindows
  import ProcessTime
  import Strings
  import Calendar
  import Months

  // ---- The message master table ----

  /** A message as loaded from the extract (only the columns the pipeline reads). */
  datatype RawMessage = RawMessage(
    id: string,
    date: Option<int>,
    clinic: string,
    referralId: Option<string>,
    personId: Option<string>)

  /** A message with the derived columns of the master table. */
  datatype Message = Message(raw: RawMessage, lag90: Option<int>, referralPersonId: Option<string>)

  /**
   * The derived columns of one message: the reporting date lags the message
   * date by 90 days, and the Referral Person ID is the Person ID of a message
   * that carries a Referral ID and is missing otherwise.
   */
  function Derive(r: RawMessage): (m: Message)
    ensures m.raw == r
    ensures m.lag90.Some? <==> r.date.Some?
    ensures m.lag90.Some? ==> m.lag90.value == r.date.value + 90
    ensures r.referralId.Some? ==> m.referralPersonId == r.personId
    ensures r.referralId.None? ==> m.referralPersonId.None?
  {
    Message(r, Referrals.Add(r.date, 90), if r.referralId.Some? then r.personId else None)
  }

  /** A message before the masked assignment: lagged date set, Referral Person ID still missing. */
  function Lagged(r: RawMessage): Message {
    Message(r, Referrals.Add(r.date, 90), None)
  }

  /**
   * Builds the master table: one row per loaded message, first the lagged
   * date column, then the Referral Person ID written only on the rows whose
   * Referral ID is present.
   */
  method CreateMasterDataFrame(raw: seq<RawMessage>) returns (df: seq<Message>)
    ensures |df| == |raw|
    ensures forall i :: 0 <= i < |raw| ==> df[i] == Derive(raw[i])
  {
    df := [];
    for k := 0 to |raw|
      invariant |df| == k
      invariant forall i :: 0 <= i < k ==> df[i] == Lagged(raw[i])
    {
      df := df + [Message(raw[k], Referrals.Add(raw[k].date, 90), None)];
    }
    for k := 0 to |df|
      invariant |df| == |raw|
      invariant forall i :: 0 <= i < k ==> df[i] == Derive(raw[i])
      invariant forall i :: k <= i < |raw| ==> df[i] == Lagged(raw[i])
    {
      if df[k].raw.referralId.Some? {
        df := df[k := df[k].(referralPersonId := df[k].raw.personId)];
      }
    }
  }

  /** Every row of the table is its message with the derived columns. */
  predicate MasterTable(ms: seq<Message>) {
    forall i :: 0 <= i < |ms| ==> ms[i] == Derive(ms[i].raw)
  }

  // ---- The month window ----

  /** The messages of ms that keep satisfies, in their order. */
  function Filter(ms: seq<Message>, keep: Message -> bool): (v: seq<Message>)
    ensures |v| <= |ms|
    ensures forall m :: m in v <==> m in ms && keep(m)
  {
    if |ms| == 0 then []
    else
      assert ms == [ms[0]] + ms[1..];
      (if keep(ms[0]) then [ms[0]] else []) + Filter(ms[1..], keep)
  }

  /** The lagged date falls in the report month: month start <= lag < next month start. */
  predicate InMonth(m: Message, key: int) {
    m.lag90.Some? && Calendar.FirstDay(key) <= m.lag90.value < Calendar.FirstDay(key + 1)
  }

  /** The messages reported in the month. */
  function MonthView(ms: seq<Message>, key: int): seq<Message> {
    Filter(ms, m => InMonth(m, key))
  }

  /** A message of the master table is reported in the month exactly when it was sent 90 days before a day of it. */
  lemma MonthViewMeaning(ms: seq<Message>, key: int, m: Message)
    requires MasterTable(ms)
    ensures m in MonthView(ms, key) <==>
      m in ms && m.raw.date.Some? && Calendar.FirstDay(key) - 90 <= m.raw.date.value < Calendar.FirstDay(key + 1) - 90
  {
    if m in ms {
      var i :| 0 <= i < |ms| && ms[i] == m;
    }
  }

  // ---- Distinct patients ----

  /** The identifier column a distinct count is taken over. */
  datatype IdColumn = PersonId | ReferralPersonId {
    function Of(m: Message): Option<string> {
      match this
      case PersonId => m.raw.personId
      case ReferralPersonId => m.referralPersonId
    }
  }

  /** The non-missing values of the column among the clinic's messages. */
  function Ids(v: seq<Message>, clinic: string, col: IdColumn): (s: set<string>)
    ensures forall x :: x in s <==> exists m :: m in v && m.raw.clinic == clinic && col.Of(m) == Some(x)
  {
    if |v| == 0 then {}
    else
      assert v == [v[0]] + v[1..];
      (if v[0].raw.clinic == clinic && col.Of(v[0]).Some? then {col.Of(v[0]).value} else {}) + Ids(v[1..], clinic, col)
  }

  /** The messages of one clinic. */
  function MessagesOf(v: seq<Message>, clinic: string): (s: seq<Message>)
    ensures forall m :: m in s <==> m in v && m.raw.clinic == clinic
  {
    Filter(v, (m: Message) => m.raw.clinic == clinic)
  }

  /** nunique: the number of distinct non-missing values. */
  function Unique(v: seq<Message>, clinic: string, col: IdColumn): nat {
    |Ids(v, clinic, col)|
  }

  /** A clinic never has more distinct patients than messages. */
  lemma {:induction false} UniqueWithinMessages(v: seq<Message>, clinic: string, col: IdColumn)
    ensures Unique(v, clinic, col) <= |MessagesOf(v, clinic)|
  {
    if |v| > 0 {
      UniqueWithinMessages(v[1..], clinic, col);
      var matches := v[0].raw.clinic == clinic;
      var head: set<string> := if matches && col.Of(v[0]).Some? then {col.Of(v[0]).value} else {};
      var rest := Ids(v[1..], clinic, col);
      assert Ids(v, clinic, col) == head + rest;
      UnionCard(head, rest);
      assert |head| <= if matches then 1 else 0;
      MessagesOfCons(v, clinic);
    }
  }

  lemma UnionCard(a: set<string>, b: set<string>)
    ensures |a + b| <= |a| + |b|
  {
    assert |a + b| + |a * b| == |a| + |b|;
  }

  lemma MessagesOfCons(v: seq<Message>, clinic: string)
    requires |v| > 0
    ensures |MessagesOf(v, clinic)| == (if v[0].raw.clinic == clinic then 1 else 0) + |MessagesOf(v[1..], clinic)|
  {
    assert v == [v[0]] + v[1..];
  }

  /**
   * In the master table the Referral Person IDs of a clinic are some of its
   * Person IDs, so the patients with a DSM and a CRM referral never outnumber
   * the patients with a DSM.
   */
  lemma ReferralPatientsWithin(v: seq<Message>, clinic: string)
    requires MasterTable(v)
    ensures Ids(v, clinic, ReferralPersonId) <= Ids(v, clinic, PersonId)
    ensures Unique(v, clinic, ReferralPersonId) <= Unique(v, clinic, PersonId)
  {
    forall x | x in Ids(v, clinic, ReferralPersonId) ensures x in Ids(v, clinic, PersonId) {
      var m :| m in v && m.raw.clinic == clinic && m.referralPersonId == Some(x);
      var i :| 0 <= i < |v| && v[i] == m;
    }
    SubsetCard(Ids(v, clinic, ReferralPersonId), Ids(v, clinic, PersonId));
  }

  lemma SubsetCard(a: set<string>, b: set<string>)
    requires a <= b
    ensures |a| <= |b|
  {
    assert b == a + (b - a);
  }

  /** When every message of the clinic carries a Referral ID, the two counts agree. */
  lemma ReferralPatientsAll(v: seq<Message>, clinic: string)
    requires MasterTable(v)
    requires forall m :: m in v && m.raw.clinic == clinic ==> m.raw.referralId.Some?
    ensures Unique(v, clinic, ReferralPersonId) == Unique(v, clinic, PersonId)
  {
    ReferralPatientsWithin(v, clinic);
    forall x | x in Ids(v, clinic, PersonId) ensures x in Ids(v, clinic, ReferralPersonId) {
      var m :| m in v && m.raw.clinic == clinic && m.raw.personId == Some(x);
      var i :| 0 <= i < |v| && v[i] == m;
    }
    assert Ids(v, clinic, ReferralPersonId) == Ids(v, clinic, PersonId);
  }

  /** The messages whose Referral Person ID is present: the rows the second count groups. */
  function WithReferralPerson(v: seq<Message>): seq<Message> {
    Filter(v, (m: Message) => m.referralPersonId.Some?)
  }

  /** The groupby-nunique of a column: one entry per clinic that has a message among the rows. */
  function Grouped(rows: seq<Message>, col: IdColumn): (g: map<string, nat>)
    ensures forall clinic :: clinic in g <==> exists m :: m in rows && m.raw.clinic == clinic
    ensures forall clinic :: clinic in g ==> g[clinic] == Unique(rows, clinic, col)
  {
    map clinic | clinic in (set m | m in rows :: m.raw.clinic) :: Unique(rows, clinic, col)
  }

  /** The left merge onto the clinic list, with a missing count filled as 0. */
  function Fill(g: map<string, nat>, clinic: string): nat {
    if clinic in g then g[clinic] else 0
  }

  /** The filled count of a clinic is its number of distinct values, 0 for a clinic without a row. */
  lemma FillUnique(rows: seq<Message>, col: IdColumn, clinic: string)
    ensures Fill(Grouped(rows, col), clinic) == Unique(rows, clinic, col)
  {
    if clinic !in Grouped(rows, col) {
      assert Ids(rows, clinic, col) == {};
    }
  }

  /** Dropping the rows without a Referral Person ID leaves that column's distinct values unchanged. */
  lemma WithReferralPersonIds(v: seq<Message>, clinic: string)
    ensures Ids(WithReferralPerson(v), clinic, ReferralPersonId) == Ids(v, clinic, ReferralPersonId)
  {
  }

  // ---- The month table ----

  /** The clinic column of the master table. */
  function ClinicNames(ms: seq<Message>): (s: seq<string>)
    ensures |s| == |ms|
    ensures forall i :: 0 <= i < |ms| ==> s[i] == ms[i].raw.clinic
  {
    seq(|ms|, i requires 0 <= i < |ms| => ms[i].raw.clinic)
  }

  /** The rows of the month table: "*ALL*", then the sorted distinct clinics of every message. */
  function ClinicList(ms: seq<Message>): (cs: seq<string>)
    ensures |cs| >= 1 && cs[0] == ProcessWindows.AllClinics
    ensures Strings.StrictlySorted(cs[1..])
    ensures forall c :: c in cs[1..] <==> exists i :: 0 <= i < |ms| && ms[i].raw.clinic == c
  {
    var sorted := Strings.SortedUnique(ClinicNames(ms));
    assert ([ProcessWindows.AllClinics] + sorted)[1..] == sorted;
    [ProcessWindows.AllClinics] + sorted
  }

  /** No message is filed under the placeholder clinic name. */
  predicate NoPlaceholderClinic(ms: seq<Message>) {
    forall i :: 0 <= i < |ms| ==> ms[i].raw.clinic != ProcessWindows.AllClinics
  }

  /** One row of the month's measure table. */
  datatype DsmRow = DsmRow(clinic: string, patientsAfter90: nat, crmPatientsAfter90: nat)

  /** The row holds its clinic's distinct patients with a DSM, and with a DSM carrying a referral. */
  predicate Counted(v: seq<Message>, row: DsmRow) {
    row.patientsAfter90 == Unique(v, row.clinic, PersonId) &&
    row.crmPatientsAfter90 == Unique(v, row.clinic, ReferralPersonId)
  }

  /** The measure table of a month: "*ALL*" and then every clinic, each with its two filled counts. */
  function MonthMeasures(ms: seq<Message>, key: int): (rows: seq<DsmRow>)
    ensures |rows| == |ClinicList(ms)|
    ensures forall i :: 0 <= i < |rows| ==>
      rows[i].clinic == ClinicList(ms)[i] && Counted(MonthView(ms, key), rows[i])
  {
    var v := MonthView(ms, key);
    var patients := Grouped(v, PersonId);
    var crmPatients := Grouped(WithReferralPerson(v), ReferralPersonId);
    var cs := ClinicList(ms);
    var rows := seq(|cs|, i requires 0 <= i < |cs| => DsmRow(cs[i], Fill(patients, cs[i]), Fill(crmPatients, cs[i])));
    assert forall i :: 0 <= i < |rows| ==> Counted(v, rows[i]) by {
      forall i | 0 <= i < |rows| ensures Counted(v, rows[i]) {
        FillUnique(v, PersonId, cs[i]);
        FillUnique(WithReferralPerson(v), ReferralPersonId, cs[i]);
        WithReferralPersonIds(v, cs[i]);
      }
    }
    rows
  }

  /** The "*ALL*" row is a placeholder: with no clinic of that name its counts are 0. */
  lemma AllRowZero(ms: seq<Message>, key: int)
    requires NoPlaceholderClinic(ms)
    ensures MonthMeasures(ms, key)[0] == DsmRow(ProcessWindows.AllClinics, 0, 0)
  {
    var v := MonthView(ms, key);
    forall i | 0 <= i < |v| ensures v[i].raw.clinic != ProcessWindows.AllClinics {
      assert v[i] in ms;
      var j :| 0 <= j < |ms| && ms[j] == v[i];
    }
    IdsAbsent(v, ProcessWindows.AllClinics, PersonId);
    IdsAbsent(v, ProcessWindows.AllClinics, ReferralPersonId);
  }

  lemma {:induction false} IdsAbsent(v: seq<Message>, clinic: string, col: IdColumn)
    requires forall i :: 0 <= i < |v| ==> v[i].raw.clinic != clinic
    ensures Ids(v, clinic, col) == {}
  {
    if |v| > 0 {
      IdsAbsent(v[1..], clinic, col);
    }
  }

  // ---- Overall and clinic measures ----

  /** The rows of one clinic. */
  function DsmRowsOf(rows: seq<DsmRow>, clinic: string): (s: seq<DsmRow>)
    ensures forall row :: row in s <==> row in rows && row.clinic == clinic
  {
    if |rows| == 0 then []
    else
      assert rows == [rows[0]] + rows[1..];
      (if rows[0].clinic == clinic then [rows[0]] else []) + DsmRowsOf(rows[1..], clinic)
  }

  /** The rows of every other clinic. */
  function DsmRowsExcept(rows: seq<DsmRow>, clinic: string): (s: seq<DsmRow>)
    ensures forall row :: row in s <==> row in rows && row.clinic != clinic
  {
    if |rows| == 0 then []
    else
      assert rows == [rows[0]] + rows[1..];
      (if rows[0].clinic != clinic then [rows[0]] else []) + DsmRowsExcept(rows[1..], clinic)
  }

  /** overall_measures of a month: the "*ALL*" rows of its table. */
  function OverallFor(ms: seq<Message>, key: int): seq<DsmRow> {
    DsmRowsOf(MonthMeasures(ms, key), ProcessWindows.AllClinics)
  }

  /** clinic_measures of a month: the table without its "*ALL*" row. */
  function ClinicMeasuresFor(ms: seq<Message>, key: int): seq<DsmRow> {
    DsmRowsExcept(MonthMeasures(ms, key), ProcessWindows.AllClinics)
  }

  lemma {:induction false} DsmRowsOfNone(rows: seq<DsmRow>, clinic: string)
    requires forall i :: 0 <= i < |rows| ==> rows[i].clinic != clinic
    ensures DsmRowsOf(rows, clinic) == []
  {
    if |rows| > 0 {
      DsmRowsOfNone(rows[1..], clinic);
    }
  }

  /** The overall measures hold a single row of zeros: no aggregate across clinics is stored. */
  lemma OverallIsZero(ms: seq<Message>, key: int)
    requires NoPlaceholderClinic(ms)
    ensures OverallFor(ms, key) == [DsmRow(ProcessWindows.AllClinics, 0, 0)]
  {
    var rows := MonthMeasures(ms, key);
    var cs := ClinicList(ms);
    AllRowZero(ms, key);
    forall i | 0 <= i < |rows[1..]| ensures rows[1..][i].clinic != ProcessWindows.AllClinics {
      assert rows[1..][i].clinic == cs[1..][i];
      assert cs[1..][i] in cs[1..];
    }
    DsmRowsOfNone(rows[1..], ProcessWindows.AllClinics);
    assert rows == [rows[0]] + rows[1..];
  }

  /** Every clinic of the messages has its counts in clinic_measures, and "*ALL*" has no row there. */
  lemma ClinicMeasuresRows(ms: seq<Message>, key: int, clinic: string)
    ensures forall row :: row in ClinicMeasuresFor(ms, key) ==>
      row.clinic != ProcessWindows.AllClinics && Counted(MonthView(ms, key), row)
    ensures clinic != ProcessWindows.AllClinics && (exists i :: 0 <= i < |ms| && ms[i].raw.clinic == clinic) ==>
      exists row :: row in ClinicMeasuresFor(ms, key) && row.clinic == clinic
  {
    var rows := MonthMeasures(ms, key);
    var cs := ClinicList(ms);
    if clinic != ProcessWindows.AllClinics && exists i :: 0 <= i < |ms| && ms[i].raw.clinic == clinic {
      assert clinic in cs[1..];
      var j :| 0 <= j < |cs[1..]| && cs[1..][j] == clinic;
      assert rows[j + 1] in rows;
    }
  }

  // ---- The twelve stored months ----

  function OverallBetween(ms: seq<Message>, first: int, next: int): map<int, seq<DsmRow>> {
    Months.Tabulate(k => OverallFor(ms, k), first, next)
  }

  function ClinicMeasuresBetween(ms: seq<Message>, first: int, next: int): map<int, seq<DsmRow>> {
    Months.Tabulate(k => ClinicMeasuresFor(ms, k), first, next)
  }

  /** The stored months are first .. next - 1, each holding that month's tables. */
  lemma StoredMonths(ms: seq<Message>, first: int, next: int, k: int)
    ensures k in OverallBetween(ms, first, next) <==> first <= k < next
    ensures k in ClinicMeasuresBetween(ms, first, next) <==> first <= k < next
    ensures first <= k < next ==>
      OverallBetween(ms, first, next)[k] == OverallFor(ms, k) &&
      ClinicMeasuresBetween(ms, first, next)[k] == ClinicMeasuresFor(ms, k)
  {
    Months.TabulateAt(k => OverallFor(ms, k), first, next, k);
    Months.TabulateAt(k => ClinicMeasuresFor(ms, k), first, next, k);
  }

  /** The measure column names get_clinic_count_measure accepts. */
  const PatientsColumn: string := "Patients with DSMs After 90d"
  const CrmPatientsColumn: string := "Patients with DSM and CRM Referrals After 90d"

  function CountColumn(row: DsmRow, measure: string): Option<int> {
    if measure == PatientsColumn then Some(row.patientsAfter90)
    else if measure == CrmPatientsColumn then Some(row.crmPatientsAfter90)
    else None
  }

  /** The first row of the clinic, as .at[min(index)] selects it. */
  function FirstDsmRow(rows: seq<DsmRow>, clinic: string): (r: Option<DsmRow>)
    ensures r.None? <==> forall row :: row in rows ==> row.clinic != clinic
    ensures r.Some? ==> r.value in rows && r.value.clinic == clinic
  {
    if |rows| == 0 then None
    else if rows[0].clinic == clinic then Some(rows[0])
    else FirstDsmRow(rows[1..], clinic)
  }

  /** The two month dictionaries of the DSM measures. */
  class DsmUseStore {
    var overallMeasures: map<int, seq<DsmRow>>
    var clinicMeasures: map<int, seq<DsmRow>>

    /** The oldest stored month, twelve months before the as-of month. */
    const firstMonth: int

    constructor(ms: seq<Message>)
      ensures firstMonth == ProcessTime.FirstMonth
      ensures overallMeasures == OverallBetween(ms, firstMonth, firstMonth + 12)
      ensures clinicMeasures == ClinicMeasuresBetween(ms, firstMonth, firstMonth + 12)
    {
      firstMonth := ProcessTime.FirstMonth;
      overallMeasures, clinicMeasures := map[], map[];
      new;
      CalculateDsmMeasures(ms);
      ProcessTime.MergeEmpty(OverallBetween(ms, firstMonth, firstMonth + 12));
      ProcessTime.MergeEmpty(ClinicMeasuresBetween(ms, firstMonth, firstMonth + 12));
    }

    /** Computes and keeps each of the twelve months, oldest first. */
    method CalculateDsmMeasures(ms: seq<Message>)
      modifies this
      ensures overallMeasures == old(overallMeasures) + OverallBetween(ms, firstMonth, firstMonth + 12)
      ensures clinicMeasures == old(clinicMeasures) + ClinicMeasuresBetween(ms, firstMonth, firstMonth + 12)
    {
      for key := firstMonth to firstMonth + 12
        invariant overallMeasures == old(overallMeasures) + OverallBetween(ms, firstMonth, key)
        invariant clinicMeasures == old(clinicMeasures) + ClinicMeasuresBetween(ms, firstMonth, key)
      {
        ghost var o, c := overallMeasures, clinicMeasures;
        StoreMonth(ms, key);
        ProcessTime.MergeNext(old(overallMeasures), OverallBetween(ms, firstMonth, key),
          OverallBetween(ms, firstMonth, key + 1), o, overallMeasures, key, OverallFor(ms, key));
        ProcessTime.MergeNext(old(clinicMeasures), ClinicMeasuresBetween(ms, firstMonth, key),
          ClinicMeasuresBetween(ms, firstMonth, key + 1), c, clinicMeasures, key, ClinicMeasuresFor(ms, key));
      }
    }

    /** Computes one month and files its "*ALL*" rows and its clinic rows under the month. */
    method StoreMonth(ms: seq<Message>, key: int)
      modifies this
      ensures overallMeasures == old(overallMeasures)[key := OverallFor(ms, key)]
      ensures clinicMeasures == old(clinicMeasures)[key := ClinicMeasuresFor(ms, key)]
    {
      var dsm := MonthMeasures(ms, key);
      overallMeasures := overallMeasures[key := DsmRowsOf(dsm, ProcessWindows.AllClinics)];
      clinicMeasures := clinicMeasures[key := DsmRowsExcept(dsm, ProcessWindows.AllClinics)];
    }

    /**
     * A count measure of the clinic: None for a name that is not a numeric
     * column (the function falls through), 0 for a clinic without a row.
     */
    function GetClinicCountMeasure(month: int, clinic: string, measure: string): (r: Option<int>)
      requires month in clinicMeasures
      reads this
      ensures r.None? <==> measure != PatientsColumn && measure != CrmPatientsColumn
      ensures r.Some? && FirstDsmRow(clinicMeasures[month], clinic).None? ==> r == Some(0)
      ensures r.Some? && FirstDsmRow(clinicMeasures[month], clinic).Some? ==>
        r == CountColumn(FirstDsmRow(clinicMeasures[month], clinic).value, measure)
    {
      if measure != PatientsColumn && measure != CrmPatientsColumn then None
      else
        var row := FirstDsmRow(clinicMeasures[month], clinic);
        if row.None? then Some(0) else CountColumn(row.value, measure)
    }
  }

  // ---- Properties of the stored measures ----

  /** A clinic's stored count is its number of distinct patients in the month; "*ALL*" reads 0. */
  lemma ClinicCountMeaning(ms: seq<Message>, key: int, clinic: string, measure: string)
    requires measure == PatientsColumn || measure == CrmPatientsColumn
    ensures clinic == ProcessWindows.AllClinics ==> FirstDsmRow(ClinicMeasuresFor(ms, key), clinic).None?
    ensures clinic != ProcessWindows.AllClinics && (exists i :: 0 <= i < |ms| && ms[i].raw.clinic == clinic) ==>
      FirstDsmRow(ClinicMeasuresFor(ms, key), clinic).Some? &&
      CountColumn(FirstDsmRow(ClinicMeasuresFor(ms, key), clinic).value, measure) ==
        Some(Unique(MonthView(ms, key), clinic, if measure == PatientsColumn then PersonId else ReferralPersonId))
  {
    ClinicMeasuresRows(ms, key, clinic);
  }

  /** In every stored month, the second measure of a clinic row never exceeds the first. */
  lemma StoredCountsOrdered(ms: seq<Message>, key: int, row: DsmRow)
    requires MasterTable(ms)
    requires row in ClinicMeasuresFor(ms, key)
    ensures row.crmPatientsAfter90 <= row.patientsAfter90
  {
    ClinicMeasuresRows(ms, key, row.clinic);
    var v := MonthView(ms, key);
    forall i | 0 <= i < |v| ensures v[i] == Derive(v[i].raw) {
      assert v[i] in v;
      var j :| 0 <= j < |ms| && ms[j] == v[i];
    }
    ReferralPatientsWithin(v, row.clinic);
  }
}
