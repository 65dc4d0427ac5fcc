/**
 * The CRM-usage measures of each reporting month: the 90-day counts of
 * appointments linked and referrals seen in the CRM per clinic, the
 * distribution by status of aged referrals not yet accepted, and the
 * placeholder test table whose results and scores are filled in one row at a
 * time.
 */
module CrmUse {
  import opened Wrappers
  import opened Referrals
  import opened ProcessWindows
  import opened Distributions
  import ProcessTime
  import Strings
  import Calendar
  import Rounding
  import Months

  // ---- The usage tests ----

  /** One test of the template: its milestone, title and the points it is worth. */
  datatype UsageTest = UsageTest(milestone: string, title: string, pointValue: int)

  const UsageTests: seq<UsageTest> := [
    UsageTest("Accepted", "% of Referrals Accepted", 10),
    UsageTest("Linked", "% of Scheduled Referrals with Linked Appt", 10),
    UsageTest("Seen", "% of Seen Referrals Tagged as Seen", 10),
    UsageTest("Completed", "% of Seen Referrals that are Completed", 10),
    UsageTest("Import", "% of DSM Referrals with CRM Referral", 5)]

  /** One row of a month's test table. */
  datatype TestRow = TestRow(clinic: string, milestone: string, title: string, pointValue: int, result: int, score: real)

  /** A test not yet scored: Result and Score are 0. */
  function Blank(clinic: string, t: UsageTest): TestRow {
    TestRow(clinic, t.milestone, t.title, t.pointValue, 0, 0.0)
  }

  /** The five unscored tests of one clinic, in template order. */
  function ClinicTests(clinic: string): seq<TestRow> {
    seq(5, j requires 0 <= j < 5 => Blank(clinic, UsageTests[j]))
  }

  /** The cross join of the clinic list with the template: each clinic's five tests, clinics in list order. */
  function Placeholders(clinics: seq<string>): (rows: seq<TestRow>)
    ensures |rows| == 5 * |clinics|
    ensures forall k :: 0 <= k < |rows| ==> rows[k] == Blank(clinics[k / 5], UsageTests[k % 5])
  {
    if |clinics| == 0 then []
    else
      var rest := Placeholders(clinics[1..]);
      var rows := ClinicTests(clinics[0]) + rest;
      assert forall k :: 0 <= k < |rows| ==> rows[k] == Blank(clinics[k / 5], UsageTests[k % 5]) by {
        forall k | 0 <= k < |rows| ensures rows[k] == Blank(clinics[k / 5], UsageTests[k % 5]) {
          DivFive(k, |clinics|);
          if 5 <= k {
            assert rows[k] == rest[k - 5];
          }
        }
      }
      rows
  }

  /** Row k of the cross join belongs to clinic k / 5 and test k % 5; the next clinic's rows are five further on. */
  lemma DivFive(k: int, n: int)
    requires 0 <= k < 5 * n
    ensures 0 <= k / 5 < n && 0 <= k % 5 < 5
    ensures k < 5 ==> k / 5 == 0 && k % 5 == k
    ensures 5 <= k ==> (k - 5) / 5 == k / 5 - 1 && (k - 5) % 5 == k % 5
  {
  }

  /** The milestones are told apart by name. */
  lemma MilestonesDistinct()
    ensures forall i, j :: 0 <= i < j < 5 ==> UsageTests[i].milestone != UsageTests[j].milestone
  {
    assert UsageTests[0].milestone[0] == 'A' && UsageTests[1].milestone[0] == 'L' && UsageTests[2].milestone[0] == 'S';
    assert UsageTests[3].milestone[0] == 'C' && UsageTests[4].milestone[0] == 'I';
  }

  predicate IsMilestone(milestone: string) {
    exists j :: 0 <= j < 5 && UsageTests[j].milestone == milestone
  }

  /** The (milestone, clinic) selection a score is written to. */
  predicate Matches(row: TestRow, milestone: string, clinic: string) {
    row.milestone == milestone && row.clinic == clinic
  }

  /** min(index) of the matching rows: the first one, if any. */
  function FirstTest(rows: seq<TestRow>, milestone: string, clinic: string): (k: Option<nat>)
    ensures k.None? <==> forall i :: 0 <= i < |rows| ==> !Matches(rows[i], milestone, clinic)
    ensures k.Some? ==> k.value < |rows| && Matches(rows[k.value], milestone, clinic)
    ensures k.Some? ==> forall i :: 0 <= i < k.value ==> !Matches(rows[i], milestone, clinic)
  {
    if |rows| == 0 then None
    else if Matches(rows[0], milestone, clinic) then Some(0)
    else
      var k := FirstTest(rows[1..], milestone, clinic);
      if k.Some? then Some(k.value + 1) else None
  }

  /** A placeholder table has a row for a (milestone, clinic) exactly when both are listed, worth the milestone's points. */
  lemma PlaceholderFound(clinics: seq<string>, milestone: string, clinic: string)
    ensures FirstTest(Placeholders(clinics), milestone, clinic).Some? <==> clinic in clinics && IsMilestone(milestone)
    ensures forall j :: 0 <= j < 5 && UsageTests[j].milestone == milestone && FirstTest(Placeholders(clinics), milestone, clinic).Some? ==>
      var row := Placeholders(clinics)[FirstTest(Placeholders(clinics), milestone, clinic).value];
      row == Blank(clinic, UsageTests[j])
  {
    var rows := Placeholders(clinics);
    MilestonesDistinct();
    if clinic in clinics && IsMilestone(milestone) {
      var i :| 0 <= i < |clinics| && clinics[i] == clinic;
      var j :| 0 <= j < 5 && UsageTests[j].milestone == milestone;
      assert (5 * i + j) / 5 == i && (5 * i + j) % 5 == j;
      assert Matches(rows[5 * i + j], milestone, clinic);
    }
    var k := FirstTest(rows, milestone, clinic);
    if k.Some? {
      assert rows[k.value] == Blank(clinics[k.value / 5], UsageTests[k.value % 5]);
      assert clinics[k.value / 5] in clinics;
    }
  }

  /** The rows of one clinic, in table order. */
  function TestRowsOf(rows: seq<TestRow>, clinic: string): (s: seq<TestRow>)
    ensures forall row :: row in s <==> row in rows && row.clinic == clinic
  {
    if |rows| == 0 then []
    else
      assert rows == [rows[0]] + rows[1..];
      (if rows[0].clinic == clinic then [rows[0]] else []) + TestRowsOf(rows[1..], clinic)
  }

  lemma {:induction false} TestRowsOfConcat(a: seq<TestRow>, b: seq<TestRow>, clinic: string)
    ensures TestRowsOf(a + b, clinic) == TestRowsOf(a, clinic) + TestRowsOf(b, clinic)
  {
    if |a| == 0 {
      assert a + b == b;
    } else {
      assert (a + b)[0] == a[0];
      assert (a + b)[1..] == a[1..] + b;
      TestRowsOfConcat(a[1..], b, clinic);
    }
  }

  lemma {:induction false} TestRowsOfOne(rows: seq<TestRow>, c: string, clinic: string)
    requires forall i :: 0 <= i < |rows| ==> rows[i].clinic == c
    ensures TestRowsOf(rows, clinic) == if c == clinic then rows else []
  {
    if |rows| > 0 {
      TestRowsOfOne(rows[1..], c, clinic);
      if c == clinic {
        assert rows == [rows[0]] + rows[1..];
      }
    }
  }

  /** A listed clinic's test results are its five unscored tests; an unlisted clinic has none. */
  lemma {:induction false} PlaceholderClinicRows(clinics: seq<string>, clinic: string)
    requires forall i, j :: 0 <= i < j < |clinics| ==> clinics[i] != clinics[j]
    ensures TestRowsOf(Placeholders(clinics), clinic) == if clinic in clinics then ClinicTests(clinic) else []
  {
    if |clinics| > 0 {
      var rest := clinics[1..];
      assert Placeholders(clinics) == ClinicTests(clinics[0]) + Placeholders(rest);
      TestRowsOfConcat(ClinicTests(clinics[0]), Placeholders(rest), clinic);
      TestRowsOfOne(ClinicTests(clinics[0]), clinics[0], clinic);
      PlaceholderClinicRows(rest, clinic);
      assert clinics == [clinics[0]] + rest;
      if clinic == clinics[0] {
        assert clinic !in rest;
      }
    }
  }

  // ---- Scoring ----

  /** The points times the ratio, rounded to two decimals: between 0 and the points for a ratio between 0 and 1. */
  function Score(points: int, ratio: real): (s: real)
    ensures -0.005 <= s - points as real * ratio <= 0.005
    ensures 0 <= points && 0.0 <= ratio <= 1.0 ==> 0.0 <= s <= points as real
  {
    var x := points as real * ratio;
    if 0 <= points && 0.0 <= ratio <= 1.0 then
      Rounding.ScaledBetween(points as real, ratio);
      Rounding.Round2Between(x, points);
      Rounding.Round2(x)
    else Rounding.Round2(x)
  }

  /** Result is the ratio as a whole percentage, rounded half up; Score is the test's score for the ratio. */
  function ScoredRow(row: TestRow, ratio: real): TestRow {
    row.(result := Rounding.PercentOf(ratio), score := Score(row.pointValue, ratio))
  }

  /** The two tables agree on every column but Result and Score. */
  predicate SameKeys(a: seq<TestRow>, b: seq<TestRow>) {
    |a| == |b| &&
    forall i :: 0 <= i < |a| ==>
      a[i].clinic == b[i].clinic && a[i].milestone == b[i].milestone &&
      a[i].title == b[i].title && a[i].pointValue == b[i].pointValue
  }

  /**
   * The month table after scoring one (milestone, clinic) test; None when no
   * row matches, where the minimum of an empty index raises.
   */
  function ScoreTable(rows: seq<TestRow>, clinic: string, milestone: string, ratio: real): (t: Option<seq<TestRow>>)
    ensures t.None? <==> FirstTest(rows, milestone, clinic).None?
    ensures t.Some? ==> SameKeys(rows, t.value)
  {
    var k := FirstTest(rows, milestone, clinic);
    if k.None? then None else Some(rows[k.value := ScoredRow(rows[k.value], ratio)])
  }

  /** Scoring sets Result and Score of the first matching row and changes nothing else. */
  lemma ScoreTableChanges(rows: seq<TestRow>, clinic: string, milestone: string, ratio: real)
    requires FirstTest(rows, milestone, clinic).Some?
    ensures var k := FirstTest(rows, milestone, clinic).value;
      var t := ScoreTable(rows, clinic, milestone, ratio).value;
      t[k].result == Rounding.PercentOf(ratio) &&
      -0.005 <= t[k].score - rows[k].pointValue as real * ratio <= 0.005 &&
      forall i :: 0 <= i < |rows| && i != k ==> t[i] == rows[i]
  {
    var k := FirstTest(rows, milestone, clinic).value;
    var t := ScoreTable(rows, clinic, milestone, ratio).value;
    assert t == rows[k := ScoredRow(rows[k], ratio)];
    assert t[k].score == Score(rows[k].pointValue, ratio);
  }

  /** Tables with the same keys select the same row. */
  lemma {:induction false} FirstTestSameKeys(a: seq<TestRow>, b: seq<TestRow>, milestone: string, clinic: string)
    requires SameKeys(a, b)
    ensures FirstTest(a, milestone, clinic) == FirstTest(b, milestone, clinic)
  {
    if |a| > 0 {
      FirstTestSameKeys(a[1..], b[1..], milestone, clinic);
    }
  }

  lemma ScoredRowTwice(row: TestRow, ratio: real)
    ensures ScoredRow(ScoredRow(row, ratio), ratio) == ScoredRow(row, ratio)
  {
  }

  /** Scoring the same test twice with the same ratio leaves the table of scoring it once. */
  lemma ScoreIdempotent(rows: seq<TestRow>, clinic: string, milestone: string, ratio: real)
    requires FirstTest(rows, milestone, clinic).Some?
    ensures ScoreTable(ScoreTable(rows, clinic, milestone, ratio).value, clinic, milestone, ratio) ==
      ScoreTable(rows, clinic, milestone, ratio)
  {
    var k := FirstTest(rows, milestone, clinic).value;
    var t := ScoreTable(rows, clinic, milestone, ratio).value;
    assert t == rows[k := ScoredRow(rows[k], ratio)];
    FirstTestSameKeys(rows, t, milestone, clinic);
    ScoredRowTwice(rows[k], ratio);
    assert ScoredRow(t[k], ratio) == t[k];
    assert ScoreTable(t, clinic, milestone, ratio).value == t[k := t[k]] == t;
  }

  /** Scores of two different tests do not interfere: either order gives the same table. */
  lemma ScoresCommute(rows: seq<TestRow>, c1: string, m1: string, r1: real, c2: string, m2: string, r2: real)
    requires FirstTest(rows, m1, c1).Some? && FirstTest(rows, m2, c2).Some?
    requires c1 != c2 || m1 != m2
    ensures ScoreTable(ScoreTable(rows, c1, m1, r1).value, c2, m2, r2).Some?
    ensures ScoreTable(ScoreTable(rows, c2, m2, r2).value, c1, m1, r1).Some?
    ensures ScoreTable(ScoreTable(rows, c1, m1, r1).value, c2, m2, r2) ==
      ScoreTable(ScoreTable(rows, c2, m2, r2).value, c1, m1, r1)
  {
    var k1, k2 := FirstTest(rows, m1, c1).value, FirstTest(rows, m2, c2).value;
    assert k1 != k2;
    var s1, s2 := ScoredRow(rows[k1], r1), ScoredRow(rows[k2], r2);
    var t1 := ScoreTable(rows, c1, m1, r1).value;
    var t2 := ScoreTable(rows, c2, m2, r2).value;
    assert t1 == rows[k1 := s1] && t2 == rows[k2 := s2];
    FirstTestSameKeys(rows, t1, m2, c2);
    FirstTestSameKeys(rows, t2, m1, c1);
    assert t1[k2] == rows[k2] && t2[k1] == rows[k1];
    assert ScoreTable(t1, c2, m2, r2).value == rows[k1 := s1][k2 := s2];
    assert ScoreTable(t2, c1, m1, r1).value == rows[k2 := s2][k1 := s1];
    UpdatesCommute(rows, k1, k2, s1, s2);
  }

  lemma UpdatesCommute(rows: seq<TestRow>, i: nat, j: nat, a: TestRow, b: TestRow)
    requires i < |rows| && j < |rows| && i != j
    ensures rows[i := a][j := b] == rows[j := b][i := a]
  {
  }

  // ---- The 90-day counts ----

  /** The referrals whose 90-day lagged reporting date falls in the month. */
  function MonthView(rs: seq<Referral>, key: int): (v: seq<Referral>)
    ensures forall r :: r in v <==>
      r in rs && r.lag90.Some? && Calendar.FirstDay(key) <= r.lag90.value < Calendar.FirstDay(key + 1)
  {
    var names := ProcessTime.ClinicNames(rs);
    assert forall r :: r in rs ==> r.raw.clinic in names by {
      forall r | r in rs ensures r.raw.clinic in names {
        var i :| 0 <= i < |rs| && rs[i] == r;
        assert names[i] == r.raw.clinic;
      }
    }
    Select(rs, names, Lag90, Calendar.FirstDay(key), Calendar.FirstDay(key + 1))
  }

  /** The per-clinic "count" of Referral ID over the records meeting c: one entry per clinic that has such a record. */
  function CountsByClinic(v: seq<Referral>, c: Criterion): (m: map<string, nat>)
    ensures forall clinic :: clinic in m <==> exists r :: r in v && Meets(r, c) && r.raw.clinic == clinic
  {
    map clinic | clinic in (set r | r in v && Meets(r, c) :: r.raw.clinic) :: CountIds(OfClinic(v, clinic), c)
  }

  /** The left merge onto the clinic list, with a missing count filled as 0. */
  function Fill(m: map<string, nat>, clinic: string): nat {
    if clinic in m then m[clinic] else 0
  }

  lemma {:induction false} CountNone(rs: seq<Referral>, c: Criterion)
    requires forall r :: r in rs ==> !Meets(r, c)
    ensures CountIds(rs, c) == 0
  {
    if |rs| > 0 {
      assert rs[0] in rs;
      CountNone(rs[1..], c);
    }
  }

  /** The filled count of a clinic is the count of its records meeting c, 0 for a clinic without one. */
  lemma FillCount(v: seq<Referral>, c: Criterion, clinic: string)
    ensures Fill(CountsByClinic(v, c), clinic) == CountIds(OfClinic(v, clinic), c)
  {
    if clinic !in CountsByClinic(v, c) {
      CountNone(OfClinic(v, clinic), c);
    }
  }

  /** One row of the month's measure table. */
  datatype CrmRow = CrmRow(clinic: string, linkedAfter90: nat, seenInCrmAfter90: nat)

  /** The row holds its clinic's counts of aged referrals in the view linked to an appointment and seen in the CRM. */
  predicate Counted(v: seq<Referral>, row: CrmRow) {
    row.linkedAfter90 == CountIds(OfClinic(v, row.clinic), LinkedAfter) &&
    row.seenInCrmAfter90 == CountIds(OfClinic(v, row.clinic), SeenInCrmAfter)
  }

  /** The measure table of a month: "*ALL*" and then every clinic, each with its two filled counts. */
  function MonthMeasures(rs: seq<Referral>, key: int): (rows: seq<CrmRow>)
    ensures |rows| == |ProcessTime.ClinicList(rs)|
    ensures forall i :: 0 <= i < |rows| ==>
      rows[i].clinic == ProcessTime.ClinicList(rs)[i] && Counted(MonthView(rs, key), rows[i])
  {
    var v := MonthView(rs, key);
    var linked := CountsByClinic(v, LinkedAfter);
    var seen := CountsByClinic(v, SeenInCrmAfter);
    var cs := ProcessTime.ClinicList(rs);
    var rows := seq(|cs|, i requires 0 <= i < |cs| => CrmRow(cs[i], Fill(linked, cs[i]), Fill(seen, cs[i])));
    assert forall i :: 0 <= i < |rows| ==> Counted(v, rows[i]) by {
      forall i | 0 <= i < |rows| ensures Counted(v, rows[i]) {
        FillCount(v, LinkedAfter, cs[i]);
        FillCount(v, SeenInCrmAfter, cs[i]);
      }
    }
    rows
  }

  /** The counts stay within the clinic's aged referrals of the month. */
  lemma CountsWithinAged(v: seq<Referral>, row: CrmRow)
    requires Counted(v, row)
    ensures row.linkedAfter90 <= SumAged(OfClinic(v, row.clinic))
    ensures row.seenInCrmAfter90 <= SumAged(OfClinic(v, row.clinic))
  {
    var g := OfClinic(v, row.clinic);
    CountMonotone(g, LinkedAfter, AgedOnly);
    CountMonotone(g, SeenInCrmAfter, AgedOnly);
    CountAgedBelowSum(g);
  }

  /** The "*ALL*" row is a placeholder: with no clinic of that name its counts are 0. */
  lemma AllRowZero(rs: seq<Referral>, key: int)
    requires ProcessTime.NoPlaceholderClinic(rs)
    ensures MonthMeasures(rs, key)[0] == CrmRow(AllClinics, 0, 0)
  {
    var v := MonthView(rs, key);
    forall i | 0 <= i < |v| ensures v[i].raw.clinic != AllClinics {
      assert v[i] in rs;
      var j :| 0 <= j < |rs| && rs[j] == v[i];
    }
    OfClinicAbsent(v, AllClinics);
  }

  lemma {:induction false} OfClinicAbsent(v: seq<Referral>, clinic: string)
    requires forall i :: 0 <= i < |v| ==> v[i].raw.clinic != clinic
    ensures OfClinic(v, clinic) == []
  {
    if |v| > 0 {
      OfClinicAbsent(v[1..], clinic);
    }
  }

  /** The rows of one clinic. */
  function CrmRowsOf(rows: seq<CrmRow>, clinic: string): (s: seq<CrmRow>)
    ensures forall row :: row in s <==> row in rows && row.clinic == clinic
  {
    if |rows| == 0 then []
    else
      assert rows == [rows[0]] + rows[1..];
      (if rows[0].clinic == clinic then [rows[0]] else []) + CrmRowsOf(rows[1..], clinic)
  }

  /** The rows of every other clinic. */
  function CrmRowsExcept(rows: seq<CrmRow>, clinic: string): (s: seq<CrmRow>)
    ensures forall row :: row in s <==> row in rows && row.clinic != clinic
  {
    if |rows| == 0 then []
    else
      assert rows == [rows[0]] + rows[1..];
      (if rows[0].clinic != clinic then [rows[0]] else []) + CrmRowsExcept(rows[1..], clinic)
  }

  /** overall_measures of a month: the "*ALL*" rows of its table. */
  function OverallFor(rs: seq<Referral>, key: int): seq<CrmRow> {
    CrmRowsOf(MonthMeasures(rs, key), AllClinics)
  }

  /** clinic_measures of a month: the table without its "*ALL*" row. */
  function ClinicMeasuresFor(rs: seq<Referral>, key: int): seq<CrmRow> {
    CrmRowsExcept(MonthMeasures(rs, key), AllClinics)
  }

  lemma {:induction false} CrmRowsOfNone(rows: seq<CrmRow>, clinic: string)
    requires forall i :: 0 <= i < |rows| ==> rows[i].clinic != clinic
    ensures CrmRowsOf(rows, clinic) == []
  {
    if |rows| > 0 {
      CrmRowsOfNone(rows[1..], clinic);
    }
  }

  /** The overall measures hold a single row of zeros: no aggregate across clinics is stored. */
  lemma OverallIsZero(rs: seq<Referral>, key: int)
    requires ProcessTime.NoPlaceholderClinic(rs)
    ensures OverallFor(rs, key) == [CrmRow(AllClinics, 0, 0)]
  {
    var rows := MonthMeasures(rs, key);
    var cs := ProcessTime.ClinicList(rs);
    AllRowZero(rs, key);
    forall i | 0 <= i < |rows[1..]| ensures rows[1..][i].clinic != AllClinics {
      assert rows[1..][i].clinic == cs[1..][i];
      assert cs[1..][i] in cs[1..];
    }
    CrmRowsOfNone(rows[1..], AllClinics);
    assert rows == [rows[0]] + rows[1..];
  }

  /** Every clinic of the referrals has its counts in clinic_measures, and "*ALL*" has no row there. */
  lemma ClinicMeasuresRows(rs: seq<Referral>, key: int, clinic: string)
    ensures forall row :: row in ClinicMeasuresFor(rs, key) ==> row.clinic != AllClinics && Counted(MonthView(rs, key), row)
    ensures clinic != AllClinics && (exists i :: 0 <= i < |rs| && rs[i].raw.clinic == clinic) ==>
      exists row :: row in ClinicMeasuresFor(rs, key) && row.clinic == clinic
  {
    var rows := MonthMeasures(rs, key);
    var cs := ProcessTime.ClinicList(rs);
    if clinic != AllClinics && exists i :: 0 <= i < |rs| && rs[i].raw.clinic == clinic {
      assert clinic in cs[1..];
      var j :| 0 <= j < |cs[1..]| && cs[1..][j] == clinic;
      assert rows[j + 1] in rows;
    }
  }

  // ---- The not-accepted distribution ----

  /** The referrals of the view that are aged and not accepted. */
  function NotAccepted(v: seq<Referral>): (s: seq<Referral>)
    ensures forall r :: r in s <==> r in v && !r.acceptedYn && r.aged
  {
    if |v| == 0 then []
    else
      assert v == [v[0]] + v[1..];
      (if !v[0].acceptedYn && v[0].aged then [v[0]] else []) + NotAccepted(v[1..])
  }

  /** The grouped entries of the distribution: the view's aged, not-accepted referrals, by status. */
  function NotAcceptedEntries(v: seq<Referral>): seq<Entry> {
    Entries(NotAccepted(v), ByStatus)
  }

  /** The rows of every clinic but one. */
  function ExceptClinic(rows: seq<GroupRow>, clinic: string): (s: seq<GroupRow>)
    ensures forall row :: row in s <==> row in rows && row.clinic != clinic
  {
    if |rows| == 0 then []
    else
      assert rows == [rows[0]] + rows[1..];
      (if rows[0].clinic != clinic then [rows[0]] else []) + ExceptClinic(rows[1..], clinic)
  }

  /** The aged sums by (clinic, status) of a view, "*ALL*" rows dropped. */
  function Distribution(v: seq<Referral>): seq<GroupRow> {
    ExceptClinic(GroupTable(NotAcceptedEntries(v)), AllClinics)
  }

  /** distribution_data of a month. */
  function DistributionFor(rs: seq<Referral>, key: int): seq<GroupRow> {
    Distribution(MonthView(rs, key))
  }

  lemma {:induction false} RowsOfExcept(rows: seq<GroupRow>, skip: string, clinic: string)
    ensures RowsOf(ExceptClinic(rows, skip), clinic) == if clinic == skip then [] else RowsOf(rows, clinic)
  {
    if |rows| > 0 {
      RowsOfExcept(rows[1..], skip, clinic);
      var e := ExceptClinic(rows, skip);
      var rest := ExceptClinic(rows[1..], skip);
      assert RowsOf(rows, clinic) == (if rows[0].clinic == clinic then [rows[0]] else []) + RowsOf(rows[1..], clinic);
      if rows[0].clinic != skip {
        assert e == [rows[0]] + rest;
        assert e[0] == rows[0] && e[1..] == rest;
        assert RowsOf(e, clinic) == (if rows[0].clinic == clinic then [rows[0]] else []) + RowsOf(rest, clinic);
      } else {
        assert e == rest;
      }
    }
  }

  lemma {:induction false} AllAgedSum(es: seq<Entry>)
    requires forall e :: e in es ==> e.aged
    ensures AgedSum(es) == |es|
  {
    if |es| > 0 {
      assert es[0] in es;
      AllAgedSum(es[1..]);
    }
  }

  /** The referral is one of the clinic's aged referrals with that status that are not accepted. */
  predicate NotAcceptedIn(r: Referral, clinic: string, status: string) {
    r.raw.clinic == clinic && r.raw.status == status && !r.acceptedYn && r.aged
  }

  /** A (clinic, status) group exists exactly when such a referral does. */
  lemma NotAcceptedGroup(v: seq<Referral>, clinic: string, status: string)
    ensures (exists e :: e in NotAcceptedEntries(v) && InGroup(e, clinic, status)) <==>
      exists r :: r in v && NotAcceptedIn(r, clinic, status)
  {
    EntriesGroupMeaning(NotAccepted(v), ByStatus, clinic, status);
  }

  /** Every referral of the distribution is aged, so a group's aged sum is its number of referrals. */
  lemma NotAcceptedCount(v: seq<Referral>, clinic: string, status: string)
    ensures AgedSum(OfGroup(NotAcceptedEntries(v), clinic, status)) == |OfGroup(NotAcceptedEntries(v), clinic, status)|
  {
    var s := NotAccepted(v);
    var es := NotAcceptedEntries(v);
    forall e | e in OfGroup(es, clinic, status) ensures e.aged {
      var i :| 0 <= i < |es| && es[i] == e;
      assert s[i] in s;
    }
    AllAgedSum(OfGroup(es, clinic, status));
  }

  /**
   * A clinic's distribution rows are its statuses among the view's aged,
   * not-accepted referrals, each with the number of those referrals; "*ALL*"
   * has none.
   */
  lemma DistributionRows(v: seq<Referral>, clinic: string, row: GroupRow)
    ensures clinic == AllClinics ==> RowsOf(Distribution(v), clinic) == []
    ensures clinic != AllClinics ==>
      (row in RowsOf(Distribution(v), clinic) <==>
        row.clinic == clinic &&
        (exists r :: r in v && NotAcceptedIn(r, clinic, row.category)) &&
        row.aged == |OfGroup(NotAcceptedEntries(v), clinic, row.category)|)
  {
    var es := NotAcceptedEntries(v);
    RowsOfExcept(GroupTable(es), AllClinics, clinic);
    GroupTableRows(es, row);
    NotAcceptedGroup(v, clinic, row.category);
    NotAcceptedCount(v, clinic, row.category);
  }

  /** The status list of a clinic is its sorted, distinct statuses among the view's aged, not-accepted referrals. */
  lemma StatusListSorted(v: seq<Referral>, clinic: string)
    ensures clinic != AllClinics ==>
      CategoryList(Distribution(v), clinic) == Categories(NotAcceptedEntries(v), clinic)
    ensures Strings.StrictlySorted(CategoryList(Distribution(v), clinic))
    ensures clinic != AllClinics ==> forall status :: status in CategoryList(Distribution(v), clinic) <==>
      exists r :: r in v && NotAcceptedIn(r, clinic, status)
  {
    var es := NotAcceptedEntries(v);
    RowsOfExcept(GroupTable(es), AllClinics, clinic);
    CategoryListOfTable(es, clinic);
    forall status | status in Categories(es, clinic) ensures exists r :: r in v && NotAcceptedIn(r, clinic, status) {
      NotAcceptedGroup(v, clinic, status);
    }
    forall r | r in v && NotAcceptedIn(r, clinic, r.raw.status) ensures r.raw.status in Categories(es, clinic) {
      NotAcceptedGroup(v, clinic, r.raw.status);
    }
  }

  // ---- The twelve stored months ----

  /** The test table of every month: the clinic list crossed with the template. */
  function TestsFor(rs: seq<Referral>): seq<TestRow> {
    Placeholders(ProcessTime.ClinicList(rs))
  }

  function OverallBetween(rs: seq<Referral>, first: int, next: int): map<int, seq<CrmRow>> {
    Months.Tabulate(k => OverallFor(rs, k), first, next)
  }

  function ClinicMeasuresBetween(rs: seq<Referral>, first: int, next: int): map<int, seq<CrmRow>> {
    Months.Tabulate(k => ClinicMeasuresFor(rs, k), first, next)
  }

  function DistributionsBetween(rs: seq<Referral>, first: int, next: int): map<int, seq<GroupRow>> {
    Months.Tabulate(k => DistributionFor(rs, k), first, next)
  }

  function TestsBetween(rs: seq<Referral>, first: int, next: int): map<int, seq<TestRow>> {
    Months.Tabulate(k => TestsFor(rs), first, next)
  }

  /** The stored months are first .. next - 1, each holding that month's tables. */
  lemma StoredMonths(rs: seq<Referral>, first: int, next: int, k: int)
    ensures k in OverallBetween(rs, first, next) <==> first <= k < next
    ensures k in ClinicMeasuresBetween(rs, first, next) <==> first <= k < next
    ensures k in DistributionsBetween(rs, first, next) <==> first <= k < next
    ensures k in TestsBetween(rs, first, next) <==> first <= k < next
    ensures first <= k < next ==>
      OverallBetween(rs, first, next)[k] == OverallFor(rs, k) &&
      ClinicMeasuresBetween(rs, first, next)[k] == ClinicMeasuresFor(rs, k) &&
      DistributionsBetween(rs, first, next)[k] == DistributionFor(rs, k) &&
      TestsBetween(rs, first, next)[k] == TestsFor(rs)
  {
    Months.TabulateAt(k => OverallFor(rs, k), first, next, k);
    Months.TabulateAt(k => ClinicMeasuresFor(rs, k), first, next, k);
    Months.TabulateAt(k => DistributionFor(rs, k), first, next, k);
    Months.TabulateAt(k => TestsFor(rs), first, next, k);
  }

  /** The measure column names get_clinic_count_measure accepts. */
  const LinkedColumn: string := "Appointments Linked After 90d"
  const SeenColumn: string := "Referrals Seen in CRM After 90d"

  function CountColumn(row: CrmRow, measure: string): Option<int> {
    if measure == LinkedColumn then Some(row.linkedAfter90)
    else if measure == SeenColumn then Some(row.seenInCrmAfter90)
    else None
  }

  /** The first row of the clinic, as .at[min(index)] selects it. */
  function FirstCrmRow(rows: seq<CrmRow>, clinic: string): (r: Option<CrmRow>)
    ensures r.None? <==> forall row :: row in rows ==> row.clinic != clinic
    ensures r.Some? ==> r.value in rows && r.value.clinic == clinic
  {
    if |rows| == 0 then None
    else if rows[0].clinic == clinic then Some(rows[0])
    else FirstCrmRow(rows[1..], clinic)
  }

  /** The four month dictionaries of the CRM-usage measures. */
  class CrmUseStore {
    var overallMeasures: map<int, seq<CrmRow>>
    var clinicMeasures: map<int, seq<CrmRow>>
    var distributionData: map<int, seq<GroupRow>>
    var testResults: map<int, seq<TestRow>>

    /** The oldest stored month, twelve months before the as-of month. */
    const firstMonth: int

    constructor(rs: seq<Referral>)
      ensures firstMonth == ProcessTime.FirstMonth
      ensures overallMeasures == OverallBetween(rs, firstMonth, firstMonth + 12)
      ensures clinicMeasures == ClinicMeasuresBetween(rs, firstMonth, firstMonth + 12)
      ensures distributionData == DistributionsBetween(rs, firstMonth, firstMonth + 12)
      ensures testResults == TestsBetween(rs, firstMonth, firstMonth + 12)
    {
      firstMonth := ProcessTime.FirstMonth;
      overallMeasures, clinicMeasures := map[], map[];
      distributionData, testResults := map[], map[];
      new;
      CalculateCrmMeasures(rs);
      ProcessTime.MergeEmpty(OverallBetween(rs, firstMonth, firstMonth + 12));
      ProcessTime.MergeEmpty(ClinicMeasuresBetween(rs, firstMonth, firstMonth + 12));
      ProcessTime.MergeEmpty(DistributionsBetween(rs, firstMonth, firstMonth + 12));
      ProcessTime.MergeEmpty(TestsBetween(rs, firstMonth, firstMonth + 12));
    }

    /** Computes and keeps each of the twelve months, oldest first. */
    method CalculateCrmMeasures(rs: seq<Referral>)
      modifies this
      ensures overallMeasures == old(overallMeasures) + OverallBetween(rs, firstMonth, firstMonth + 12)
      ensures clinicMeasures == old(clinicMeasures) + ClinicMeasuresBetween(rs, firstMonth, firstMonth + 12)
      ensures distributionData == old(distributionData) + DistributionsBetween(rs, firstMonth, firstMonth + 12)
      ensures testResults == old(testResults) + TestsBetween(rs, firstMonth, firstMonth + 12)
    {
      for key := firstMonth to firstMonth + 12
        invariant overallMeasures == old(overallMeasures) + OverallBetween(rs, firstMonth, key)
        invariant clinicMeasures == old(clinicMeasures) + ClinicMeasuresBetween(rs, firstMonth, key)
        invariant distributionData == old(distributionData) + DistributionsBetween(rs, firstMonth, key)
        invariant testResults == old(testResults) + TestsBetween(rs, firstMonth, key)
      {
        ghost var o, c, d, t := overallMeasures, clinicMeasures, distributionData, testResults;
        StoreMonth(rs, key);
        ProcessTime.MergeNext(old(overallMeasures), OverallBetween(rs, firstMonth, key),
          OverallBetween(rs, firstMonth, key + 1), o, overallMeasures, key, OverallFor(rs, key));
        ProcessTime.MergeNext(old(clinicMeasures), ClinicMeasuresBetween(rs, firstMonth, key),
          ClinicMeasuresBetween(rs, firstMonth, key + 1), c, clinicMeasures, key, ClinicMeasuresFor(rs, key));
        ProcessTime.MergeNext(old(distributionData), DistributionsBetween(rs, firstMonth, key),
          DistributionsBetween(rs, firstMonth, key + 1), d, distributionData, key, DistributionFor(rs, key));
        ProcessTime.MergeNext(old(testResults), TestsBetween(rs, firstMonth, key),
          TestsBetween(rs, firstMonth, key + 1), t, testResults, key, TestsFor(rs));
      }
    }

    /** Computes one month and files its tables under the month. */
    method StoreMonth(rs: seq<Referral>, key: int)
      modifies this
      ensures overallMeasures == old(overallMeasures)[key := OverallFor(rs, key)]
      ensures clinicMeasures == old(clinicMeasures)[key := ClinicMeasuresFor(rs, key)]
      ensures distributionData == old(distributionData)[key := DistributionFor(rs, key)]
      ensures testResults == old(testResults)[key := TestsFor(rs)]
    {
      var crm := MonthMeasures(rs, key);
      var distribution := GroupTable(NotAcceptedEntries(MonthView(rs, key)));
      var tests := Placeholders(ProcessTime.ClinicList(rs));
      overallMeasures := overallMeasures[key := CrmRowsOf(crm, AllClinics)];
      clinicMeasures := clinicMeasures[key := CrmRowsExcept(crm, AllClinics)];
      distributionData := distributionData[key := ExceptClinic(distribution, AllClinics)];
      testResults := testResults[key := tests];
    }

    /**
     * Writes the Result and Score of the first (milestone, clinic) row of the
     * month's tests. ok is false, and nothing changes, where the source raises:
     * no such month, or no matching row.
     */
    method SetCrmUsageScoreForClinic(month: int, clinic: string, milestone: string, ratio: real) returns (ok: bool)
      modifies this
      ensures ok <==> month in old(testResults) && FirstTest(old(testResults)[month], milestone, clinic).Some?
      ensures ok ==> testResults == old(testResults)[month := ScoreTable(old(testResults)[month], clinic, milestone, ratio).value]
      ensures !ok ==> testResults == old(testResults)
      ensures overallMeasures == old(overallMeasures) && clinicMeasures == old(clinicMeasures)
      ensures distributionData == old(distributionData)
    {
      if month !in testResults {
        return false;
      }
      var df := testResults[month];
      var index := FirstTest(df, milestone, clinic);
      if index.None? {
        return false;
      }
      var k := index.value;
      var value := df[k].pointValue;
      df := df[k := df[k].(result := Rounding.PercentOf(ratio))];
      df := df[k := df[k].(score := Score(value, ratio))];
      assert df == testResults[month][k := ScoredRow(testResults[month][k], ratio)];
      testResults := testResults[month := df];
      return true;
    }

    /** The month's distribution rows of the clinic. */
    function GetCountsByNotAcceptedReferralStatus(month: int, clinic: string): (rows: seq<GroupRow>)
      requires month in distributionData
      reads this
      ensures forall row :: row in rows <==> row in distributionData[month] && row.clinic == clinic
    {
      RowsOf(distributionData[month], clinic)
    }

    /** The status column of the clinic's distribution rows. */
    function GetNotAcceptedReferralStatusList(month: int, clinic: string): (statuses: seq<string>)
      requires month in distributionData
      reads this
      ensures |statuses| == |GetCountsByNotAcceptedReferralStatus(month, clinic)|
      ensures forall i :: 0 <= i < |statuses| ==>
        statuses[i] == GetCountsByNotAcceptedReferralStatus(month, clinic)[i].category
    {
      CategoryList(distributionData[month], clinic)
    }

    /**
     * A count measure of the clinic: None for a name that is not a numeric
     * column (the function falls through), 0 for a clinic without a row.
     */
    function GetClinicCountMeasure(month: int, clinic: string, measure: string): (r: Option<int>)
      requires month in clinicMeasures
      reads this
      ensures r.None? <==> measure != LinkedColumn && measure != SeenColumn
      ensures r.Some? && FirstCrmRow(clinicMeasures[month], clinic).None? ==> r == Some(0)
      ensures r.Some? && FirstCrmRow(clinicMeasures[month], clinic).Some? ==>
        r == CountColumn(FirstCrmRow(clinicMeasures[month], clinic).value, measure)
    {
      if measure != LinkedColumn && measure != SeenColumn then None
      else
        var row := FirstCrmRow(clinicMeasures[month], clinic);
        if row.None? then Some(0) else CountColumn(row.value, measure)
    }

    /** The month's test rows of the clinic. */
    function GetCrmUsageTestResults(month: int, clinic: string): (rows: seq<TestRow>)
      requires month in testResults
      reads this
      ensures forall row :: row in rows <==> row in testResults[month] && row.clinic == clinic
    {
      TestRowsOf(testResults[month], clinic)
    }
  }

  // ---- Properties of the stored measures ----

  /** A clinic's stored count is its count of the month's aged linked (or seen-in-CRM) referrals; "*ALL*" reads 0. */
  lemma ClinicCountMeaning(rs: seq<Referral>, key: int, clinic: string, measure: string)
    requires measure == LinkedColumn || measure == SeenColumn
    ensures clinic == AllClinics ==> FirstCrmRow(ClinicMeasuresFor(rs, key), clinic).None?
    ensures clinic != AllClinics && (exists i :: 0 <= i < |rs| && rs[i].raw.clinic == clinic) ==>
      FirstCrmRow(ClinicMeasuresFor(rs, key), clinic).Some? &&
      CountColumn(FirstCrmRow(ClinicMeasuresFor(rs, key), clinic).value, measure) ==
        Some(CountIds(OfClinic(MonthView(rs, key), clinic), if measure == LinkedColumn then LinkedAfter else SeenInCrmAfter))
  {
    ClinicMeasuresRows(rs, key, clinic);
  }

  /** The clinic list has no repeated name when no referral uses the placeholder name. */
  lemma ClinicListDistinct(rs: seq<Referral>)
    requires ProcessTime.NoPlaceholderClinic(rs)
    ensures forall i, j :: 0 <= i < j < |ProcessTime.ClinicList(rs)| ==>
      ProcessTime.ClinicList(rs)[i] != ProcessTime.ClinicList(rs)[j]
  {
    var cs := ProcessTime.ClinicList(rs);
    forall i, j | 0 <= i < j < |cs| ensures cs[i] != cs[j] {
      if i == 0 {
        assert cs[j] == cs[1..][j - 1] && cs[1..][j - 1] in cs[1..];
      } else {
        Strings.StrictlySortedDistinct(cs[1..], i - 1, j - 1);
      }
    }
  }

  /**
   * Every stored month can score every test of every clinic of the referrals,
   * and before any score a clinic's results are its five unscored tests.
   */
  lemma TestsReady(rs: seq<Referral>, clinic: string, j: int)
    requires ProcessTime.NoPlaceholderClinic(rs)
    requires clinic == AllClinics || exists i :: 0 <= i < |rs| && rs[i].raw.clinic == clinic
    requires 0 <= j < 5
    ensures FirstTest(TestsFor(rs), UsageTests[j].milestone, clinic).Some?
    ensures TestRowsOf(TestsFor(rs), clinic) == ClinicTests(clinic)
  {
    var cs := ProcessTime.ClinicList(rs);
    assert clinic in cs by {
      if clinic != AllClinics {
        assert clinic in cs[1..];
      }
    }
    PlaceholderFound(cs, UsageTests[j].milestone, clinic);
    ClinicListDistinct(rs);
    PlaceholderClinicRows(cs, clinic);
  }
}
