/**
 * The windowed aggregations behind the process measures: referrals whose
 * lagged reporting date falls in a half-open window [start, end) are counted
 * per clinic, with a separately computed "*ALL*" row.
 */
module ProcessWindows {
  import opened Wrappers
  import opened Referrals
  import Rounding
  import Stats

  const AllClinics: string := "*ALL*"

  /** Which lagged reporting date a window filters on. */
  datatype Lag = Lag5 | Lag30 | Lag90 {
    function Days(): int {
      match this
      case Lag5 => 5
      case Lag30 => 30
      case Lag90 => 90
    }
  }

  function LagDate(r: Referral, lag: Lag): Option<int> {
    match lag
    case Lag5 => r.lag5
    case Lag30 => r.lag30
    case Lag90 => r.lag90
  }

  /** The referral enters a window's aggregation: listed clinic, lagged date in [start, end). */
  predicate InWindow(r: Referral, clinics: seq<string>, lag: Lag, start: int, end: int) {
    r.raw.clinic in clinics && LagDate(r, lag).Some? &&
    start <= LagDate(r, lag).value < end
  }

  /** The referrals of the window, in table order. */
  function Select(rs: seq<Referral>, clinics: seq<string>, lag: Lag, start: int, end: int): (s: seq<Referral>)
    ensures forall r :: r in s <==> r in rs && InWindow(r, clinics, lag, start, end)
    ensures |s| <= |rs|
  {
    if |rs| == 0 then []
    else
      assert rs == [rs[0]] + rs[1..];
      (if InWindow(rs[0], clinics, lag, start, end) then [rs[0]] else [])
        + Select(rs[1..], clinics, lag, start, end)
  }

  function OfPriority(rs: seq<Referral>, priority: string): (s: seq<Referral>)
    ensures forall r :: r in s <==> r in rs && r.raw.priority == priority
  {
    if |rs| == 0 then []
    else
      assert rs == [rs[0]] + rs[1..];
      (if rs[0].raw.priority == priority then [rs[0]] else []) + OfPriority(rs[1..], priority)
  }

  /** The group of one clinic. */
  function OfClinic(rs: seq<Referral>, clinic: string): (s: seq<Referral>)
    ensures forall r :: r in s <==> r in rs && r.raw.clinic == clinic
  {
    if |rs| == 0 then []
    else
      assert rs == [rs[0]] + rs[1..];
      (if rs[0].raw.clinic == clinic then [rs[0]] else []) + OfClinic(rs[1..], clinic)
  }

  /** Everything but the group of one clinic. */
  function NotClinic(rs: seq<Referral>, clinic: string): (s: seq<Referral>)
    ensures forall r :: r in s <==> r in rs && r.raw.clinic != clinic
  {
    if |rs| == 0 then []
    else
      assert rs == [rs[0]] + rs[1..];
      (if rs[0].raw.clinic != clinic then [rs[0]] else []) + NotClinic(rs[1..], clinic)
  }

  /** The groupby keys: the clinics that occur. */
  function ClinicsOf(rs: seq<Referral>): set<string> {
    set r | r in rs :: r.raw.clinic
  }

  /** The record filters the measures count. */
  datatype Criterion =
    | Every
    | Rejected
    | Canceled
    | ClosedWithoutSeen
    | AgedOnly
    | SeenAfter
    | Scheduled
    | Waiting
    | NotScheduled
    | SeenWithin(days: int)
    | AcceptedAfter
    | CompletedAfter
    | CompletedAndSeen
    | LinkedAfter
    | SeenInCrmAfter

  predicate ScheduledOrLinked(r: Referral) {
    r.patientScheduled || r.appointmentLinked
  }

  predicate Meets(r: Referral, c: Criterion) {
    match c
    case Every => true
    case Rejected => r.raw.status == "Rejected" && r.sentYn
    case Canceled => r.raw.status == "Cancelled" && r.sentYn
    case ClosedWithoutSeen =>
      r.raw.status != "Cancelled" && r.raw.status != "Rejected" && !r.aged && r.sentYn
    case AgedOnly => r.aged
    case SeenAfter => r.seenYn && r.aged
    case Scheduled => ScheduledOrLinked(r) && r.aged
    case Waiting => !r.seenYn && ScheduledOrLinked(r) && r.aged
    case NotScheduled => !ScheduledOrLinked(r) && r.aged
    case SeenWithin(days) => r.daysUntilSeen.Some? && r.daysUntilSeen.value <= days && r.aged
    case AcceptedAfter => r.acceptedYn && r.aged
    case CompletedAfter => r.completedYn && r.aged
    case CompletedAndSeen => r.completedYn && r.seenYn && r.aged
    case LinkedAfter => r.appointmentLinked && r.aged
    case SeenInCrmAfter => r.seenInCrm && r.aged
  }

  /** "count" of Referral ID over the records meeting c: missing IDs are not counted. */
  function CountIds(rs: seq<Referral>, c: Criterion): (n: nat)
    ensures n <= |rs|
  {
    if |rs| == 0 then 0
    else (if Meets(rs[0], c) && rs[0].raw.id.Some? then 1 else 0) + CountIds(rs[1..], c)
  }

  /** "sum" of the aged flag. */
  function SumAged(rs: seq<Referral>): (n: nat)
    ensures n <= |rs|
  {
    if |rs| == 0 then 0
    else (if rs[0].aged then 1 else 0) + SumAged(rs[1..])
  }

  predicate AllIdsPresent(rs: seq<Referral>) {
    forall i :: 0 <= i < |rs| ==> rs[i].raw.id.Some?
  }

  /** Counts of urgent (5 days) or routine (30 days) referrals for one window. */
  datatype PriorityMeasures = PriorityMeasures(
    sent: int,
    aged: int,
    rejected: int,
    canceled: int,
    closedWithoutSeen: int,
    seenAfter: int,
    scheduled: int,
    waiting: int,
    notScheduled: int,
    seenWithin: int,
    pct: Option<real>)

  /** Counts and medians of all referrals for one 90-day window. */
  datatype AllMeasures = AllMeasures(
    sent: int,
    aged: int,
    rejected: int,
    canceled: int,
    closedWithoutSeen: int,
    seenAfter: int,
    scheduled: int,
    waiting: int,
    notScheduled: int,
    accepted: int,
    completed: int,
    completedAndSeen: int,
    medianSeen: real,
    medianScheduled: real,
    medianCompleted: real,
    medianAccept: real,
    pctSeen: int,
    pctScheduled: int)

  /** int(part / whole * 100 + 0.5) after NaN is filled with 0. */
  function RoundedPct(part: int, whole: int): (p: int)
    requires 0 <= part <= whole
    ensures 0 <= p <= 100
    ensures whole == 0 ==> p == 0
    ensures part == whole && whole > 0 ==> p == 100
    ensures 0 < whole ==> p == Rounding.HalfUpInt(part as real / whole as real * 100.0)
  {
    if whole == 0 then 0
    else
      assert part == whole ==> part as real / whole as real == 1.0;
      Rounding.PercentOf(part as real / whole as real)
  }

  /** part / whole * 100, NaN when the whole is 0. */
  function RawPct(part: int, whole: int): (p: Option<real>)
    requires 0 <= part <= whole
    ensures p.None? <==> whole == 0
    ensures p.Some? ==> 0.0 <= p.value <= 100.0
  {
    if whole == 0 then None else Some(part as real / whole as real * 100.0)
  }

  /** The per-clinic counts of a priority group (all records are of that priority and clinic). */
  function PriorityGroup(g: seq<Referral>, days: int, rounded: bool): PriorityMeasures {
    var aged := SumAged(g);
    var seen := CountIds(g, SeenWithin(days));
    SeenWithinBelowAged(g, days);
    PriorityMeasures(
      CountIds(g, Every), aged, CountIds(g, Rejected), CountIds(g, Canceled),
      CountIds(g, ClosedWithoutSeen), CountIds(g, SeenAfter), CountIds(g, Scheduled),
      CountIds(g, Waiting), CountIds(g, NotScheduled), seen,
      if rounded then Some(RoundedPct(seen, aged) as real) else RawPct(seen, aged))
  }

  /** The "*ALL*" row of a priority aggregation: only aged and seen-within are computed. */
  function PriorityOverall(s: seq<Referral>, days: int, rounded: bool): PriorityMeasures {
    var aged := CountIds(s, AgedOnly);
    var seen := CountIds(s, SeenWithin(days));
    CountMonotone(s, SeenWithin(days), AgedOnly);
    PriorityMeasures(0, aged, 0, 0, 0, 0, 0, 0, 0, seen,
      if rounded then Some(RoundedPct(seen, aged) as real) else RawPct(seen, aged))
  }

  /** The shared shape of the 5-day and 30-day aggregations. */
  function PriorityMeasuresFor(rs: seq<Referral>, clinics: seq<string>, lag: Lag, priority: string,
                               days: int, rounded: bool, start: int, end: int): map<string, PriorityMeasures>
  {
    var s := OfPriority(Select(rs, clinics, lag, start, end), priority);
    var perClinic := map c | c in ClinicsOf(s) :: PriorityGroup(OfClinic(s, c), days, rounded);
    if AllClinics in clinics then perClinic[AllClinics := PriorityOverall(s, days, rounded)]
    else perClinic
  }

  /** Urgent referrals that reached 5 days of age in [start, end). */
  function MeasuresAfter5Days(rs: seq<Referral>, clinics: seq<string>, start: int, end: int)
    : map<string, PriorityMeasures>
  {
    PriorityMeasuresFor(rs, clinics, Lag5, "Urgent", 5, true, start, end)
  }

  /** Routine referrals that reached 30 days of age in [start, end); the percentage is not rounded. */
  function MeasuresAfter30Days(rs: seq<Referral>, clinics: seq<string>, start: int, end: int)
    : map<string, PriorityMeasures>
  {
    PriorityMeasuresFor(rs, clinics, Lag30, "Routine", 30, false, start, end)
  }

  /** Which day-count column a median is taken over. */
  datatype DayMeasure = DaysSeen | DaysScheduled | DaysCompleted | DaysAccepted

  function DaysOf(r: Referral, d: DayMeasure): Option<int> {
    match d
    case DaysSeen => r.daysUntilSeen
    case DaysScheduled => r.daysUntilScheduled
    case DaysCompleted => r.daysUntilCompleted
    case DaysAccepted => r.daysUntilAccepted
  }

  /** The day counts of the aged records. */
  function AgedDays(rs: seq<Referral>, d: DayMeasure): (s: seq<Option<int>>)
    ensures |s| == SumAged(rs)
  {
    if |rs| == 0 then []
    else (if rs[0].aged then [DaysOf(rs[0], d)] else []) + AgedDays(rs[1..], d)
  }

  /** Median over the aged records, NaN filled with 0. */
  function AgedMedian(rs: seq<Referral>, d: DayMeasure): real {
    Stats.Median(AgedDays(rs, d)).GetOr(0.0)
  }

  function AllGroup(g: seq<Referral>): AllMeasures {
    var aged := SumAged(g);
    CountMonotone(g, SeenAfter, AgedOnly);
    CountMonotone(g, Scheduled, AgedOnly);
    CountAgedBelowSum(g);
    AllMeasures(
      CountIds(g, Every), aged, CountIds(g, Rejected), CountIds(g, Canceled),
      CountIds(g, ClosedWithoutSeen), CountIds(g, SeenAfter), CountIds(g, Scheduled),
      CountIds(g, Waiting), CountIds(g, NotScheduled), CountIds(g, AcceptedAfter),
      CountIds(g, CompletedAfter), CountIds(g, CompletedAndSeen),
      AgedMedian(g, DaysSeen), AgedMedian(g, DaysScheduled),
      AgedMedian(g, DaysCompleted), AgedMedian(g, DaysAccepted),
      RoundedPct(CountIds(g, SeenAfter), aged), RoundedPct(CountIds(g, Scheduled), aged))
  }

  /** The "*ALL*" row of the 90-day aggregation: the two global medians, zeros elsewhere. */
  function AllOverall(s: seq<Referral>): AllMeasures {
    AllMeasures(0, 0, 0, 0, 0, 0, 0, 0, 0, 0, 0, 0,
      AgedMedian(s, DaysSeen), AgedMedian(s, DaysScheduled), 0.0, 0.0, 0, 0)
  }

  /** All referrals that reached 90 days of age in [start, end). */
  function MeasuresAfter90Days(rs: seq<Referral>, clinics: seq<string>, start: int, end: int)
    : map<string, AllMeasures>
  {
    var s := Select(rs, clinics, Lag90, start, end);
    var perClinic := map c | c in ClinicsOf(s) :: AllGroup(OfClinic(s, c));
    if AllClinics in clinics then perClinic[AllClinics := AllOverall(s)] else perClinic
  }

  /** A distribution key: clinic, priority and age-category name. */
  datatype DistKey = DistKey(clinic: string, priority: string, category: string)

  function KeyOf(r: Referral): DistKey {
    DistKey(r.raw.clinic, r.raw.priority, AgeCategoryOf(AsAge(r.daysUntilSeen)).Label())
  }

  function OfKey(rs: seq<Referral>, k: DistKey): (s: seq<Referral>)
    ensures forall r :: r in s <==> r in rs && KeyOf(r) == k
  {
    if |rs| == 0 then []
    else
      assert rs == [rs[0]] + rs[1..];
      (if KeyOf(rs[0]) == k then [rs[0]] else []) + OfKey(rs[1..], k)
  }

  /** Aged referrals by clinic, priority and age category to seen, over the 90-day month window. */
  function DistributionsAfter90Days(rs: seq<Referral>, clinics: seq<string>, start: int, end: int)
    : map<DistKey, int>
  {
    var s := Select(rs, clinics, Lag90, start, end);
    map k | k in (set r | r in s :: KeyOf(r)) :: SumAged(OfKey(s, k))
  }

  /** A distribution lookup: the group's count, 0 for a group the groupby did not produce. */
  function DistCount(d: map<DistKey, int>, k: DistKey): int {
    if k in d then d[k] else 0
  }

  /** The lookups of one clinic and priority, summed over some age-category names. */
  function DistCountsOver(d: map<DistKey, int>, clinic: string, priority: string, labels: seq<string>): int {
    if |labels| == 0 then 0
    else DistCount(d, DistKey(clinic, priority, labels[0])) + DistCountsOver(d, clinic, priority, labels[1..])
  }

  /**
   * The distribution has a row for (clinic, priority, category) exactly when some
   * referral of the 90-day window falls in that group, and the row counts the
   * group's aged referrals; a lookup of any other key gives 0.
   */
  lemma DistributionGroups(rs: seq<Referral>, clinics: seq<string>, start: int, end: int, k: DistKey)
    ensures k in DistributionsAfter90Days(rs, clinics, start, end) <==>
      exists r :: r in rs && InWindow(r, clinics, Lag90, start, end) && r.raw.clinic == k.clinic &&
        r.raw.priority == k.priority && AgeCategoryOf(AsAge(r.daysUntilSeen)).Label() == k.category
    ensures DistCount(DistributionsAfter90Days(rs, clinics, start, end), k) ==
      SumAged(OfKey(Select(rs, clinics, Lag90, start, end), k))
  {
    var s := Select(rs, clinics, Lag90, start, end);
    if k in DistributionsAfter90Days(rs, clinics, start, end) {
      var r :| r in s && KeyOf(r) == k;
      assert r in rs && InWindow(r, clinics, Lag90, start, end);
    } else {
      forall r | r in rs && InWindow(r, clinics, Lag90, start, end) ensures KeyOf(r) != k {
        assert r in s;
      }
    }
  }

  /** Summing one clinic and priority's group sums over the category names. */
  function LabelSum(s: seq<Referral>, clinic: string, priority: string, labels: seq<string>): nat {
    if |labels| == 0 then 0
    else SumAged(OfKey(s, DistKey(clinic, priority, labels[0]))) + LabelSum(s, clinic, priority, labels[1..])
  }

  /** How many of the names put one aged referral in the clinic and priority's groups. */
  function AgedIn(r: Referral, clinic: string, priority: string, labels: seq<string>): nat {
    if |labels| == 0 then 0
    else
      (if r.aged && KeyOf(r) == DistKey(clinic, priority, labels[0]) then 1 else 0)
        + AgedIn(r, clinic, priority, labels[1..])
  }

  lemma {:induction false} DistCountsOverSums(rs: seq<Referral>, clinics: seq<string>, start: int, end: int,
                                              clinic: string, priority: string, labels: seq<string>)
    ensures DistCountsOver(DistributionsAfter90Days(rs, clinics, start, end), clinic, priority, labels) ==
      LabelSum(Select(rs, clinics, Lag90, start, end), clinic, priority, labels)
  {
    if |labels| > 0 {
      DistributionGroups(rs, clinics, start, end, DistKey(clinic, priority, labels[0]));
      DistCountsOverSums(rs, clinics, start, end, clinic, priority, labels[1..]);
    }
  }

  lemma {:induction false} LabelSumEmpty(clinic: string, priority: string, labels: seq<string>)
    ensures LabelSum([], clinic, priority, labels) == 0
  {
    if |labels| > 0 {
      LabelSumEmpty(clinic, priority, labels[1..]);
    }
  }

  lemma {:induction false} LabelSumCons(r: Referral, rest: seq<Referral>, clinic: string, priority: string,
                                        labels: seq<string>)
    ensures LabelSum([r] + rest, clinic, priority, labels) ==
      AgedIn(r, clinic, priority, labels) + LabelSum(rest, clinic, priority, labels)
  {
    if |labels| > 0 {
      var k := DistKey(clinic, priority, labels[0]);
      var t := [r] + rest;
      assert t[0] == r && t[1..] == rest;
      var g := OfKey(rest, k);
      var h := if KeyOf(r) == k then [r] else [];
      assert OfKey(t, k) == h + g;
      assert SumAged(h + g) == (if r.aged && KeyOf(r) == k then 1 else 0) + SumAged(g) by {
        if KeyOf(r) == k {
          assert (h + g)[0] == r && (h + g)[1..] == g;
        } else {
          assert h + g == g;
        }
      }
      LabelSumCons(r, rest, clinic, priority, labels[1..]);
    }
  }

  /** With distinct names, an aged referral is counted once if its category is named, else not at all. */
  lemma {:induction false} AgedInDistinct(r: Referral, clinic: string, priority: string, labels: seq<string>)
    requires forall i, j :: 0 <= i < j < |labels| ==> labels[i] != labels[j]
    ensures AgedIn(r, clinic, priority, labels) ==
      if r.aged && r.raw.clinic == clinic && r.raw.priority == priority && KeyOf(r).category in labels then 1 else 0
  {
    if |labels| > 0 {
      AgedInDistinct(r, clinic, priority, labels[1..]);
      if KeyOf(r).category == labels[0] {
        assert KeyOf(r).category !in labels[1..] by {
          forall j | 0 <= j < |labels[1..]| ensures labels[1..][j] != labels[0] {
            assert labels[1..][j] == labels[j + 1];
          }
        }
      }
    }
  }

  /** Over names covering every category, the group sums add up to the clinic and priority's aged referrals. */
  lemma {:induction false} LabelSumTotal(s: seq<Referral>, clinic: string, priority: string, labels: seq<string>)
    requires forall i, j :: 0 <= i < j < |labels| ==> labels[i] != labels[j]
    requires forall r :: r in s ==> KeyOf(r).category in labels
    ensures LabelSum(s, clinic, priority, labels) == SumAged(OfPriority(OfClinic(s, clinic), priority))
  {
    if |s| == 0 {
      LabelSumEmpty(clinic, priority, labels);
    } else {
      var r, rest := s[0], s[1..];
      assert s == [r] + rest;
      LabelSumCons(r, rest, clinic, priority, labels);
      AgedInDistinct(r, clinic, priority, labels);
      LabelSumTotal(rest, clinic, priority, labels);
      GroupSumCons(r, rest, clinic, priority);
    }
  }

  /** Prepending one referral adds its aged flag to its own clinic and priority group only. */
  lemma GroupSumCons(r: Referral, rest: seq<Referral>, clinic: string, priority: string)
    ensures SumAged(OfPriority(OfClinic([r] + rest, clinic), priority)) ==
      (if r.aged && r.raw.clinic == clinic && r.raw.priority == priority then 1 else 0)
        + SumAged(OfPriority(OfClinic(rest, clinic), priority))
  {
    var s := [r] + rest;
    assert s[0] == r && s[1..] == rest;
    var u := OfClinic(rest, clinic);
    var v := OfPriority(u, priority);
    if r.raw.clinic == clinic {
      var t := OfClinic(s, clinic);
      assert t == [r] + u;
      assert t[0] == r && t[1..] == u;
      if r.raw.priority == priority {
        var w := OfPriority(t, priority);
        assert w == [r] + v;
        assert w[0] == r && w[1..] == v;
      } else {
        assert OfPriority(t, priority) == [] + v;
        assert [] + v == v;
      }
    } else {
      assert OfClinic(s, clinic) == [] + u;
      assert [] + u == u;
    }
  }

  /**
   * For every clinic and priority, the counts over the seven age categories add up
   * to the aged referrals of that clinic and priority in the 90-day window.
   */
  lemma DistributionTotal(rs: seq<Referral>, clinics: seq<string>, start: int, end: int,
                          clinic: string, priority: string)
    ensures DistCountsOver(DistributionsAfter90Days(rs, clinics, start, end), clinic, priority, AgeLabels) ==
      SumAged(OfPriority(OfClinic(Select(rs, clinics, Lag90, start, end), clinic), priority))
  {
    var s := Select(rs, clinics, Lag90, start, end);
    DistCountsOverSums(rs, clinics, start, end, clinic, priority, AgeLabels);
    AgeLabelsDistinct();
    forall r | r in s ensures KeyOf(r).category in AgeLabels {
      AgeLabelListed(AgeCategoryOf(AsAge(r.daysUntilSeen)));
    }
    LabelSumTotal(s, clinic, priority, AgeLabels);
  }

  // ---- Counting lemmas ----

  /** A weaker filter counts at least as many records. */
  lemma {:induction false} CountMonotone(rs: seq<Referral>, c1: Criterion, c2: Criterion)
    requires forall r :: Meets(r, c1) ==> Meets(r, c2)
    ensures CountIds(rs, c1) <= CountIds(rs, c2)
  {
    if |rs| > 0 {
      CountMonotone(rs[1..], c1, c2);
    }
  }

  /** Counting aged IDs never exceeds summing the aged flag, and equals it when no ID is missing. */
  lemma {:induction false} CountAgedBelowSum(rs: seq<Referral>)
    ensures CountIds(rs, AgedOnly) <= SumAged(rs)
    ensures AllIdsPresent(rs) ==> CountIds(rs, AgedOnly) == SumAged(rs)
  {
    if |rs| > 0 {
      CountAgedBelowSum(rs[1..]);
    }
  }

  lemma SeenWithinBelowAged(rs: seq<Referral>, days: int)
    ensures CountIds(rs, SeenWithin(days)) <= SumAged(rs)
  {
    CountMonotone(rs, SeenWithin(days), AgedOnly);
    CountAgedBelowSum(rs);
  }

  /** Scheduled and not-scheduled split the aged records. */
  lemma {:induction false} ScheduledSplitsAged(rs: seq<Referral>)
    ensures CountIds(rs, Scheduled) + CountIds(rs, NotScheduled) == CountIds(rs, AgedOnly)
  {
    if |rs| > 0 {
      ScheduledSplitsAged(rs[1..]);
    }
  }

  /** Rejected, cancelled, closed-without-seen and aged are mutually exclusive. */
  lemma OutcomesExclusive(r: Referral)
    requires r == Derive(r.raw)
    ensures (if Meets(r, Rejected) then 1 else 0) + (if Meets(r, Canceled) then 1 else 0)
          + (if Meets(r, ClosedWithoutSeen) then 1 else 0) + (if Meets(r, AgedOnly) then 1 else 0) <= 1
  {
  }

  /** So the four counts together never exceed the referrals sent. */
  lemma {:induction false} OutcomeCountsBelowSent(rs: seq<Referral>)
    requires forall i :: 0 <= i < |rs| ==> rs[i] == Derive(rs[i].raw)
    ensures CountIds(rs, Rejected) + CountIds(rs, Canceled) + CountIds(rs, ClosedWithoutSeen)
          + CountIds(rs, AgedOnly) <= CountIds(rs, Every)
  {
    if |rs| > 0 {
      OutcomesExclusive(rs[0]);
      OutcomeCountsBelowSent(rs[1..]);
    }
  }

  /** A per-clinic row of the 90-day aggregation is the group of that clinic's window records. */
  lemma MeasuresAfter90DaysAt(rs: seq<Referral>, clinics: seq<string>, start: int, end: int, c: string)
    requires c in MeasuresAfter90Days(rs, clinics, start, end) && c != AllClinics
    ensures var s := Select(rs, clinics, Lag90, start, end);
      c in ClinicsOf(s) && MeasuresAfter90Days(rs, clinics, start, end)[c] == AllGroup(OfClinic(s, c))
  {
  }

  lemma PriorityMeasuresAt(rs: seq<Referral>, clinics: seq<string>, lag: Lag, priority: string,
                           days: int, rounded: bool, start: int, end: int, c: string)
    requires c in PriorityMeasuresFor(rs, clinics, lag, priority, days, rounded, start, end) && c != AllClinics
    ensures var s := OfPriority(Select(rs, clinics, lag, start, end), priority);
      c in ClinicsOf(s) &&
      PriorityMeasuresFor(rs, clinics, lag, priority, days, rounded, start, end)[c]
        == PriorityGroup(OfClinic(s, c), days, rounded)
  {
  }

  /** Within one group, scheduled plus not scheduled equals aged; waiting and seen are within them. */
  lemma AllGroupPartition(g: seq<Referral>)
    requires AllIdsPresent(g)
    ensures var m := AllGroup(g);
      m.scheduled + m.notScheduled == m.aged &&
      m.waiting <= m.scheduled && m.seenAfter <= m.aged && m.completedAndSeen <= m.completed
  {
    ScheduledSplitsAged(g);
    CountAgedBelowSum(g);
    CountMonotone(g, Waiting, Scheduled);
    CountMonotone(g, SeenAfter, AgedOnly);
    CountMonotone(g, CompletedAndSeen, CompletedAfter);
  }

  lemma PriorityGroupPartition(g: seq<Referral>, days: int, rounded: bool)
    requires AllIdsPresent(g)
    ensures var m := PriorityGroup(g, days, rounded);
      m.scheduled + m.notScheduled == m.aged && m.waiting <= m.scheduled &&
      m.seenAfter <= m.aged && m.seenWithin <= m.aged
  {
    ScheduledSplitsAged(g);
    CountAgedBelowSum(g);
    CountMonotone(g, Waiting, Scheduled);
    CountMonotone(g, SeenAfter, AgedOnly);
    CountMonotone(g, SeenWithin(days), AgedOnly);
  }

  /** Per clinic, scheduled plus not scheduled equals aged (when no referral ID is missing). */
  lemma ClinicScheduledPartition(rs: seq<Referral>, clinics: seq<string>, start: int, end: int, c: string)
    requires AllIdsPresent(rs)
    requires c in MeasuresAfter90Days(rs, clinics, start, end) && c != AllClinics
    ensures var m := MeasuresAfter90Days(rs, clinics, start, end)[c];
      m.scheduled + m.notScheduled == m.aged &&
      m.waiting <= m.scheduled && m.seenAfter <= m.aged && m.completedAndSeen <= m.completed
  {
    var s := Select(rs, clinics, Lag90, start, end);
    MeasuresAfter90DaysAt(rs, clinics, start, end, c);
    IdsPresentSub(rs, OfClinic(s, c));
    AllGroupPartition(OfClinic(s, c));
  }

  /** The same partition for the urgent and routine aggregations. */
  lemma PriorityScheduledPartition(rs: seq<Referral>, clinics: seq<string>, lag: Lag, priority: string,
                                   days: int, rounded: bool, start: int, end: int, c: string)
    requires AllIdsPresent(rs)
    requires c in PriorityMeasuresFor(rs, clinics, lag, priority, days, rounded, start, end) && c != AllClinics
    ensures var m := PriorityMeasuresFor(rs, clinics, lag, priority, days, rounded, start, end)[c];
      m.scheduled + m.notScheduled == m.aged && m.waiting <= m.scheduled &&
      m.seenAfter <= m.aged && m.seenWithin <= m.aged
  {
    var s := OfPriority(Select(rs, clinics, lag, start, end), priority);
    PriorityMeasuresAt(rs, clinics, lag, priority, days, rounded, start, end, c);
    IdsPresentSub(rs, OfClinic(s, c));
    PriorityGroupPartition(OfClinic(s, c), days, rounded);
  }

  lemma IdsPresentSub(rs: seq<Referral>, g: seq<Referral>)
    requires AllIdsPresent(rs) && forall r :: r in g ==> r in rs
    ensures AllIdsPresent(g)
  {
    forall i | 0 <= i < |g| ensures g[i].raw.id.Some? {
      assert g[i] in rs;
    }
  }

  /** Every percentage is in 0..100 and is 0 when nothing aged. */
  lemma PercentagesBounded(rs: seq<Referral>, clinics: seq<string>, start: int, end: int, c: string)
    requires c in MeasuresAfter5Days(rs, clinics, start, end)
    ensures var m := MeasuresAfter5Days(rs, clinics, start, end)[c];
      m.pct.Some? && 0.0 <= m.pct.value <= 100.0 && (m.aged == 0 ==> m.pct.value == 0.0)
  {
  }

  lemma Percentages90Bounded(rs: seq<Referral>, clinics: seq<string>, start: int, end: int, c: string)
    requires c in MeasuresAfter90Days(rs, clinics, start, end)
    ensures var m := MeasuresAfter90Days(rs, clinics, start, end)[c];
      0 <= m.pctSeen <= 100 && 0 <= m.pctScheduled <= 100 &&
      (m.aged == 0 ==> m.pctSeen == 0 && m.pctScheduled == 0)
  {
  }

  lemma Percentages30Bounded(rs: seq<Referral>, clinics: seq<string>, start: int, end: int, c: string)
    requires c in MeasuresAfter30Days(rs, clinics, start, end)
    ensures var m := MeasuresAfter30Days(rs, clinics, start, end)[c];
      (m.pct.None? <==> m.aged == 0) && (m.pct.Some? ==> 0.0 <= m.pct.value <= 100.0)
  {
  }

  /** The "*ALL*" row exists exactly when the clinic list names it; other rows are the clinics that occur. */
  lemma AggregationKeys(rs: seq<Referral>, clinics: seq<string>, start: int, end: int)
    requires forall i :: 0 <= i < |rs| ==> rs[i].raw.clinic != AllClinics
    ensures var m := MeasuresAfter90Days(rs, clinics, start, end);
      (AllClinics in m <==> AllClinics in clinics) &&
      forall c :: c in m && c != AllClinics <==>
        exists r :: r in rs && r.raw.clinic == c && InWindow(r, clinics, Lag90, start, end)
  {
    var s := Select(rs, clinics, Lag90, start, end);
    forall c ensures c in ClinicsOf(s) <==> exists r :: r in rs && r.raw.clinic == c && InWindow(r, clinics, Lag90, start, end) {
      if c in ClinicsOf(s) {
        var r :| r in s && r.raw.clinic == c;
      }
    }
  }

  // ---- The "*ALL*" row against the per-clinic rows ----

  /** Sum of a criterion's count over the groups of the listed clinics. */
  function SumPerClinic(rs: seq<Referral>, cs: seq<string>, c: Criterion): nat {
    if |cs| == 0 then 0 else CountIds(OfClinic(rs, cs[0]), c) + SumPerClinic(rs, cs[1..], c)
  }

  lemma {:induction false} SplitByClinic(rs: seq<Referral>, clinic: string, c: Criterion)
    ensures CountIds(rs, c) == CountIds(OfClinic(rs, clinic), c) + CountIds(NotClinic(rs, clinic), c)
  {
    if |rs| > 0 {
      SplitByClinic(rs[1..], clinic, c);
      var x, t := rs[0], rs[1..];
      if x.raw.clinic == clinic {
        assert OfClinic(rs, clinic) == [x] + OfClinic(t, clinic);
        assert ([x] + OfClinic(t, clinic))[1..] == OfClinic(t, clinic);
        assert NotClinic(rs, clinic) == NotClinic(t, clinic);
      } else {
        assert NotClinic(rs, clinic) == [x] + NotClinic(t, clinic);
        assert ([x] + NotClinic(t, clinic))[1..] == NotClinic(t, clinic);
        assert OfClinic(rs, clinic) == OfClinic(t, clinic);
      }
    }
  }

  lemma {:induction false} OfClinicOfNotClinic(rs: seq<Referral>, c0: string, c: string)
    requires c != c0
    ensures OfClinic(NotClinic(rs, c0), c) == OfClinic(rs, c)
  {
    if |rs| > 0 {
      OfClinicOfNotClinic(rs[1..], c0, c);
      var x, t := rs[0], rs[1..];
      if x.raw.clinic != c0 {
        assert NotClinic(rs, c0) == [x] + NotClinic(t, c0);
        assert ([x] + NotClinic(t, c0))[1..] == NotClinic(t, c0);
      } else {
        assert NotClinic(rs, c0) == NotClinic(t, c0);
      }
    }
  }

  lemma {:induction false} SumPerClinicSkip(rs: seq<Referral>, cs: seq<string>, c0: string, crit: Criterion)
    requires c0 !in cs
    ensures SumPerClinic(NotClinic(rs, c0), cs, crit) == SumPerClinic(rs, cs, crit)
  {
    if |cs| > 0 {
      OfClinicOfNotClinic(rs, c0, cs[0]);
      SumPerClinicSkip(rs, cs[1..], c0, crit);
    }
  }

  /** Summing the per-clinic groups over a duplicate-free list covering every clinic gives the whole count. */
  lemma {:induction false} SumPerClinicTotal(rs: seq<Referral>, cs: seq<string>, crit: Criterion)
    requires forall r :: r in rs ==> r.raw.clinic in cs
    requires forall i, j :: 0 <= i < j < |cs| ==> cs[i] != cs[j]
    ensures SumPerClinic(rs, cs, crit) == CountIds(rs, crit)
    decreases |cs|
  {
    if |cs| > 0 {
      var rest := NotClinic(rs, cs[0]);
      SplitByClinic(rs, cs[0], crit);
      assert cs[0] !in cs[1..] by {
        forall k | 0 <= k < |cs[1..]| ensures cs[1..][k] != cs[0] { assert cs[1..][k] == cs[k + 1]; }
      }
      SumPerClinicSkip(rs, cs[1..], cs[0], crit);
      forall r | r in rest ensures r.raw.clinic in cs[1..] {
        assert r.raw.clinic in cs && r.raw.clinic != cs[0];
      }
      SumPerClinicTotal(rest, cs[1..], crit);
    }
  }

  /** The two columns the "*ALL*" row of a priority aggregation computes. */
  datatype PriorityColumn = AgedColumn | SeenWithinColumn

  /** One clinic's value in a column; a clinic without a row reads 0. */
  function Cell(m: map<string, PriorityMeasures>, c: string, col: PriorityColumn): int {
    if c !in m then 0
    else match col
      case AgedColumn => m[c].aged
      case SeenWithinColumn => m[c].seenWithin
  }

  /** A column summed over the rows of the listed clinics. */
  function RowSum(m: map<string, PriorityMeasures>, cs: seq<string>, col: PriorityColumn): int {
    if |cs| == 0 then 0 else Cell(m, cs[0], col) + RowSum(m, cs[1..], col)
  }

  lemma {:induction false} RowSumIsGroupSum(s: seq<Referral>, m: map<string, PriorityMeasures>, cs: seq<string>,
                                            crit: Criterion, col: PriorityColumn)
    requires forall k :: 0 <= k < |cs| ==> Cell(m, cs[k], col) == CountIds(OfClinic(s, cs[k]), crit)
    ensures RowSum(m, cs, col) == SumPerClinic(s, cs, crit)
  {
    if |cs| > 0 {
      assert Cell(m, cs[0], col) == CountIds(OfClinic(s, cs[0]), crit);
      forall k | 0 <= k < |cs[1..]|
        ensures Cell(m, cs[1..][k], col) == CountIds(OfClinic(s, cs[1..][k]), crit)
      {
        assert cs[1..][k] == cs[k + 1];
      }
      RowSumIsGroupSum(s, m, cs[1..], crit, col);
    }
  }

  lemma {:induction false} OfClinicAbsent(rs: seq<Referral>, c: string)
    requires forall r :: r in rs ==> r.raw.clinic != c
    ensures OfClinic(rs, c) == []
  {
    if |rs| > 0 {
      assert rs[0] in rs;
      OfClinicAbsent(rs[1..], c);
    }
  }

  /** A clinic's cells are the counts over its group; a clinic without a row has no records. */
  lemma ClinicCells(rs: seq<Referral>, clinics: seq<string>, lag: Lag, priority: string,
                    days: int, rounded: bool, start: int, end: int, c: string)
    requires AllIdsPresent(rs) && c != AllClinics
    ensures var m := PriorityMeasuresFor(rs, clinics, lag, priority, days, rounded, start, end);
      var g := OfClinic(OfPriority(Select(rs, clinics, lag, start, end), priority), c);
      Cell(m, c, AgedColumn) == CountIds(g, AgedOnly) &&
      Cell(m, c, SeenWithinColumn) == CountIds(g, SeenWithin(days))
  {
    var s := OfPriority(Select(rs, clinics, lag, start, end), priority);
    var m := PriorityMeasuresFor(rs, clinics, lag, priority, days, rounded, start, end);
    var g := OfClinic(s, c);
    if c in m {
      PriorityMeasuresAt(rs, clinics, lag, priority, days, rounded, start, end, c);
      IdsPresentSub(rs, g);
      CountAgedBelowSum(g);
    } else {
      assert c !in ClinicsOf(s);
      OfClinicAbsent(s, c);
    }
  }

  /**
   * The "*ALL*" row of the urgent and routine aggregations is computed over
   * the whole window, yet its aged and seen-within counts are the sums of the
   * per-clinic rows (when no referral ID is missing).
   */
  lemma OverallIsClinicSum(rs: seq<Referral>, clinics: seq<string>, lag: Lag, priority: string,
                           days: int, rounded: bool, start: int, end: int, cs: seq<string>)
    requires AllIdsPresent(rs) && AllClinics in clinics && AllClinics !in cs
    requires forall i :: 0 <= i < |rs| ==> rs[i].raw.clinic != AllClinics
    requires forall c :: c in clinics && c != AllClinics ==> c in cs
    requires forall i, j :: 0 <= i < j < |cs| ==> cs[i] != cs[j]
    ensures var m := PriorityMeasuresFor(rs, clinics, lag, priority, days, rounded, start, end);
      m[AllClinics].aged == RowSum(m, cs, AgedColumn) &&
      m[AllClinics].seenWithin == RowSum(m, cs, SeenWithinColumn)
  {
    var s := OfPriority(Select(rs, clinics, lag, start, end), priority);
    var m := PriorityMeasuresFor(rs, clinics, lag, priority, days, rounded, start, end);
    forall r | r in s ensures r.raw.clinic in cs {
      var i :| 0 <= i < |rs| && rs[i] == r;
    }
    SumPerClinicTotal(s, cs, AgedOnly);
    SumPerClinicTotal(s, cs, SeenWithin(days));
    forall k | 0 <= k < |cs|
      ensures Cell(m, cs[k], AgedColumn) == CountIds(OfClinic(s, cs[k]), AgedOnly)
      ensures Cell(m, cs[k], SeenWithinColumn) == CountIds(OfClinic(s, cs[k]), SeenWithin(days))
    {
      ClinicCells(rs, clinics, lag, priority, days, rounded, start, end, cs[k]);
    }
    RowSumIsGroupSum(s, m, cs, AgedOnly, AgedColumn);
    RowSumIsGroupSum(s, m, cs, SeenWithin(days), SeenWithinColumn);
  }
}
