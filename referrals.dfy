/**
 * The referral master table: the columns derived from each loaded referral
 * (lagged reporting dates, days until each milestone, 0/1 convenience flags)
 * and the bucketing of a day count into an age category.
 *
 * Dates are day numbers; a missing date (NaT) is None. Day differences of
 * whole dates are whole numbers, so the day-count columns are Option<int>.
 */
module Referrals {
  import opened Wrappers
  import Calendar

  /** A referral as loaded from the extract (only the columns the pipeline reads). */
  datatype RawReferral = RawReferral(
    id: Option<string>,
    clinic: string,
    priority: string,
    status: string,
    subStatus: Option<string>,
    holdReason: Option<string>,
    sent: Option<int>,
    seen: Option<int>,
    checkedIn: Option<int>,
    held: Option<int>,
    pendingReschedule: Option<int>,
    similarScheduled: Option<int>,
    accepted: Option<int>,
    completed: Option<int>,
    referralScheduled: Option<int>)

  /** A referral with every derived column of the master table. */
  datatype Referral = Referral(
    raw: RawReferral,
    lag30: Option<int>,
    lag90: Option<int>,
    lag5: Option<int>,
    seenOrCheckedIn: Option<int>,
    daysUntilSeen: Option<int>,
    daysUntilAccepted: Option<int>,
    daysUntilCompleted: Option<int>,
    scheduledDate: Option<int>,
    daysUntilScheduled: Option<int>,
    daysOnHold: Option<int>,
    daysPendingReschedule: Option<int>,
    aged: bool,
    sentYn: bool,
    seenYn: bool,
    patientScheduled: bool,
    appointmentLinked: bool,
    acceptedYn: bool,
    completedYn: bool,
    seenInCrm: bool)

  /** The effective as-of date of the data, 2023-03-01, as a day number. */
  const AsOf: int := 19417

  lemma AsOfIsFirstOfMarch2023()
    ensures AsOf == Calendar.AsOfDate
  {
    Calendar.AsOfDateValue();
  }

  /** Date arithmetic with NaT propagation. */
  function Add(d: Option<int>, days: int): (r: Option<int>)
    ensures r.Some? <==> d.Some?
    ensures r.Some? ==> r.value - d.value == days
  {
    if d.Some? then Some(d.value + days) else None
  }

  function Diff(later: Option<int>, earlier: Option<int>): (r: Option<int>)
    ensures r.Some? <==> later.Some? && earlier.Some?
    ensures r.Some? ==> r.value + earlier.value == later.value
  {
    if later.Some? && earlier.Some? then Some(later.value - earlier.value) else None
  }

  /** The first of two dates that is present. */
  function Coalesce(a: Option<int>, b: Option<int>): (r: Option<int>)
    ensures a.Some? ==> r == a
    ensures a.None? ==> r == b
  {
    if a.Some? then a else b
  }

  /** Days from sent to a milestone, or to the as-of date while the milestone is missing. */
  function DaysUntil(milestone: Option<int>, sent: Option<int>): Option<int> {
    Diff(if milestone.Some? then milestone else Some(AsOf), sent)
  }

  /** Statuses the aged flag treats specially. */
  predicate IsWithdrawn(status: string) {
    status == "Rejected" || status == "Cancelled"
  }

  predicate IsClosed(status: string) {
    status == "Closed" || status == "Completed"
  }

  /** Sent, not rejected or cancelled, and not closed unless the patient was seen. */
  predicate AgedFlag(sent: Option<int>, status: string, seenOrCheckedIn: Option<int>) {
    sent.Some? && !IsWithdrawn(status) && (!IsClosed(status) || seenOrCheckedIn.Some?)
  }

  /**
   * Every derived column of one referral, stated declaratively.
   * Days until accepted is the corrected reading (see DaysUntilAcceptedAsWritten).
   */
  function Derive(r: RawReferral): Referral {
    var soc := Coalesce(r.seen, r.checkedIn);
    var sched := Coalesce(r.referralScheduled, r.similarScheduled);
    Referral(
      r,
      Add(r.sent, 30), Add(r.sent, 90), Add(r.sent, 5),
      soc,
      DaysUntil(soc, r.sent),
      DaysUntil(r.accepted, r.sent),
      DaysUntil(r.completed, r.sent),
      sched,
      DaysUntil(sched, r.sent),
      Diff(Some(AsOf), r.held),
      Diff(Some(AsOf), r.pendingReschedule),
      AgedFlag(r.sent, r.status, soc),
      r.sent.Some?, soc.Some?, r.similarScheduled.Some?, r.referralScheduled.Some?,
      r.accepted.Some?, r.completed.Some?, r.seen.Some?)
  }

  /**
   * Builds the master table: for each referral, the columns are assigned in
   * the order the extract transformation assigns them, each fallback being a
   * masked overwrite of the value assigned just before.
   */
  method CreateMasterDataFrame(raw: seq<RawReferral>) returns (df: seq<Referral>)
    ensures |df| == |raw|
    ensures forall i :: 0 <= i < |raw| ==> df[i] == Derive(raw[i])
  {
    df := [];
    for k := 0 to |raw|
      invariant |df| == k
      invariant forall i :: 0 <= i < k ==> df[i] == Derive(raw[i])
    {
      var r := raw[k];
      // Seen date, with the check-in date filled in where it is missing.
      var soc := r.seen;
      if soc.None? { soc := r.checkedIn; }
      var daysSeen := Diff(soc, r.sent);
      if soc.None? { daysSeen := Diff(Some(AsOf), r.sent); }
      var daysAccepted := Diff(r.accepted, r.sent);
      if r.accepted.None? { daysAccepted := Diff(Some(AsOf), r.sent); }
      var daysCompleted := Diff(r.completed, r.sent);
      if r.completed.None? { daysCompleted := Diff(Some(AsOf), r.sent); }
      var sched := r.referralScheduled;
      if sched.None? { sched := r.similarScheduled; }
      var daysScheduled := Diff(sched, r.sent);
      if sched.None? { daysScheduled := Diff(Some(AsOf), r.sent); }
      var aged := false;
      if r.sent.Some? && !IsWithdrawn(r.status) && (!IsClosed(r.status) || soc.Some?) {
        aged := true;
      }
      var row := Referral(
        r, Add(r.sent, 30), Add(r.sent, 90), Add(r.sent, 5), soc,
        daysSeen, daysAccepted, daysCompleted, sched, daysScheduled,
        Diff(Some(AsOf), r.held), Diff(Some(AsOf), r.pendingReschedule),
        aged, r.sent.Some?, soc.Some?, r.similarScheduled.Some?, r.referralScheduled.Some?,
        r.accepted.Some?, r.completed.Some?, r.seen.Some?);
      df := df + [row];
    }
  }

  /** Each lagged reporting date is the sent date plus 5, 30 or 90 days. */
  lemma LaggedDates(r: RawReferral)
    ensures Derive(r).lag5.Some? <==> r.sent.Some?
    ensures r.sent.Some? ==> Derive(r).lag5 == Some(r.sent.value + 5)
    ensures r.sent.Some? ==> Derive(r).lag30 == Some(r.sent.value + 30)
    ensures r.sent.Some? ==> Derive(r).lag90 == Some(r.sent.value + 90)
    ensures r.sent.None? ==> Derive(r).lag30.None? && Derive(r).lag90.None?
  {
  }

  /** Days until seen: the seen date, else the check-in date, else the as-of date, minus sent. */
  lemma DaysUntilSeenFallback(r: RawReferral)
    requires r.sent.Some?
    ensures r.seen.Some? ==> Derive(r).daysUntilSeen == Some(r.seen.value - r.sent.value)
    ensures r.seen.None? && r.checkedIn.Some? ==>
      Derive(r).daysUntilSeen == Some(r.checkedIn.value - r.sent.value)
    ensures r.seen.None? && r.checkedIn.None? ==>
      Derive(r).daysUntilSeen == Some(AsOf - r.sent.value)
  {
  }

  /** Days until scheduled: the linked appointment, else a similar appointment, else the as-of date. */
  lemma DaysUntilScheduledFallback(r: RawReferral)
    requires r.sent.Some?
    ensures r.referralScheduled.Some? ==>
      Derive(r).daysUntilScheduled == Some(r.referralScheduled.value - r.sent.value)
    ensures r.referralScheduled.None? && r.similarScheduled.Some? ==>
      Derive(r).daysUntilScheduled == Some(r.similarScheduled.value - r.sent.value)
    ensures r.referralScheduled.None? && r.similarScheduled.None? ==>
      Derive(r).daysUntilScheduled == Some(AsOf - r.sent.value)
    ensures r.completed.Some? ==> Derive(r).daysUntilCompleted == Some(r.completed.value - r.sent.value)
    ensures r.completed.None? ==> Derive(r).daysUntilCompleted == Some(AsOf - r.sent.value)
  {
  }

  /** Without a sent date no day count is known. */
  lemma UnsentHasNoDays(r: RawReferral)
    requires r.sent.None?
    ensures Derive(r).daysUntilSeen.None? && Derive(r).daysUntilAccepted.None?
    ensures Derive(r).daysUntilCompleted.None? && Derive(r).daysUntilScheduled.None?
    ensures !Derive(r).aged && !Derive(r).sentYn
  {
  }

  /** Days on hold and days pending reschedule count back from the as-of date. */
  lemma WaitingDays(r: RawReferral)
    ensures r.held.Some? <==> Derive(r).daysOnHold.Some?
    ensures r.held.Some? ==> Derive(r).daysOnHold.value == AsOf - r.held.value
    ensures r.pendingReschedule.Some? <==> Derive(r).daysPendingReschedule.Some?
    ensures r.pendingReschedule.Some? ==>
      Derive(r).daysPendingReschedule.value == AsOf - r.pendingReschedule.value
  {
  }

  /** Each flag is exactly the presence of its date. */
  lemma FlagsMatchDates(r: RawReferral)
    ensures Derive(r).sentYn <==> r.sent.Some?
    ensures Derive(r).seenYn <==> r.seen.Some? || r.checkedIn.Some?
    ensures Derive(r).patientScheduled <==> r.similarScheduled.Some?
    ensures Derive(r).appointmentLinked <==> r.referralScheduled.Some?
    ensures Derive(r).acceptedYn <==> r.accepted.Some?
    ensures Derive(r).completedYn <==> r.completed.Some?
    ensures Derive(r).seenInCrm <==> r.seen.Some?
  {
  }

  /** The aged flag, both directions. */
  lemma AgedMeaning(r: RawReferral)
    ensures Derive(r).aged <==>
      r.sent.Some? && r.status != "Rejected" && r.status != "Cancelled" &&
      ((r.status != "Closed" && r.status != "Completed") || r.seen.Some? || r.checkedIn.Some?)
  {
  }

  /** An aged referral was sent, so it has a day count to every milestone. */
  lemma AgedHasDays(r: RawReferral)
    requires Derive(r).aged
    ensures Derive(r).sentYn
    ensures Derive(r).daysUntilSeen.Some? && Derive(r).daysUntilScheduled.Some?
    ensures Derive(r).daysUntilAccepted.Some? && Derive(r).daysUntilCompleted.Some?
  {
  }

  // ---- Days until accepted as the extract transformation writes it ----

  /**
   * The accepted-days column as written: the subtraction takes the sent date
   * only on rows whose seen-or-check-in date is missing (the mask left over
   * from the seen-days fallback), so other rows get NaN unless the
   * acceptance date itself is missing.
   */
  function DaysUntilAcceptedAsWritten(r: RawReferral): Option<int> {
    var soc := Coalesce(r.seen, r.checkedIn);
    var first := if soc.None? then Diff(r.accepted, r.sent) else None;
    if r.accepted.None? then Diff(Some(AsOf), r.sent) else first
  }

  /** The two readings agree exactly when the referral has no seen or check-in date, or no acceptance date. */
  lemma AcceptedAsWrittenAgreement(r: RawReferral)
    requires r.sent.Some?
    ensures DaysUntilAcceptedAsWritten(r) == Derive(r).daysUntilAccepted <==>
      r.accepted.None? || (r.seen.None? && r.checkedIn.None?)
  {
  }

  /** A referral sent on day 0, accepted on day 3 and seen on day 10. */
  lemma AcceptedAsWrittenCounterexample()
    ensures var r := RawReferral(Some("R1"), "Cardiology", "Routine", "Completed", None, None,
                                 Some(0), Some(10), None, None, None, None, Some(3), None, None);
      DaysUntilAcceptedAsWritten(r).None? && Derive(r).daysUntilAccepted == Some(3)
  {
  }

  /** The corrected column: the acceptance date minus the sent date, falling back to the as-of date. */
  lemma DaysUntilAcceptedCorrected(r: RawReferral)
    requires r.sent.Some?
    ensures r.accepted.Some? ==> Derive(r).daysUntilAccepted == Some(r.accepted.value - r.sent.value)
    ensures r.accepted.None? ==> Derive(r).daysUntilAccepted == Some(AsOf - r.sent.value)
  {
  }

  // ---- Age categories ----

  datatype AgeCategory = Within7 | Within14 | Within30 | Within60 | Within90 | Over90 | Uncategorized {
    /** The category name shown on the dashboard. */
    function Label(): string {
      match this
      case Within7 => "7d"
      case Within14 => "14d"
      case Within30 => "30d"
      case Within60 => "60d"
      case Within90 => "90d"
      case Over90 => ">90d"
      case Uncategorized => "(none)"
    }

    /** Position in the age order; the missing category sorts last. */
    function Rank(): int {
      match this
      case Within7 => 0
      case Within14 => 1
      case Within30 => 2
      case Within60 => 3
      case Within90 => 4
      case Over90 => 5
      case Uncategorized => 6
    }
  }

  /** The age category names in age order. */
  const AgeLabels: seq<string> := ["7d", "14d", "30d", "60d", "90d", ">90d", "(none)"]

  lemma AgeLabelsDistinct()
    ensures forall i, j :: 0 <= i < j < |AgeLabels| ==> AgeLabels[i] != AgeLabels[j]
  {
  }

  lemma AgeLabelListed(c: AgeCategory)
    ensures c.Label() in AgeLabels
  {
  }

  /** The age category of a day count; a missing (NaN) age has none. */
  function AgeCategoryOf(age: Option<real>): AgeCategory {
    if age.None? then Uncategorized
    else if age.value <= 7.0 then Within7
    else if age.value <= 14.0 then Within14
    else if age.value <= 30.0 then Within30
    else if age.value <= 60.0 then Within60
    else if age.value <= 90.0 then Within90
    else Over90
  }

  /** A day count column as the float column pandas compares against the bands. */
  function AsAge(days: Option<int>): (r: Option<real>)
    ensures r.Some? <==> days.Some?
    ensures r.Some? ==> r.value == days.value as real
  {
    if days.Some? then Some(days.value as real) else None
  }

  /** True when the age lies in the band (lo, hi]; NaN lies in no band. */
  predicate InBand(age: Option<real>, lo: real, hi: Option<real>) {
    age.Some? && lo < age.value && (hi.None? || age.value <= hi.value)
  }

  /** One masked overwrite: rows whose age lies in (lo, hi] get category c. */
  method OverrideBand(cats: seq<AgeCategory>, ages: seq<Option<real>>, lo: real, hi: Option<real>, c: AgeCategory)
    returns (out: seq<AgeCategory>)
    requires |cats| == |ages|
    ensures |out| == |ages|
    ensures forall i :: 0 <= i < |ages| ==> out[i] == (if InBand(ages[i], lo, hi) then c else cats[i])
  {
    out := cats;
    for k := 0 to |ages|
      invariant |out| == |ages|
      invariant forall i :: 0 <= i < k ==> out[i] == (if InBand(ages[i], lo, hi) then c else cats[i])
      invariant forall i :: k <= i < |ages| ==> out[i] == cats[i]
    {
      if InBand(ages[k], lo, hi) {
        out := out[k := c];
      }
    }
  }

  /**
   * Categorizes a column of ages: "7d" or "(none)" first, then each wider
   * band overwrites the rows that fall into it.
   */
  method CalculateAgeCategory(ages: seq<Option<real>>) returns (cats: seq<AgeCategory>)
    ensures |cats| == |ages|
    ensures forall i :: 0 <= i < |ages| ==> cats[i] == AgeCategoryOf(ages[i])
  {
    cats := [];
    for k := 0 to |ages|
      invariant |cats| == k
      invariant forall i :: 0 <= i < k ==>
        cats[i] == if ages[i].Some? && ages[i].value <= 7.0 then Within7 else Uncategorized
    {
      cats := cats + [if ages[k].Some? && ages[k].value <= 7.0 then Within7 else Uncategorized];
    }
    cats := OverrideBand(cats, ages, 7.0, Some(14.0), Within14);
    cats := OverrideBand(cats, ages, 14.0, Some(30.0), Within30);
    cats := OverrideBand(cats, ages, 30.0, Some(60.0), Within60);
    cats := OverrideBand(cats, ages, 60.0, Some(90.0), Within90);
    cats := OverrideBand(cats, ages, 90.0, None, Over90);
  }

  /** Every known age falls into exactly one of the six bands; only NaN is uncategorized. */
  lemma AgeCategoryTotal(age: Option<real>)
    ensures AgeCategoryOf(age) == Uncategorized <==> age.None?
    ensures age.Some? && age.value <= 7.0 <==> AgeCategoryOf(age) == Within7
    ensures InBand(age, 7.0, Some(14.0)) <==> AgeCategoryOf(age) == Within14
    ensures InBand(age, 14.0, Some(30.0)) <==> AgeCategoryOf(age) == Within30
    ensures InBand(age, 30.0, Some(60.0)) <==> AgeCategoryOf(age) == Within60
    ensures InBand(age, 60.0, Some(90.0)) <==> AgeCategoryOf(age) == Within90
    ensures InBand(age, 90.0, None) <==> AgeCategoryOf(age) == Over90
  {
  }

  /** An older referral never lands in a younger category. */
  lemma AgeCategoryMonotone(a: real, b: real)
    requires a <= b
    ensures AgeCategoryOf(Some(a)).Rank() <= AgeCategoryOf(Some(b)).Rank()
  {
  }
}
