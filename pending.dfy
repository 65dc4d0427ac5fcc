/**
 * The pending-status distributions: referrals currently On Hold, Pending
 * Reschedule, Pending Acceptance or Accepted, counted (as sums of the aged
 * flag) by clinic and age category and by clinic and hold reason or queue
 * sub-status, and the lookups the pending-referrals dashboard calls.
 */
module PendingTime {
  import opened Wrappers
  import opened Referrals
  import opened ProcessWindows
  import opened Distributions
  import Strings

  /** The four statuses with a distribution of their own. */
  datatype PendingStatus = OnHold | PendingReschedule | PendingAcceptance | AcceptedStatus {
    /** The Referral Status value the distribution keeps. */
    function Name(): string {
      match this
      case OnHold => "On Hold"
      case PendingReschedule => "Pending Reschedule"
      case PendingAcceptance => "Pending Acceptance"
      case AcceptedStatus => "Accepted"
    }

    /** The day count the age categories are taken from. */
    function Age(): AgeSource {
      match this
      case OnHold => OnHoldAge
      case PendingReschedule => PendingRescheduleAge
      case PendingAcceptance => AcceptedAge
      case AcceptedStatus => SeenAge
    }

    /** The second distribution's column: the hold reason, or the queue sub-status. */
    function Reasons(): GroupBy {
      if this == OnHold then ByHoldReason else BySubStatus
    }

    /** The display shortening applied to that column's values. */
    function Pattern(): string {
      if this == OnHold then "Coordinating" else "Call Patient to Schedule Appointment"
    }

    function Replacement(): string {
      if this == OnHold then "Coord." else "Call Patient to Schedule"
    }
  }

  /** The referrals currently in one status, in table order. */
  function OfStatus(rs: seq<Referral>, status: string): (s: seq<Referral>)
    ensures |s| <= |rs|
    ensures forall r :: r in s <==> r in rs && r.raw.status == status
  {
    if |rs| == 0 then []
    else
      assert rs == [rs[0]] + rs[1..];
      (if rs[0].raw.status == status then [rs[0]] else []) + OfStatus(rs[1..], status)
  }

  /** The day counts the categories are computed from, as the float column pandas compares. */
  function AgeColumn(rs: seq<Referral>, a: AgeSource): (ages: seq<Option<real>>)
    ensures |ages| == |rs|
    ensures forall i :: 0 <= i < |rs| ==> ages[i] == AsAge(AgeOf(rs[i], a))
  {
    seq(|rs|, i requires 0 <= i < |rs| => AsAge(AgeOf(rs[i], a)))
  }

  /** The age distribution of a status: aged sums by clinic and age category. */
  function StatusAges(rs: seq<Referral>, p: PendingStatus): seq<GroupRow> {
    GroupTable(Entries(OfStatus(rs, p.Name()), ByAge(p.Age())))
  }

  /** The reason (or sub-status) distribution of a status. */
  function StatusReasons(rs: seq<Referral>, p: PendingStatus): seq<GroupRow> {
    GroupTable(Entries(OfStatus(rs, p.Name()), p.Reasons()))
  }

  /**
   * Builds the two distributions of one status: the status's referrals are
   * copied out, given an age category column, and grouped twice.
   */
  method CalculateStatusMeasures(rs: seq<Referral>, p: PendingStatus) returns (ages: seq<GroupRow>, reasons: seq<GroupRow>)
    ensures ages == StatusAges(rs, p)
    ensures reasons == StatusReasons(rs, p)
  {
    var df := OfStatus(rs, p.Name());
    var cats := CalculateAgeCategory(AgeColumn(df, p.Age()));
    var es := seq(|df|, i requires 0 <= i < |df| => Entry(df[i].raw.clinic, Some(cats[i].Label()), df[i].aged));
    assert es == Entries(df, ByAge(p.Age()));
    ages := GroupTable(es);
    reasons := GroupTable(Entries(df, p.Reasons()));
  }

  /** The value column with the display shortening applied (str.replace). */
  function Relabel(rows: seq<GroupRow>, pat: string, rep: string): (out: seq<GroupRow>)
    requires |pat| > 0
    ensures |out| == |rows|
    ensures forall i :: 0 <= i < |rows| ==>
      out[i] == rows[i].(category := Strings.ReplaceAll(rows[i].category, pat, rep))
  {
    seq(|rows|, i requires 0 <= i < |rows| => rows[i].(category := Strings.ReplaceAll(rows[i].category, pat, rep)))
  }

  /** The count functions the two generic getters can be pointed at, by name. */
  function CountsFunction(name: string): Option<PendingStatus> {
    if name == "get_counts_by_on_hold_reason" then Some(OnHold)
    else if name == "get_counts_by_pending_reschedule_sub_status" then Some(PendingReschedule)
    else if name == "get_counts_by_pending_acceptance_sub_status" then Some(PendingAcceptance)
    else if name == "get_counts_by_accepted_referral_sub_status" then Some(AcceptedStatus)
    else None
  }

  function AgeCountFunction(name: string): Option<PendingStatus> {
    if name == "get_on_hold_age_by_category" then Some(OnHold)
    else if name == "get_pending_reschedule_age_by_category" then Some(PendingReschedule)
    else if name == "get_pending_acceptance_age_by_category" then Some(PendingAcceptance)
    else if name == "get_accepted_referral_age_by_category" then Some(AcceptedStatus)
    else None
  }

  /** The eight distributions, computed once from the master table. */
  class PendingStore {
    var onHoldAges: seq<GroupRow>
    var onHoldReasons: seq<GroupRow>
    var rescheduleAges: seq<GroupRow>
    var rescheduleStatus: seq<GroupRow>
    var acceptanceAges: seq<GroupRow>
    var acceptanceStatus: seq<GroupRow>
    var acceptedAges: seq<GroupRow>
    var acceptedStatus: seq<GroupRow>

    /** The store holds the distributions of these referrals. */
    predicate Built(rs: seq<Referral>)
      reads this
    {
      onHoldAges == StatusAges(rs, OnHold) && onHoldReasons == StatusReasons(rs, OnHold) &&
      rescheduleAges == StatusAges(rs, PendingReschedule) && rescheduleStatus == StatusReasons(rs, PendingReschedule) &&
      acceptanceAges == StatusAges(rs, PendingAcceptance) && acceptanceStatus == StatusReasons(rs, PendingAcceptance) &&
      acceptedAges == StatusAges(rs, AcceptedStatus) && acceptedStatus == StatusReasons(rs, AcceptedStatus)
    }

    constructor(rs: seq<Referral>)
      ensures Built(rs)
    {
      var a1, r1 := CalculateStatusMeasures(rs, OnHold);
      var a2, r2 := CalculateStatusMeasures(rs, PendingReschedule);
      var a3, r3 := CalculateStatusMeasures(rs, PendingAcceptance);
      var a4, r4 := CalculateStatusMeasures(rs, AcceptedStatus);
      onHoldAges, onHoldReasons := a1, r1;
      rescheduleAges, rescheduleStatus := a2, r2;
      acceptanceAges, acceptanceStatus := a3, r3;
      acceptedAges, acceptedStatus := a4, r4;
    }

    function AgesOf(p: PendingStatus): seq<GroupRow>
      reads this
    {
      match p
      case OnHold => onHoldAges
      case PendingReschedule => rescheduleAges
      case PendingAcceptance => acceptanceAges
      case AcceptedStatus => acceptedAges
    }

    function ReasonsOf(p: PendingStatus): seq<GroupRow>
      reads this
    {
      match p
      case OnHold => onHoldReasons
      case PendingReschedule => rescheduleStatus
      case PendingAcceptance => acceptanceStatus
      case AcceptedStatus => acceptedStatus
    }

    /** get_*_age_by_category: the count of the first (clinic, category) row, or 0. */
    function GetAgeByCategory(p: PendingStatus, clinic: string, category: string): (n: nat)
      reads this
      ensures FirstGroupRow(AgesOf(p), clinic, category).None? ==> n == 0
      ensures FirstGroupRow(AgesOf(p), clinic, category).Some? ==>
        n == FirstGroupRow(AgesOf(p), clinic, category).value.aged
    {
      Lookup(AgesOf(p), clinic, category)
    }

    /** get_counts_by_* as the older module returns them: the clinic's rows, values unchanged. */
    function GetCountsByReasonRaw(p: PendingStatus, clinic: string): (rows: seq<GroupRow>)
      reads this
      ensures forall row :: row in rows <==> row in ReasonsOf(p) && row.clinic == clinic
    {
      RowsOf(ReasonsOf(p), clinic)
    }

    /** get_counts_by_*: the clinic's rows, with the long reason or sub-status names shortened. */
    function GetCountsByReason(p: PendingStatus, clinic: string): (rows: seq<GroupRow>)
      reads this
      ensures |rows| == |GetCountsByReasonRaw(p, clinic)|
      ensures forall i :: 0 <= i < |rows| ==>
        rows[i].clinic == clinic && rows[i].aged == GetCountsByReasonRaw(p, clinic)[i].aged
      ensures forall i :: 0 <= i < |rows| ==>
        rows[i].category == Strings.ReplaceAll(GetCountsByReasonRaw(p, clinic)[i].category, p.Pattern(), p.Replacement())
      ensures RowsTotal(rows) == RowsTotal(GetCountsByReasonRaw(p, clinic))
    {
      DisplayedReasons(ReasonsOf(p), p, clinic);
      Relabel(RowsOf(ReasonsOf(p), clinic), p.Pattern(), p.Replacement())
    }

    /** get_*_list: the clinic's reasons or sub-statuses in table order. */
    function GetReasonList(p: PendingStatus, clinic: string): (reasons: seq<string>)
      reads this
      ensures |reasons| == |GetCountsByReasonRaw(p, clinic)|
      ensures forall i :: 0 <= i < |reasons| ==> reasons[i] == GetCountsByReasonRaw(p, clinic)[i].category
    {
      CategoryList(ReasonsOf(p), clinic)
    }

    /** get_counts_by_category: the named count function's rows; an unknown name raises (None). */
    function GetCountsByCategory(clinic: string, countFunction: string): (r: Option<seq<GroupRow>>)
      reads this
      ensures r.Some? <==> CountsFunction(countFunction).Some?
      ensures r.Some? ==> r.value == GetCountsByReason(CountsFunction(countFunction).value, clinic)
    {
      var p := CountsFunction(countFunction);
      if p.Some? then Some(GetCountsByReason(p.value, clinic)) else None
    }

    /** get_count_by_age_category: the named age lookup; an unknown name raises (None). */
    function GetCountByAgeCategory(clinic: string, countFunction: string, category: string): (r: Option<nat>)
      reads this
      ensures r.Some? <==> AgeCountFunction(countFunction).Some?
      ensures r.Some? ==> r.value == GetAgeByCategory(AgeCountFunction(countFunction).value, clinic, category)
    {
      var p := AgeCountFunction(countFunction);
      if p.Some? then Some(GetAgeByCategory(p.value, clinic, category)) else None
    }
  }

  // ---- Properties ----

  /** The store's tables are the distributions of its referrals. */
  lemma StoredTables(store: PendingStore, rs: seq<Referral>, p: PendingStatus)
    requires store.Built(rs)
    ensures store.AgesOf(p) == StatusAges(rs, p)
    ensures store.ReasonsOf(p) == StatusReasons(rs, p)
  {
  }

  /**
   * What the getters of a store built from some referrals return: the age
   * count is the aged sum of the status's referrals of that clinic and age
   * category (0 for none), the clinic's seven age counts add up to its aged
   * referrals in the status, the reason list is its distinct reasons in
   * ascending order, and the displayed reason rows add up to its aged
   * referrals that have a reason.
   */
  lemma StoreGetters(store: PendingStore, rs: seq<Referral>, p: PendingStatus, clinic: string, category: string)
    requires store.Built(rs)
    ensures store.GetAgeByCategory(p, clinic, category) ==
      AgedSum(OfGroup(Entries(OfStatus(rs, p.Name()), ByAge(p.Age())), clinic, category))
    ensures (forall r :: r in rs && r.raw.status == p.Name() && r.raw.clinic == clinic ==>
      AgeCategoryOf(AsAge(AgeOf(r, p.Age()))).Label() != category) ==>
      store.GetAgeByCategory(p, clinic, category) == 0
    ensures LookupsOver(store.AgesOf(p), clinic, AgeLabels) == SumAged(OfClinic(OfStatus(rs, p.Name()), clinic))
    ensures Strings.StrictlySorted(store.GetReasonList(p, clinic))
    ensures forall k :: k in store.GetReasonList(p, clinic) <==>
      exists r :: r in rs && r.raw.status == p.Name() && r.raw.clinic == clinic && GroupOf(r, p.Reasons()) == Some(k)
    ensures RowsTotal(store.GetCountsByReason(p, clinic)) ==
      AgedSum(Keyed(Entries(OfStatus(rs, p.Name()), p.Reasons()), clinic))
  {
    StoredTables(store, rs, p);
    AgeByCategoryMeaning(rs, p, clinic, category);
    AgeCountsTotal(rs, p, clinic);
    ReasonListMeaning(rs, p, clinic);
    ReasonCountsTotal(rs, p, clinic);
  }

  /** The age lookup is the aged sum of the status's referrals of that clinic in that age category, 0 for none. */
  lemma AgeByCategoryMeaning(rs: seq<Referral>, p: PendingStatus, clinic: string, category: string)
    ensures Lookup(StatusAges(rs, p), clinic, category) ==
      AgedSum(OfGroup(Entries(OfStatus(rs, p.Name()), ByAge(p.Age())), clinic, category))
    ensures (forall r :: r in rs && r.raw.status == p.Name() && r.raw.clinic == clinic ==>
      AgeCategoryOf(AsAge(AgeOf(r, p.Age()))).Label() != category) ==>
      Lookup(StatusAges(rs, p), clinic, category) == 0
  {
    var s := OfStatus(rs, p.Name());
    LookupIsGroupSum(Entries(s, ByAge(p.Age())), clinic, category);
    if forall r :: r in rs && r.raw.status == p.Name() && r.raw.clinic == clinic ==>
      AgeCategoryOf(AsAge(AgeOf(r, p.Age()))).Label() != category {
      NoEntriesInGroup(s, ByAge(p.Age()), clinic, category);
    }
  }

  /** The sum of a table's lookups over some categories. */
  function LookupsOver(rows: seq<GroupRow>, clinic: string, cats: seq<string>): nat {
    if |cats| == 0 then 0 else Lookup(rows, clinic, cats[0]) + LookupsOver(rows, clinic, cats[1..])
  }

  lemma {:induction false} LookupsOverBlock(es: seq<Entry>, clinic: string, cats: seq<string>)
    ensures LookupsOver(GroupTable(es), clinic, cats) == RowsTotal(ClinicBlock(es, clinic, cats))
  {
    if |cats| > 0 {
      LookupIsGroupSum(es, clinic, cats[0]);
      LookupsOverBlock(es, clinic, cats[1..]);
      assert ClinicBlock(es, clinic, cats)[1..] == ClinicBlock(es, clinic, cats[1..]);
    }
  }

  /** The seven age counts of a clinic add up to its aged referrals in that status. */
  lemma AgeCountsTotal(rs: seq<Referral>, p: PendingStatus, clinic: string)
    ensures LookupsOver(StatusAges(rs, p), clinic, AgeLabels) == SumAged(OfClinic(OfStatus(rs, p.Name()), clinic))
  {
    var s := OfStatus(rs, p.Name());
    var es := Entries(s, ByAge(p.Age()));
    LookupsOverBlock(es, clinic, AgeLabels);
    AgeLabelsDistinct();
    forall e | e in es && e.clinic == clinic && e.key.Some? ensures e.key.value in AgeLabels {
      var i :| 0 <= i < |es| && es[i] == e;
      AgeLabelListed(AgeCategoryOf(AsAge(AgeOf(s[i], p.Age()))));
    }
    BlockTotal(es, clinic, AgeLabels);
    AgeEntriesTotal(s, p.Age(), clinic);
  }

  /** The reason rows of a clinic add up to its aged referrals in that status that have a reason. */
  lemma ReasonCountsTotal(rs: seq<Referral>, p: PendingStatus, clinic: string)
    ensures RowsTotal(RowsOf(StatusReasons(rs, p), clinic)) ==
      AgedSum(Keyed(Entries(OfStatus(rs, p.Name()), p.Reasons()), clinic))
  {
    ClinicRowsTotal(Entries(OfStatus(rs, p.Name()), p.Reasons()), clinic);
  }

  /**
   * The reason rows and the age rows of a clinic count the same referrals:
   * the reasons never add up to more than the seven age counts, and to as
   * much when no reason is missing.
   */
  lemma ReasonsWithinAges(rs: seq<Referral>, p: PendingStatus, clinic: string)
    ensures RowsTotal(RowsOf(StatusReasons(rs, p), clinic)) <= LookupsOver(StatusAges(rs, p), clinic, AgeLabels)
    ensures (forall r :: r in OfStatus(rs, p.Name()) ==> GroupOf(r, p.Reasons()).Some?) ==>
      RowsTotal(RowsOf(StatusReasons(rs, p), clinic)) == LookupsOver(StatusAges(rs, p), clinic, AgeLabels)
  {
    var s := OfStatus(rs, p.Name());
    var keyed := AgedSum(Keyed(Entries(s, p.Reasons()), clinic));
    assert RowsTotal(RowsOf(StatusReasons(rs, p), clinic)) == keyed by {
      ReasonCountsTotal(rs, p, clinic);
    }
    assert LookupsOver(StatusAges(rs, p), clinic, AgeLabels) == SumAged(OfClinic(s, clinic)) by {
      AgeCountsTotal(rs, p, clinic);
    }
    KeyedBelowAged(s, p.Reasons(), p.Age(), clinic);
  }

  /** The reason list is the clinic's distinct reasons, ascending, and nothing else. */
  lemma ReasonListMeaning(rs: seq<Referral>, p: PendingStatus, clinic: string)
    ensures Strings.StrictlySorted(CategoryList(StatusReasons(rs, p), clinic))
    ensures forall k :: k in CategoryList(StatusReasons(rs, p), clinic) <==>
      exists r :: r in rs && r.raw.status == p.Name() && r.raw.clinic == clinic && GroupOf(r, p.Reasons()) == Some(k)
  {
    var s := OfStatus(rs, p.Name());
    var es := Entries(s, p.Reasons());
    CategoryListOfTable(es, clinic);
    forall k ensures (exists e :: e in es && InGroup(e, clinic, k)) <==>
      exists r :: r in rs && r.raw.status == p.Name() && r.raw.clinic == clinic && GroupOf(r, p.Reasons()) == Some(k)
    {
      ReasonGroupMeaning(rs, p, clinic, k);
    }
  }

  /** A reason group of the clinic is non-empty exactly when a referral of the status has that reason. */
  lemma ReasonGroupMeaning(rs: seq<Referral>, p: PendingStatus, clinic: string, k: string)
    ensures (exists e :: e in Entries(OfStatus(rs, p.Name()), p.Reasons()) && InGroup(e, clinic, k)) <==>
      exists r :: r in rs && r.raw.status == p.Name() && r.raw.clinic == clinic && GroupOf(r, p.Reasons()) == Some(k)
  {
    EntriesGroupMeaning(OfStatus(rs, p.Name()), p.Reasons(), clinic, k);
  }

  /** The displayed rows keep each row's clinic, count and position; only the value column is shortened. */
  lemma DisplayedReasons(rows: seq<GroupRow>, p: PendingStatus, clinic: string)
    ensures |Relabel(RowsOf(rows, clinic), p.Pattern(), p.Replacement())| == |RowsOf(rows, clinic)|
    ensures forall i :: 0 <= i < |RowsOf(rows, clinic)| ==>
      Relabel(RowsOf(rows, clinic), p.Pattern(), p.Replacement())[i].clinic == clinic &&
      Relabel(RowsOf(rows, clinic), p.Pattern(), p.Replacement())[i].aged == RowsOf(rows, clinic)[i].aged
    ensures RowsTotal(Relabel(RowsOf(rows, clinic), p.Pattern(), p.Replacement())) == RowsTotal(RowsOf(rows, clinic))
  {
    var raw := RowsOf(rows, clinic);
    forall i | 0 <= i < |raw| ensures raw[i].clinic == clinic { assert raw[i] in raw; }
    RelabelTotal(raw, p.Pattern(), p.Replacement());
  }

  lemma {:induction false} RelabelTotal(rows: seq<GroupRow>, pat: string, rep: string)
    requires |pat| > 0
    ensures RowsTotal(Relabel(rows, pat, rep)) == RowsTotal(rows)
  {
    if |rows| > 0 {
      RelabelTotal(rows[1..], pat, rep);
      assert Relabel(rows, pat, rep)[1..] == Relabel(rows[1..], pat, rep);
    }
  }

  /** A value without the long name is shown as it is; the long name itself is shown shortened. */
  lemma DisplayShortening(p: PendingStatus, value: string)
    ensures !Strings.Contains(value, p.Pattern()) ==> Strings.ReplaceAll(value, p.Pattern(), p.Replacement()) == value
    ensures Strings.ReplaceAll(p.Pattern(), p.Pattern(), p.Replacement()) == p.Replacement()
  {
    if !Strings.Contains(value, p.Pattern()) {
      Strings.ReplaceAllAbsent(value, p.Pattern(), p.Replacement());
    }
    Strings.ReplaceAllWhole(p.Pattern(), p.Replacement());
  }
}
