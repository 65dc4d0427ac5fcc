/**
 * Grouped aged sums: groupby([Clinic, column]).agg({'Referral Aged Yn': 'sum'})
 * followed by reset_index(), the table shape behind the pending-status
 * distributions and the not-accepted status distribution. Rows come sorted
 * by clinic and then by category; a record whose group column is missing
 * (NaN) belongs to no group.
 */
module Distributions {
  import opened Wrappers
  import opened Referrals
  import opened ProcessWindows
  import Strings

  /** The three columns a grouped aged sum reads from a record. */
  datatype Entry = Entry(clinic: string, key: Option<string>, aged: bool)

  /** One row of a grouped table. */
  datatype GroupRow = GroupRow(clinic: string, category: string, aged: nat)

  /** Where an age category's day count comes from. */
  datatype AgeSource = OnHoldAge | PendingRescheduleAge | AcceptedAge | SeenAge

  function AgeOf(r: Referral, a: AgeSource): Option<int> {
    match a
    case OnHoldAge => r.daysOnHold
    case PendingRescheduleAge => r.daysPendingReschedule
    case AcceptedAge => r.daysUntilAccepted
    case SeenAge => r.daysUntilSeen
  }

  /** The column a distribution groups by after the clinic. */
  datatype GroupBy = ByStatus | ByHoldReason | BySubStatus | ByAge(source: AgeSource)

  /** The group value of a record; None is NaN. */
  function GroupOf(r: Referral, g: GroupBy): Option<string> {
    match g
    case ByStatus => Some(r.raw.status)
    case ByHoldReason => r.raw.holdReason
    case BySubStatus => r.raw.subStatus
    case ByAge(a) => Some(AgeCategoryOf(AsAge(AgeOf(r, a))).Label())
  }

  /** The records as the grouping sees them. */
  function Entries(rs: seq<Referral>, g: GroupBy): (es: seq<Entry>)
    ensures |es| == |rs|
    ensures forall i :: 0 <= i < |rs| ==> es[i] == Entry(rs[i].raw.clinic, GroupOf(rs[i], g), rs[i].aged)
  {
    seq(|rs|, i requires 0 <= i < |rs| => Entry(rs[i].raw.clinic, GroupOf(rs[i], g), rs[i].aged))
  }

  /** The sum of the aged flags. */
  function AgedSum(es: seq<Entry>): (n: nat)
    ensures n <= |es|
  {
    if |es| == 0 then 0 else (if es[0].aged then 1 else 0) + AgedSum(es[1..])
  }

  lemma {:induction false} AgedSumConcat(a: seq<Entry>, b: seq<Entry>)
    ensures AgedSum(a + b) == AgedSum(a) + AgedSum(b)
  {
    if |a| == 0 {
      assert a + b == b;
    } else {
      assert (a + b)[1..] == a[1..] + b;
      assert (a + b)[0] == a[0];
      AgedSumConcat(a[1..], b);
    }
  }

  predicate InGroup(e: Entry, clinic: string, category: string) {
    e.clinic == clinic && e.key == Some(category)
  }

  /** A group of the entries is non-empty exactly when one of the records falls in it. */
  lemma EntriesGroupMeaning(s: seq<Referral>, g: GroupBy, clinic: string, category: string)
    ensures (exists e :: e in Entries(s, g) && InGroup(e, clinic, category)) <==>
      exists r :: r in s && r.raw.clinic == clinic && GroupOf(r, g) == Some(category)
  {
    var es := Entries(s, g);
    if exists e :: e in es && InGroup(e, clinic, category) {
      var e :| e in es && InGroup(e, clinic, category);
      var i :| 0 <= i < |es| && es[i] == e;
      assert s[i] in s;
    }
    if exists r :: r in s && r.raw.clinic == clinic && GroupOf(r, g) == Some(category) {
      var r :| r in s && r.raw.clinic == clinic && GroupOf(r, g) == Some(category);
      var i :| 0 <= i < |s| && s[i] == r;
      assert es[i] in es;
    }
  }

  /** The entries of one (clinic, category) group, in order. */
  function OfGroup(es: seq<Entry>, clinic: string, category: string): (s: seq<Entry>)
    ensures forall e :: e in s <==> e in es && InGroup(e, clinic, category)
  {
    if |es| == 0 then []
    else
      assert es == [es[0]] + es[1..];
      (if InGroup(es[0], clinic, category) then [es[0]] else []) + OfGroup(es[1..], clinic, category)
  }

  /** Every entry outside one (clinic, category) group. */
  function Without(es: seq<Entry>, clinic: string, category: string): (s: seq<Entry>)
    ensures forall e :: e in s <==> e in es && !InGroup(e, clinic, category)
  {
    if |es| == 0 then []
    else
      assert es == [es[0]] + es[1..];
      (if InGroup(es[0], clinic, category) then [] else [es[0]]) + Without(es[1..], clinic, category)
  }

  /** The entries of one clinic that have a group value: the ones its groups cover. */
  function Keyed(es: seq<Entry>, clinic: string): (s: seq<Entry>)
    ensures forall e :: e in s <==> e in es && e.clinic == clinic && e.key.Some?
  {
    if |es| == 0 then []
    else
      assert es == [es[0]] + es[1..];
      (if es[0].clinic == clinic && es[0].key.Some? then [es[0]] else []) + Keyed(es[1..], clinic)
  }

  /** The group values of one clinic's entries, in entry order. */
  function KeysOf(es: seq<Entry>, clinic: string): (ks: seq<string>)
    ensures forall k :: k in ks <==> exists e :: e in es && InGroup(e, clinic, k)
  {
    if |es| == 0 then []
    else
      assert es == [es[0]] + es[1..];
      var rest := KeysOf(es[1..], clinic);
      if es[0].clinic == clinic && es[0].key.Some? then
        assert InGroup(es[0], clinic, es[0].key.value);
        [es[0].key.value] + rest
      else rest
  }

  /** The clinics that have at least one group. */
  function ClinicNamesOf(es: seq<Entry>): (cs: seq<string>)
    ensures forall c :: c in cs <==> exists e :: e in es && e.clinic == c && e.key.Some?
  {
    if |es| == 0 then []
    else
      assert es == [es[0]] + es[1..];
      var rest := ClinicNamesOf(es[1..]);
      if es[0].key.Some? then [es[0].clinic] + rest else rest
  }

  /** The group values of one clinic, ascending: the order of that clinic's rows. */
  function Categories(es: seq<Entry>, clinic: string): (cs: seq<string>)
    ensures Strings.StrictlySorted(cs)
    ensures forall k :: k in cs <==> exists e :: e in es && InGroup(e, clinic, k)
  {
    Strings.SortedUnique(KeysOf(es, clinic))
  }

  /** The rows of one clinic for the listed categories. */
  function ClinicBlock(es: seq<Entry>, clinic: string, cats: seq<string>): (rows: seq<GroupRow>)
    ensures |rows| == |cats|
    ensures forall i :: 0 <= i < |cats| ==> rows[i] == GroupRow(clinic, cats[i], AgedSum(OfGroup(es, clinic, cats[i])))
  {
    if |cats| == 0 then []
    else [GroupRow(clinic, cats[0], AgedSum(OfGroup(es, clinic, cats[0])))] + ClinicBlock(es, clinic, cats[1..])
  }

  /** The blocks of the listed clinics, one after another. */
  function Blocks(es: seq<Entry>, clinics: seq<string>): (rows: seq<GroupRow>)
    ensures forall row :: row in rows <==>
      row.clinic in clinics && row.category in Categories(es, row.clinic) &&
      row.aged == AgedSum(OfGroup(es, row.clinic, row.category))
  {
    if |clinics| == 0 then []
    else
      var b := ClinicBlock(es, clinics[0], Categories(es, clinics[0]));
      forall row: GroupRow | row.clinic == clinics[0] && row.category in Categories(es, clinics[0]) &&
        row.aged == AgedSum(OfGroup(es, row.clinic, row.category))
        ensures row in b
      {
        var i :| 0 <= i < |Categories(es, clinics[0])| && Categories(es, clinics[0])[i] == row.category;
        assert b[i] == row;
      }
      b + Blocks(es, clinics[1..])
  }

  /** groupby([Clinic, column]).agg(sum of aged flags).reset_index(): sorted by clinic, then category. */
  function GroupTable(es: seq<Entry>): seq<GroupRow> {
    Blocks(es, Strings.SortedUnique(ClinicNamesOf(es)))
  }

  /** Every row of the table is a non-empty group with the sum of its aged flags, and every group has a row. */
  lemma GroupTableRows(es: seq<Entry>, row: GroupRow)
    ensures row in GroupTable(es) <==>
      (exists e :: e in es && InGroup(e, row.clinic, row.category)) &&
      row.aged == AgedSum(OfGroup(es, row.clinic, row.category))
  {
  }

  // ---- Lookups ----

  /** The first row of the (clinic, category) group, if any. */
  function FirstGroupRow(rows: seq<GroupRow>, clinic: string, category: string): (r: Option<GroupRow>)
    ensures r.None? <==> forall row :: row in rows ==> !(row.clinic == clinic && row.category == category)
    ensures r.Some? ==> r.value in rows && r.value.clinic == clinic && r.value.category == category
  {
    if |rows| == 0 then None
    else if rows[0].clinic == clinic && rows[0].category == category then Some(rows[0])
    else
      assert rows == [rows[0]] + rows[1..];
      FirstGroupRow(rows[1..], clinic, category)
  }

  /** The count in the first matching row, or 0 when no row matches. */
  function Lookup(rows: seq<GroupRow>, clinic: string, category: string): nat {
    var r := FirstGroupRow(rows, clinic, category);
    if r.Some? then r.value.aged else 0
  }

  lemma {:induction false} EmptyGroup(es: seq<Entry>, clinic: string, category: string)
    requires forall e :: e in es ==> !InGroup(e, clinic, category)
    ensures OfGroup(es, clinic, category) == []
  {
    if |es| > 0 {
      assert es[0] in es;
      EmptyGroup(es[1..], clinic, category);
    }
  }

  lemma {:induction false} EmptyKeys(es: seq<Entry>, clinic: string)
    requires forall e :: e in es ==> !(e.clinic == clinic && e.key.Some?)
    ensures Keyed(es, clinic) == [] && KeysOf(es, clinic) == []
  {
    if |es| > 0 {
      assert es[0] in es;
      EmptyKeys(es[1..], clinic);
    }
  }

  /** No record of the clinic has the category: its group is empty. */
  lemma NoEntriesInGroup(rs: seq<Referral>, g: GroupBy, clinic: string, category: string)
    requires forall r :: r in rs && r.raw.clinic == clinic ==> GroupOf(r, g) != Some(category)
    ensures OfGroup(Entries(rs, g), clinic, category) == []
  {
    var es := Entries(rs, g);
    forall e | e in es ensures !InGroup(e, clinic, category) {
      var i :| 0 <= i < |es| && es[i] == e;
      assert rs[i] in rs;
    }
    EmptyGroup(es, clinic, category);
  }

  /** A lookup in the grouped table is the group's aged sum; the zero default is the empty group's sum. */
  lemma LookupIsGroupSum(es: seq<Entry>, clinic: string, category: string)
    ensures Lookup(GroupTable(es), clinic, category) == AgedSum(OfGroup(es, clinic, category))
  {
    var t := GroupTable(es);
    var r := FirstGroupRow(t, clinic, category);
    if r.None? {
      if e :| e in es && InGroup(e, clinic, category) {
        var row := GroupRow(clinic, category, AgedSum(OfGroup(es, clinic, category)));
        GroupTableRows(es, row);
        assert false;
      }
      EmptyGroup(es, clinic, category);
    }
  }

  /** The rows of one clinic, in table order. */
  function RowsOf(rows: seq<GroupRow>, clinic: string): (s: seq<GroupRow>)
    ensures forall row :: row in s <==> row in rows && row.clinic == clinic
  {
    if |rows| == 0 then []
    else
      assert rows == [rows[0]] + rows[1..];
      (if rows[0].clinic == clinic then [rows[0]] else []) + RowsOf(rows[1..], clinic)
  }

  lemma {:induction false} RowsOfConcat(a: seq<GroupRow>, b: seq<GroupRow>, clinic: string)
    ensures RowsOf(a + b, clinic) == RowsOf(a, clinic) + RowsOf(b, clinic)
  {
    if |a| == 0 {
      assert a + b == b;
    } else {
      assert (a + b)[1..] == a[1..] + b;
      assert (a + b)[0] == a[0];
      RowsOfConcat(a[1..], b, clinic);
      var h := if a[0].clinic == clinic then [a[0]] else [];
      assert RowsOf(a + b, clinic) == h + RowsOf(a[1..] + b, clinic);
      assert RowsOf(a, clinic) == h + RowsOf(a[1..], clinic);
    }
  }

  lemma {:induction false} RowsOfBlock(es: seq<Entry>, c: string, cats: seq<string>, clinic: string)
    ensures RowsOf(ClinicBlock(es, c, cats), clinic) == if c == clinic then ClinicBlock(es, c, cats) else []
  {
    if |cats| > 0 {
      RowsOfBlock(es, c, cats[1..], clinic);
    }
  }

  predicate Distinct(cs: seq<string>) {
    forall i, j :: 0 <= i < j < |cs| ==> cs[i] != cs[j]
  }

  lemma DistinctTail(cs: seq<string>)
    requires Distinct(cs) && |cs| > 0
    ensures Distinct(cs[1..]) && cs[0] !in cs[1..]
  {
    forall k | 0 <= k < |cs[1..]| ensures cs[1..][k] != cs[0] { assert cs[1..][k] == cs[k + 1]; }
  }

  lemma BlocksCons(es: seq<Entry>, clinics: seq<string>)
    requires |clinics| > 0
    ensures Blocks(es, clinics) == ClinicBlock(es, clinics[0], Categories(es, clinics[0])) + Blocks(es, clinics[1..])
  {
  }

  lemma {:induction false} RowsOfBlocks(es: seq<Entry>, clinics: seq<string>, clinic: string)
    requires Distinct(clinics)
    ensures RowsOf(Blocks(es, clinics), clinic) ==
      if clinic in clinics then ClinicBlock(es, clinic, Categories(es, clinic)) else []
  {
    if |clinics| > 0 {
      var c, rest := clinics[0], clinics[1..];
      var b := ClinicBlock(es, c, Categories(es, c));
      BlocksCons(es, clinics);
      DistinctTail(clinics);
      RowsOfConcat(b, Blocks(es, rest), clinic);
      RowsOfBlock(es, c, Categories(es, c), clinic);
      RowsOfBlocks(es, rest, clinic);
      assert clinic in clinics <==> clinic == c || clinic in rest by {
        assert clinics == [c] + rest;
      }
    }
  }

  /** A clinic's rows of the grouped table are its categories in ascending order, each with its group's sum. */
  lemma ClinicRowsOfTable(es: seq<Entry>, clinic: string)
    ensures RowsOf(GroupTable(es), clinic) == ClinicBlock(es, clinic, Categories(es, clinic))
  {
    var cs := Strings.SortedUnique(ClinicNamesOf(es));
    forall i, j | 0 <= i < j < |cs| ensures cs[i] != cs[j] { Strings.StrictlySortedDistinct(cs, i, j); }
    assert Distinct(cs);
    RowsOfBlocks(es, cs, clinic);
    if clinic !in cs {
      assert forall e :: e in es && e.clinic == clinic && e.key.Some? ==> clinic in ClinicNamesOf(es);
      EmptyKeys(es, clinic);
    }
  }

  /** The category column of some rows, in order. */
  function CategoryColumn(rows: seq<GroupRow>): (cs: seq<string>)
    ensures |cs| == |rows|
    ensures forall i :: 0 <= i < |rows| ==> cs[i] == rows[i].category
  {
    seq(|rows|, i requires 0 <= i < |rows| => rows[i].category)
  }

  /** The categories of one clinic's rows, in table order: ascending, distinct, exactly its non-empty groups. */
  function CategoryList(rows: seq<GroupRow>, clinic: string): seq<string> {
    CategoryColumn(RowsOf(rows, clinic))
  }

  lemma CategoryListOfTable(es: seq<Entry>, clinic: string)
    ensures CategoryList(GroupTable(es), clinic) == Categories(es, clinic)
    ensures Strings.StrictlySorted(CategoryList(GroupTable(es), clinic))
    ensures forall k :: k in CategoryList(GroupTable(es), clinic) <==> exists e :: e in es && InGroup(e, clinic, k)
  {
    ClinicRowsOfTable(es, clinic);
  }

  // ---- Totals ----

  /** The total of the counts of some rows. */
  function RowsTotal(rows: seq<GroupRow>): nat {
    if |rows| == 0 then 0 else rows[0].aged + RowsTotal(rows[1..])
  }

  lemma {:induction false} SplitGroup(es: seq<Entry>, clinic: string, k: string)
    ensures AgedSum(Keyed(es, clinic)) ==
      AgedSum(OfGroup(es, clinic, k)) + AgedSum(Keyed(Without(es, clinic, k), clinic))
  {
    if |es| > 0 {
      var x, t := es[0], es[1..];
      SplitGroup(t, clinic, k);
      AgedSumConcat(if x.clinic == clinic && x.key.Some? then [x] else [], Keyed(t, clinic));
      AgedSumConcat(if InGroup(x, clinic, k) then [x] else [], OfGroup(t, clinic, k));
      if InGroup(x, clinic, k) {
        assert Without(es, clinic, k) == Without(t, clinic, k);
      } else {
        assert Without(es, clinic, k) == [x] + Without(t, clinic, k);
        assert ([x] + Without(t, clinic, k))[1..] == Without(t, clinic, k);
        AgedSumConcat(if x.clinic == clinic && x.key.Some? then [x] else [], Keyed(Without(t, clinic, k), clinic));
      }
    }
  }

  lemma {:induction false} OfGroupWithout(es: seq<Entry>, clinic: string, k: string, k2: string)
    requires k2 != k
    ensures OfGroup(Without(es, clinic, k), clinic, k2) == OfGroup(es, clinic, k2)
  {
    if |es| > 0 {
      var x, t := es[0], es[1..];
      OfGroupWithout(t, clinic, k, k2);
      if InGroup(x, clinic, k) {
        assert Without(es, clinic, k) == Without(t, clinic, k);
      } else {
        assert Without(es, clinic, k) == [x] + Without(t, clinic, k);
        assert ([x] + Without(t, clinic, k))[1..] == Without(t, clinic, k);
      }
    }
  }

  lemma {:induction false} BlockWithout(es: seq<Entry>, clinic: string, k: string, cats: seq<string>)
    requires k !in cats
    ensures ClinicBlock(Without(es, clinic, k), clinic, cats) == ClinicBlock(es, clinic, cats)
  {
    if |cats| > 0 {
      OfGroupWithout(es, clinic, k, cats[0]);
      BlockWithout(es, clinic, k, cats[1..]);
    }
  }

  /** Over distinct categories covering all of a clinic's groups, the rows add up to the clinic's keyed aged sum. */
  lemma {:induction false} BlockTotal(es: seq<Entry>, clinic: string, cats: seq<string>)
    requires forall i, j :: 0 <= i < j < |cats| ==> cats[i] != cats[j]
    requires forall e :: e in es && e.clinic == clinic && e.key.Some? ==> e.key.value in cats
    ensures RowsTotal(ClinicBlock(es, clinic, cats)) == AgedSum(Keyed(es, clinic))
    decreases |cats|
  {
    if |cats| == 0 {
      EmptyKeys(es, clinic);
    } else {
      var k := cats[0];
      var rest := Without(es, clinic, k);
      assert k !in cats[1..] by {
        forall j | 0 <= j < |cats[1..]| ensures cats[1..][j] != k { assert cats[1..][j] == cats[j + 1]; }
      }
      forall e | e in rest && e.clinic == clinic && e.key.Some? ensures e.key.value in cats[1..] {
        assert e.key.value in cats && e.key.value != k;
        assert cats == [k] + cats[1..];
      }
      BlockTotal(rest, clinic, cats[1..]);
      BlockWithout(es, clinic, k, cats[1..]);
      SplitGroup(es, clinic, k);
      assert ClinicBlock(es, clinic, cats)[1..] == ClinicBlock(es, clinic, cats[1..]);
    }
  }

  /** A clinic's rows add up to the aged sum of its records that have a group value. */
  lemma ClinicRowsTotal(es: seq<Entry>, clinic: string)
    ensures RowsTotal(RowsOf(GroupTable(es), clinic)) == AgedSum(Keyed(es, clinic))
  {
    ClinicRowsOfTable(es, clinic);
    var cats := Categories(es, clinic);
    forall i, j | 0 <= i < j < |cats| ensures cats[i] != cats[j] { Strings.StrictlySortedDistinct(cats, i, j); }
    forall e | e in es && e.clinic == clinic && e.key.Some? ensures e.key.value in cats {
      assert InGroup(e, clinic, e.key.value);
    }
    BlockTotal(es, clinic, cats);
  }

  // ---- Grouping the same records by two columns ----

  /** The records of one clinic, counted through the grouping column g. */
  lemma {:induction false} KeyedEntriesBelow(rs: seq<Referral>, g: GroupBy, h: GroupBy, clinic: string)
    requires forall r :: r in rs ==> GroupOf(r, h).Some?
    ensures AgedSum(Keyed(Entries(rs, g), clinic)) <= AgedSum(Keyed(Entries(rs, h), clinic))
    ensures (forall r :: r in rs ==> GroupOf(r, g).Some?) ==>
      AgedSum(Keyed(Entries(rs, g), clinic)) == AgedSum(Keyed(Entries(rs, h), clinic))
  {
    if |rs| > 0 {
      var eg, eh := Entries(rs, g), Entries(rs, h);
      assert Entries(rs[1..], g) == eg[1..];
      assert Entries(rs[1..], h) == eh[1..];
      assert rs[0] in rs;
      KeyedEntriesBelow(rs[1..], g, h, clinic);
      AgedSumConcat(if eg[0].clinic == clinic && eg[0].key.Some? then [eg[0]] else [], Keyed(eg[1..], clinic));
      AgedSumConcat(if eh[0].clinic == clinic && eh[0].key.Some? then [eh[0]] else [], Keyed(eh[1..], clinic));
    }
  }

  /** Grouped by age category every record has a group, so a clinic's age rows add up to its aged referrals. */
  lemma {:induction false} AgeEntriesTotal(rs: seq<Referral>, a: AgeSource, clinic: string)
    ensures AgedSum(Keyed(Entries(rs, ByAge(a)), clinic)) == SumAged(OfClinic(rs, clinic))
  {
    if |rs| > 0 {
      var es := Entries(rs, ByAge(a));
      var r := rs[0];
      assert es[0].key.Some? && es[0].clinic == r.raw.clinic && es[0].aged == r.aged by {
        AgeGroupPresent(r, a);
      }
      assert Entries(rs[1..], ByAge(a)) == es[1..];
      AgeEntriesTotal(rs[1..], a, clinic);
      var head := if r.raw.clinic == clinic then [es[0]] else [];
      assert Keyed(es, clinic) == head + Keyed(es[1..], clinic);
      AgedSumConcat(head, Keyed(es[1..], clinic));
      if r.raw.clinic == clinic {
        assert OfClinic(rs, clinic) == [r] + OfClinic(rs[1..], clinic);
        assert ([r] + OfClinic(rs[1..], clinic))[1..] == OfClinic(rs[1..], clinic);
      } else {
        assert OfClinic(rs, clinic) == OfClinic(rs[1..], clinic);
      }
    }
  }

  /** Every record has an age category. */
  lemma AgeGroupPresent(r: Referral, a: AgeSource)
    ensures GroupOf(r, ByAge(a)).Some?
  {
  }

  /** Whatever the grouping, a clinic's keyed entries count no more than its aged referrals, and all of them when every record has a group. */
  lemma KeyedBelowAged(rs: seq<Referral>, g: GroupBy, a: AgeSource, clinic: string)
    ensures AgedSum(Keyed(Entries(rs, g), clinic)) <= SumAged(OfClinic(rs, clinic))
    ensures (forall r :: r in rs ==> GroupOf(r, g).Some?) ==>
      AgedSum(Keyed(Entries(rs, g), clinic)) == SumAged(OfClinic(rs, clinic))
  {
    assert forall r :: r in rs ==> GroupOf(r, ByAge(a)).Some?;
    KeyedEntriesBelow(rs, g, ByAge(a), clinic);
    AgeEntriesTotal(rs, a, clinic);
  }
}
