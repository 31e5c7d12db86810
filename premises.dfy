/**
 * The premise lists an agent draws from its preferences for one item: the criteria
 * rated at least GOOD (supporting) and the others (attacking), each sorted by rating,
 * best first, with a stable sort.
 */
module Premises {
  import opened Values
  import opened Items
  import opened CriterionNames
  import opened Preferences
  import opened Sorting

  /** A premise's contents: a criterion and the item's rating on it. */
  type Couple = (CriterionName, Value)

  /** The sort key `cv.value.value`. */
  function GradeKey(p: Couple): int {
    p.1.Ord()
  }

  /** `item` has a rating on every ranked criterion (otherwise the source dereferences None). */
  predicate RatesAll(t: Table, item: Item) {
    forall c :: c in t.ranking ==> Rated(t, item, c)
  }

  /** The item's rating on each of `cs`, in the order of `cs`. */
  function RatedCouples(t: Table, item: Item, cs: seq<CriterionName>): (r: seq<Couple>)
    requires forall c :: c in cs ==> Rated(t, item, c)
    ensures |r| == |cs|
    ensures forall i :: 0 <= i < |cs| ==> r[i] == (cs[i], Grade(t, item, cs[i]))
  {
    if cs == [] then [] else [(cs[0], Grade(t, item, cs[0]))] + RatedCouples(t, item, cs[1..])
  }

  /** `list_supporting_proposal`: ranked criteria rated at least GOOD, best rated first. */
  function Supporting(t: Table, item: Item): seq<Couple>
    requires RatesAll(t, item)
  {
    SortDesc(KeyAtLeast(RatedCouples(t, item, t.ranking), GradeKey, Good.Ord()), GradeKey)
  }

  /** `list_attacking_proposal`: ranked criteria rated below GOOD, best rated first. */
  function Attacking(t: Table, item: Item): seq<Couple>
    requires RatesAll(t, item)
  {
    SortDesc(KeyBelow(RatedCouples(t, item, t.ranking), GradeKey, Good.Ord()), GradeKey)
  }

  /** The criteria rated exactly `v`, in ranking order. */
  function RatedAt(t: Table, item: Item, v: Value): seq<Couple>
    requires RatesAll(t, item)
  {
    WithKey(RatedCouples(t, item, t.ranking), GradeKey, v.Ord())
  }

  /** The grades left in each filtered list. */
  lemma FilteredKeys(rs: seq<Couple>)
    ensures forall i :: 0 <= i < |KeyAtLeast(rs, GradeKey, 3)| ==> 3 <= GradeKey(KeyAtLeast(rs, GradeKey, 3)[i]) <= 4
    ensures forall i :: 0 <= i < |KeyBelow(rs, GradeKey, 3)| ==> 0 <= GradeKey(KeyBelow(rs, GradeKey, 3)[i]) <= 2
  {
    var kept, dropped := KeyAtLeast(rs, GradeKey, 3), KeyBelow(rs, GradeKey, 3);
    FiltersPartition(rs, GradeKey, 3);
    forall i | 0 <= i < |kept| ensures 3 <= GradeKey(kept[i]) {
      assert kept[i] in kept;
    }
    forall i | 0 <= i < |dropped| ensures GradeKey(dropped[i]) <= 2 {
      assert dropped[i] in dropped;
    }
  }

  /** Sorting the GOOD-or-better couples groups them by grade, best grade first. */
  lemma {:induction false} SortKeptByGrade(rs: seq<Couple>)
    ensures SortDesc(KeyAtLeast(rs, GradeKey, 3), GradeKey)
            == WithKey(rs, GradeKey, 4) + WithKey(rs, GradeKey, 3)
  {
    var kept := KeyAtLeast(rs, GradeKey, 3);
    FilteredKeys(rs);
    SortDescIsBucketed(kept, GradeKey, 4, 3);
    WithKeyOfFilters(rs, GradeKey, 3, 4);
    WithKeyOfFilters(rs, GradeKey, 3, 3);
    assert Bucketed(kept, GradeKey, 3, 3) == WithKey(kept, GradeKey, 3) + Bucketed(kept, GradeKey, 2, 3);
    assert Bucketed(kept, GradeKey, 4, 3) == WithKey(kept, GradeKey, 4) + Bucketed(kept, GradeKey, 3, 3);
  }

  /** Sorting the couples below GOOD groups them by grade, best grade first. */
  lemma {:induction false} SortDroppedByGrade(rs: seq<Couple>)
    ensures SortDesc(KeyBelow(rs, GradeKey, 3), GradeKey)
            == WithKey(rs, GradeKey, 2) + WithKey(rs, GradeKey, 1) + WithKey(rs, GradeKey, 0)
  {
    var dropped := KeyBelow(rs, GradeKey, 3);
    FilteredKeys(rs);
    SortDescIsBucketed(dropped, GradeKey, 2, 0);
    WithKeyOfFilters(rs, GradeKey, 3, 2);
    WithKeyOfFilters(rs, GradeKey, 3, 1);
    WithKeyOfFilters(rs, GradeKey, 3, 0);
    assert Bucketed(dropped, GradeKey, 0, 0) == WithKey(dropped, GradeKey, 0) + Bucketed(dropped, GradeKey, -1, 0);
    assert Bucketed(dropped, GradeKey, 1, 0) == WithKey(dropped, GradeKey, 1) + Bucketed(dropped, GradeKey, 0, 0);
    assert Bucketed(dropped, GradeKey, 2, 0) == WithKey(dropped, GradeKey, 2) + Bucketed(dropped, GradeKey, 1, 0);
  }

  /**
   * The supporting list is the VERY_GOOD criteria and then the GOOD ones, each group in
   * ranking order (the stable sort keeps ties in ranking order).
   */
  lemma SupportingByGrade(t: Table, item: Item)
    requires RatesAll(t, item)
    ensures Supporting(t, item) == RatedAt(t, item, VeryGood) + RatedAt(t, item, Good)
  {
    var rs := RatedCouples(t, item, t.ranking);
    assert Good.Ord() == 3 && VeryGood.Ord() == 4;
    assert Supporting(t, item) == SortDesc(KeyAtLeast(rs, GradeKey, 3), GradeKey);
    assert RatedAt(t, item, VeryGood) == WithKey(rs, GradeKey, 4);
    assert RatedAt(t, item, Good) == WithKey(rs, GradeKey, 3);
    SortKeptByGrade(rs);
  }

  /** The attacking list is the AVERAGE, then BAD, then VERY_BAD criteria, each in ranking order. */
  lemma AttackingByGrade(t: Table, item: Item)
    requires RatesAll(t, item)
    ensures Attacking(t, item) == RatedAt(t, item, Average) + RatedAt(t, item, Bad) + RatedAt(t, item, VeryBad)
  {
    var rs := RatedCouples(t, item, t.ranking);
    assert Good.Ord() == 3 && Average.Ord() == 2 && Bad.Ord() == 1 && VeryBad.Ord() == 0;
    assert Attacking(t, item) == SortDesc(KeyBelow(rs, GradeKey, 3), GradeKey);
    assert RatedAt(t, item, Average) == WithKey(rs, GradeKey, 2);
    assert RatedAt(t, item, Bad) == WithKey(rs, GradeKey, 1);
    assert RatedAt(t, item, VeryBad) == WithKey(rs, GradeKey, 0);
    SortDroppedByGrade(rs);
  }

  /**
   * Every ranked criterion, with the item's rating, lands in exactly one of the two
   * lists, and both lists are sorted best rated first.
   */
  lemma PremisesPartition(t: Table, item: Item)
    requires RatesAll(t, item)
    ensures multiset(Supporting(t, item)) + multiset(Attacking(t, item))
            == multiset(RatedCouples(t, item, t.ranking))
    ensures NonIncreasing(Supporting(t, item), GradeKey) && NonIncreasing(Attacking(t, item), GradeKey)
  {
    FiltersPartition(RatedCouples(t, item, t.ranking), GradeKey, Good.Ord());
  }

  /** A couple is supporting iff it is a ranked criterion with its rating and that rating is at least GOOD. */
  lemma SupportingMembers(t: Table, item: Item, p: Couple)
    requires RatesAll(t, item)
    ensures p in Supporting(t, item) <==> p.0 in t.ranking && p.1 == Grade(t, item, p.0) && p.1.Ord() >= Good.Ord()
  {
    var rs := RatedCouples(t, item, t.ranking);
    RatedCouplesMembers(t, item, t.ranking);
    FiltersPartition(rs, GradeKey, Good.Ord());
    assert p in Supporting(t, item) <==> p in multiset(Supporting(t, item));
  }

  /** A couple is attacking iff it is a ranked criterion with its rating and that rating is below GOOD. */
  lemma AttackingMembers(t: Table, item: Item, p: Couple)
    requires RatesAll(t, item)
    ensures p in Attacking(t, item) <==> p.0 in t.ranking && p.1 == Grade(t, item, p.0) && p.1.Ord() < Good.Ord()
  {
    var rs := RatedCouples(t, item, t.ranking);
    RatedCouplesMembers(t, item, t.ranking);
    FiltersPartition(rs, GradeKey, Good.Ord());
    assert p in Attacking(t, item) <==> p in multiset(Attacking(t, item));
  }

  lemma RatedCouplesMembers(t: Table, item: Item, cs: seq<CriterionName>)
    requires forall c :: c in cs ==> Rated(t, item, c)
    ensures forall p :: p in RatedCouples(t, item, cs) <==> p.0 in cs && p.1 == Grade(t, item, p.0)
  {
    var rs := RatedCouples(t, item, cs);
    forall p: Couple | p.0 in cs && p.1 == Grade(t, item, p.0) ensures p in rs {
      var i :| 0 <= i < |cs| && cs[i] == p.0;
      assert rs[i] == p;
    }
  }
}
