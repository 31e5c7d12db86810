/**
 * An agent's preferences: a ranking of criteria, most important first, and a flat
 * list of ratings. Queries are the source's linear searches.
 */
module Preferences {
  import opened Wrappers
  import opened Values
  import opened Items
  import opened CriterionNames
  import opened CriterionValues
  import opened Sorting

  /** The contents of one CriterionValue. */
  datatype Rating = Rating(item: Item, criterion: CriterionName, value: Value)

  /** The contents of a Preferences object: the ranking and the ratings in insertion order. */
  datatype Table = Table(ranking: seq<CriterionName>, ratings: seq<Rating>)

  predicate Rates(r: Rating, item: Item, c: CriterionName) {
    r.item == item && r.criterion == c
  }

  /** `get_value`: the grade of the first rating of `item` on `c`, or None when there is none. */
  function Lookup(ratings: seq<Rating>, item: Item, c: CriterionName): Option<Value> {
    if ratings == [] then None
    else if Rates(ratings[0], item, c) then Some(ratings[0].value)
    else Lookup(ratings[1..], item, c)
  }

  /**
   * The lookup finds nothing exactly when no rating is for that item and criterion,
   * and otherwise returns the grade of the first one that is.
   */
  lemma {:induction false} LookupIsFirstMatch(ratings: seq<Rating>, item: Item, c: CriterionName)
    ensures Lookup(ratings, item, c).None? <==> forall i :: 0 <= i < |ratings| ==> !Rates(ratings[i], item, c)
    ensures Lookup(ratings, item, c).Some? ==>
              exists i :: 0 <= i < |ratings| && Rates(ratings[i], item, c) && ratings[i].value == Lookup(ratings, item, c).value
                          && forall j :: 0 <= j < i ==> !Rates(ratings[j], item, c)
  {
    if ratings != [] && !Rates(ratings[0], item, c) {
      LookupIsFirstMatch(ratings[1..], item, c);
      assert forall j :: 0 < j < |ratings| ==> ratings[j] == ratings[1..][j - 1];
      var r := Lookup(ratings, item, c);
      if r.Some? {
        var i :| 0 <= i < |ratings[1..]| && Rates(ratings[1..][i], item, c) && ratings[1..][i].value == r.value
                 && forall j :: 0 <= j < i ==> !Rates(ratings[1..][j], item, c);
        assert ratings[i + 1] == ratings[1..][i];
      }
    }
  }

  predicate Rated(t: Table, item: Item, c: CriterionName) {
    Lookup(t.ratings, item, c).Some?
  }

  /** `get_value(item, c).value` where the rating exists. */
  function Grade(t: Table, item: Item, c: CriterionName): Value
    requires Rated(t, item, c)
  {
    Lookup(t.ratings, item, c).value
  }

  /** Every item of `items` is rated on every ranked criterion. */
  ghost predicate Complete(t: Table, items: seq<Item>) {
    forall it, c :: it in items && c in t.ranking ==> Rated(t, it, c)
  }

  /**
   * `is_preferred_criterion(c1, c2)`: scanning the ranking, `c1` is met before `c2`.
   * Equivalently: `c1` occurs at some position with no `c2` before it.
   */
  function PrefersCriterion(ranking: seq<CriterionName>, c1: CriterionName, c2: CriterionName): (b: bool)
    ensures b <==> exists i :: 0 <= i < |ranking| && ranking[i] == c1 && c2 !in ranking[..i]
  {
    if ranking == [] then false
    else if ranking[0] == c1 then
      assert ranking[..0] == [];
      true
    else if ranking[0] == c2 then
      assert forall i :: 0 < i < |ranking| ==> c2 in ranking[..i] by {
        forall i | 0 < i < |ranking| ensures c2 in ranking[..i] { assert ranking[..i][0] == c2; }
      }
      false
    else
      var b := PrefersCriterion(ranking[1..], c1, c2);
      assert b ==> exists i :: 0 <= i < |ranking| && ranking[i] == c1 && c2 !in ranking[..i] by {
        if b {
          var i :| 0 <= i < |ranking[1..]| && ranking[1..][i] == c1 && c2 !in ranking[1..][..i];
          assert ranking[..i + 1] == [ranking[0]] + ranking[1..][..i];
        }
      }
      assert (exists i :: 0 <= i < |ranking| && ranking[i] == c1 && c2 !in ranking[..i]) ==> b by {
        if exists i :: 0 <= i < |ranking| && ranking[i] == c1 && c2 !in ranking[..i] {
          var i :| 0 <= i < |ranking| && ranking[i] == c1 && c2 !in ranking[..i];
          assert i > 0;
          assert ranking[..i] == [ranking[0]] + ranking[1..][..i - 1];
          assert ranking[1..][i - 1] == c1;
        }
      }
      b
  }

  /** A ranked criterion is preferred to itself; an unranked one to nothing. */
  lemma PrefersCriterionReflexive(ranking: seq<CriterionName>, c1: CriterionName, c2: CriterionName)
    ensures c1 in ranking ==> PrefersCriterion(ranking, c1, c1)
    ensures c1 !in ranking ==> !PrefersCriterion(ranking, c1, c2)
  {
    if c1 in ranking {
      var i :| 0 <= i < |ranking| && ranking[i] == c1;
      FirstOccurrence(ranking, c1, i);
    }
  }

  /** Between two different criteria, preference holds in at most one direction. */
  lemma PrefersCriterionAsymmetric(ranking: seq<CriterionName>, c1: CriterionName, c2: CriterionName)
    requires c1 != c2 && PrefersCriterion(ranking, c1, c2)
    ensures !PrefersCriterion(ranking, c2, c1)
  {
    var i :| 0 <= i < |ranking| && ranking[i] == c1 && c2 !in ranking[..i];
    assert forall m :: 0 <= m < i ==> ranking[m] != c2 by {
      forall m | 0 <= m < i ensures ranking[m] != c2 { assert ranking[..i][m] == ranking[m]; }
    }
    forall j | 0 <= j < |ranking| && ranking[j] == c2 ensures c1 in ranking[..j] {
      assert ranking[..j][i] == c1;
    }
  }

  /** Between two different ranked criteria, preference holds in at least one direction. */
  lemma PrefersCriterionTotal(ranking: seq<CriterionName>, c1: CriterionName, c2: CriterionName)
    requires c1 != c2 && c1 in ranking && c2 in ranking
    ensures PrefersCriterion(ranking, c1, c2) || PrefersCriterion(ranking, c2, c1)
  {
    var i :| 0 <= i < |ranking| && ranking[i] == c1;
    var j :| 0 <= j < |ranking| && ranking[j] == c2;
    FirstOccurrence(ranking, c1, i);
    FirstOccurrence(ranking, c2, j);
    var k1 :| 0 <= k1 <= i && ranking[k1] == c1 && c1 !in ranking[..k1];
    var k2 :| 0 <= k2 <= j && ranking[k2] == c2 && c2 !in ranking[..k2];
    assert forall m :: 0 <= m < k1 ==> ranking[m] != c1 by {
      forall m | 0 <= m < k1 ensures ranking[m] != c1 { assert ranking[..k1][m] == ranking[m]; }
    }
    assert forall m :: 0 <= m < k2 ==> ranking[m] != c2 by {
      forall m | 0 <= m < k2 ensures ranking[m] != c2 { assert ranking[..k2][m] == ranking[m]; }
    }
    if k1 < k2 {
      assert forall m :: 0 <= m < k1 ==> ranking[..k1][m] != c2;
    } else {
      assert forall m :: 0 <= m < k2 ==> ranking[..k2][m] != c1;
    }
  }

  /** Any occurrence of `c` can be moved back to its first occurrence. */
  lemma {:induction false} FirstOccurrence(s: seq<CriterionName>, c: CriterionName, i: int)
    requires 0 <= i < |s| && s[i] == c
    ensures exists k :: 0 <= k <= i && s[k] == c && c !in s[..k]
  {
    if c in s[..i] {
      var k :| 0 <= k < i && s[..i][k] == c;
      FirstOccurrence(s, c, k);
    } else {
      assert s[i] == c && c !in s[..i];
    }
  }

  /** `is_preferred_item`: strictly higher score. */
  function IsPreferredItem(score: Scorer, item1: Item, item2: Item): bool {
    score(item1) > score(item2)
  }

  /** Item preference is a strict order: irreflexive, asymmetric and transitive. */
  lemma IsPreferredItemStrict(score: Scorer, a: Item, b: Item, c: Item)
    ensures !IsPreferredItem(score, a, a)
    ensures IsPreferredItem(score, a, b) ==> !IsPreferredItem(score, b, a)
    ensures IsPreferredItem(score, a, b) && IsPreferredItem(score, b, c) ==> IsPreferredItem(score, a, c)
  {
  }

  /**
   * `most_preferred`: the head of the score-sorted list, or, when the two best scores tie,
   * either of the first two; `pickSecond` stands for the source's random choice.
   * The result is the first best-scored item in list order, or the second one on a tie.
   */
  function MostPreferred(items: seq<Item>, score: Scorer, pickSecond: bool): (r: Item)
    requires |items| > 0
    ensures r in items
    ensures forall it :: it in items ==> score(it) <= score(r)
    ensures var best := WithKey(items, score, score(r));
            |best| > 0 && (r == best[0] || (|best| > 1 && r == best[1]))
    ensures var best := WithKey(items, score, score(r));
            |best| == 1 ==> r == best[0]
  {
    var sorted := SortDesc(items, score);
    SortDescHeadIsMax(items, score);
    var top := score(sorted[0]);
    SortDescStable(items, score, top);
    SortedWithTopKey(sorted, score);
    assert sorted[0] in multiset(items);
    if |sorted| > 1 && score(sorted[0]) == score(sorted[1]) then
      assert sorted[1] in multiset(items);
      if pickSecond then sorted[1] else sorted[0]
    else
      sorted[0]
  }

  /** In a non-increasing sequence the elements with the top key are its leading ones. */
  lemma SortedWithTopKey(s: seq<Item>, score: Scorer)
    requires |s| > 0 && NonIncreasing(s, score)
    ensures var w := WithKey(s, score, score(s[0]));
            |w| > 0 && w[0] == s[0]
            && (|s| > 1 && score(s[1]) == score(s[0]) ==> |w| > 1 && w[1] == s[1])
            && (|s| > 1 && score(s[1]) < score(s[0]) ==> |w| == 1)
            && (|s| == 1 ==> |w| == 1)
  {
    var k := score(s[0]);
    if |s| > 1 {
      assert WithKey(s, score, k) == [s[0]] + WithKey(s[1..], score, k);
      if score(s[1]) == k {
        assert WithKey(s[1..], score, k) == [s[1]] + WithKey(s[2..], score, k);
      } else {
        NoneWithKey(s[1..], score, k);
      }
    }
  }

  /**
   * How many of the best items count as favourites: a tenth of the list, rounded down,
   * but at least one (and never more than the list holds).
   */
  function TopTenthSize(n: nat): (k: nat)
    ensures n > 0 ==> 1 <= k <= n
    ensures n == 0 ==> k == 0
    ensures 10 * k <= n || k == 1
    ensures n >= 10 ==> n < 10 * (k + 1)
  {
    Min(n, Max(1, n / 10))
  }

  /** `is_item_among_top_10_percent`: the item is among the first `TopTenthSize` of the sorted list. */
  predicate AmongTopTenth(item: Item, sortedItems: seq<Item>) {
    item in sortedItems[..TopTenthSize(|sortedItems|)]
  }

  /** The favourite (first) item always qualifies, and every qualifying item is on the list. */
  lemma TopTenthBounds(item: Item, sortedItems: seq<Item>)
    ensures |sortedItems| > 0 ==> AmongTopTenth(sortedItems[0], sortedItems)
    ensures AmongTopTenth(item, sortedItems) ==> item in sortedItems
    ensures |sortedItems| < 20 ==> (AmongTopTenth(item, sortedItems) <==> |sortedItems| > 0 && item == sortedItems[0])
  {
    var k := TopTenthSize(|sortedItems|);
    if |sortedItems| > 0 {
      assert sortedItems[..k][0] == sortedItems[0];
    }
    if AmongTopTenth(item, sortedItems) {
      var i :| 0 <= i < k && sortedItems[..k][i] == item;
      assert sortedItems[i] == item;
    }
    if |sortedItems| < 20 && |sortedItems| > 0 {
      assert k == 1;
      assert sortedItems[..k] == [sortedItems[0]];
    }
  }

  /** The contents of a list of CriterionValue objects. */
  function RatingsOf(cvs: seq<CriterionValue>): (rs: seq<Rating>)
    reads cvs
    ensures |rs| == |cvs|
    ensures forall i :: 0 <= i < |cvs| ==> rs[i] == Rating(cvs[i].item, cvs[i].criterionName, cvs[i].value)
  {
    if cvs == [] then [] else [Rating(cvs[0].item, cvs[0].criterionName, cvs[0].value)] + RatingsOf(cvs[1..])
  }

  class Preferences {
    var criterionNameList: seq<CriterionName>
    var criterionValueList: seq<CriterionValue>

    /** A new Preferences has no ranking and no ratings. */
    constructor ()
      ensures criterionNameList == [] && criterionValueList == []
    {
      criterionNameList := [];
      criterionValueList := [];
    }

    /** The current contents, read through the CriterionValue objects it holds. */
    function AsTable(): Table
      reads this, criterionValueList
    {
      Table(criterionNameList, RatingsOf(criterionValueList))
    }

    /** `set_criterion_name_list`: replaces the ranking; the ratings are untouched. */
    method SetCriterionNameList(names: seq<CriterionName>)
      modifies this
      ensures criterionNameList == names
      ensures criterionValueList == old(criterionValueList)
    {
      criterionNameList := names;
    }

    /** `add_criterion_value`: appends one rating at the end; nothing else changes. */
    method AddCriterionValue(cv: CriterionValue)
      modifies this
      ensures criterionValueList == old(criterionValueList) + [cv]
      ensures criterionNameList == old(criterionNameList)
    {
      criterionValueList := criterionValueList + [cv];
    }

    /** `get_value`: the early-return scan over the ratings. */
    method GetValue(item: Item, c: CriterionName) returns (r: Option<Value>)
      ensures r == Lookup(AsTable().ratings, item, c)
    {
      var rs := RatingsOf(criterionValueList);
      var i := 0;
      while i < |criterionValueList|
        invariant 0 <= i <= |criterionValueList|
        invariant Lookup(rs, item, c) == Lookup(rs[i..], item, c)
      {
        var cv := criterionValueList[i];
        if cv.item == item && cv.criterionName == c {
          return Some(cv.value);
        }
        assert rs[i..][1..] == rs[i + 1..];
        i := i + 1;
      }
      return None;
    }

    /** `is_preferred_criterion`: the early-return scan over the ranking. */
    method IsPreferredCriterion(c1: CriterionName, c2: CriterionName) returns (b: bool)
      ensures b == PrefersCriterion(criterionNameList, c1, c2)
    {
      var i := 0;
      while i < |criterionNameList|
        invariant 0 <= i <= |criterionNameList|
        invariant PrefersCriterion(criterionNameList, c1, c2) == PrefersCriterion(criterionNameList[i..], c1, c2)
      {
        var c := criterionNameList[i];
        if c == c1 {
          return true;
        }
        if c == c2 {
          return false;
        }
        assert criterionNameList[i..][1..] == criterionNameList[i + 1..];
        i := i + 1;
      }
      return false;
    }
  }
}
