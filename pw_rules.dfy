/**
 * The argument-building rules of the earlier agent (`pw_argumentation.py`): its
 * `support_proposal` and the rebuttal `attack_argument` computes, as functions of the
 * agent's preferences, its items and the attacked argument's parsed fields.
 */
module PwRules {
  import opened Wrappers
  import opened Values
  import opened Items
  import opened CriterionNames
  import opened Comparisons
  import opened Arguments
  import opened Preferences
  import opened Premises
  import opened AgentQueries

  /**
   * `support_proposal(item)`: a pro-argument whose one couple is the head of the supporting
   * list; `None` stands for the exception raised when there is no item (no rating is
   * found for `None`) or the supporting list is empty.
   */
  function PwSupport(t: Table, proposed: Option<Item>): (r: Option<ArgumentValue>)
    requires proposed.Some? ==> RatesAll(t, proposed.value)
    ensures r.Some? <==> proposed.Some? && Supporting(t, proposed.value) != []
  {
    match proposed
    case None => None
    case Some(item) =>
      var sup := Supporting(t, item);
      if sup == [] then None else Some(ArgumentValue(true, item, [sup[0]], []))
  }

  /** The support cites the item's highest rating, which is GOOD or better. */
  lemma PwSupportCitesBest(t: Table, item: Item)
    requires RatesAll(t, item)
    ensures PwSupport(t, Some(item)).Some? ==>
              var v := PwSupport(t, Some(item)).value;
              v.decision && v.item == item && |v.couples| == 1 && v.comparisons == []
              && v.couples[0].1.Ord() >= Good.Ord() && v.couples[0].0 in t.ranking
              && forall p :: p in Supporting(t, item) ==> p.1.Ord() <= v.couples[0].1.Ord()
  {
    var sup := Supporting(t, item);
    if sup != [] {
      SupportingByGrade(t, item);
      SupportingMembers(t, item, sup[0]);
      forall p | p in sup ensures p.1.Ord() <= sup[0].1.Ord() {
        var i :| 0 <= i < |sup| && sup[i] == p;
        assert GradeKey(sup[0]) >= GradeKey(sup[i]);
      }
    }
  }

  /**
   * The test of the criterion scan: against a pro-argument the item is rated below
   * min(AVERAGE, the best rating of any item) on `c`; against a con-argument above
   * max(GOOD, the worst rating of any item).
   */
  predicate Undermines(t: Table, items: seq<Item>, item: Item, c: CriterionName, isChosen: bool)
    requires |items| > 0
  {
    if isChosen then GradeOrd(t, item, c) < Min(Average.Ord(), MaxGrade(t, items, c))
    else GradeOrd(t, item, c) > Max(Good.Ord(), MinGrade(t, items, c))
  }

  datatype ScanResult = Found(c: CriterionName) | NotFound | ScanRaises

  /**
   * The inner loop: walk the ranking up to the premise's criterion `pc` and stop at the
   * first criterion that undermines; with no items, `max`/`min` of nothing raises as
   * soon as a criterion is examined.
   */
  function ScanBefore(t: Table, items: seq<Item>, ranking: seq<CriterionName>, pc: CriterionName,
                      item: Item, isChosen: bool): ScanResult
  {
    if ranking == [] || ranking[0] == pc then NotFound
    else if items == [] then ScanRaises
    else if Undermines(t, items, item, ranking[0], isChosen) then Found(ranking[0])
    else ScanBefore(t, items, ranking[1..], pc, item, isChosen)
  }

  /** The criteria ranked before the first occurrence of `pc` (all of them when it is absent). */
  function RankedBefore(ranking: seq<CriterionName>, pc: CriterionName): (r: seq<CriterionName>)
    ensures |r| <= |ranking| && r == ranking[..|r|] && pc !in r
    ensures |r| < |ranking| ==> ranking[|r|] == pc
  {
    if ranking == [] || ranking[0] == pc then []
    else
      var rest := RankedBefore(ranking[1..], pc);
      assert [ranking[0]] + rest == ranking[..|rest| + 1];
      [ranking[0]] + rest
  }

  /** `c` occurs in `before`, and no criterion ahead of that occurrence undermines. */
  ghost predicate FirstUndermining(t: Table, items: seq<Item>, item: Item, isChosen: bool,
                                   before: seq<CriterionName>, c: CriterionName)
    requires |items| > 0
  {
    exists i :: 0 <= i < |before| && before[i] == c && NoneUndermines(t, items, item, isChosen, before[..i])
  }

  /** No criterion of `cs` undermines. */
  ghost predicate NoneUndermines(t: Table, items: seq<Item>, item: Item, isChosen: bool, cs: seq<CriterionName>)
    requires |items| > 0
  {
    forall j :: 0 <= j < |cs| ==> !Undermines(t, items, item, cs[j], isChosen)
  }

  /** A criterion that does not undermine, put in front, keeps a prefix free of underminers. */
  lemma NoneUnderminesCons(t: Table, items: seq<Item>, item: Item, isChosen: bool,
                           x: CriterionName, rest: seq<CriterionName>, i: nat)
    requires |items| > 0 && i < |rest|
    requires !Undermines(t, items, item, x, isChosen) && NoneUndermines(t, items, item, isChosen, rest[..i])
    ensures ([x] + rest)[i + 1] == rest[i]
    ensures NoneUndermines(t, items, item, isChosen, ([x] + rest)[..i + 1])
  {
    var prefix := ([x] + rest)[..i + 1];
    assert prefix == [x] + rest[..i];
    forall j | 0 <= j < |prefix| ensures !Undermines(t, items, item, prefix[j], isChosen) {
      if j > 0 {
        assert prefix[j] == rest[..i][j - 1];
      }
    }
  }

  /** The scan finds the first criterion ranked before `pc` that undermines. */
  lemma {:induction false} ScanFoundIsFirst(t: Table, items: seq<Item>, ranking: seq<CriterionName>,
                                            pc: CriterionName, item: Item, isChosen: bool)
    ensures ScanBefore(t, items, ranking, pc, item, isChosen).Found? ==>
              var c := ScanBefore(t, items, ranking, pc, item, isChosen).c;
              var before := RankedBefore(ranking, pc);
              |items| > 0 && Undermines(t, items, item, c, isChosen)
              && FirstUndermining(t, items, item, isChosen, before, c)
    decreases |ranking|
  {
    if ranking != [] && ranking[0] != pc && items != [] {
      var before := RankedBefore(ranking, pc);
      assert before[0] == ranking[0];
      if !Undermines(t, items, item, ranking[0], isChosen) {
        var rest := RankedBefore(ranking[1..], pc);
        ScanFoundIsFirst(t, items, ranking[1..], pc, item, isChosen);
        var r := ScanBefore(t, items, ranking[1..], pc, item, isChosen);
        if r.Found? {
          var i :| 0 <= i < |rest| && rest[i] == r.c && NoneUndermines(t, items, item, isChosen, rest[..i]);
          assert before == [ranking[0]] + rest;
          NoneUnderminesCons(t, items, item, isChosen, ranking[0], rest, i);
          assert ScanBefore(t, items, ranking, pc, item, isChosen) == r;
        } else {
          assert ScanBefore(t, items, ranking, pc, item, isChosen) == r;
        }
      } else {
        assert ScanBefore(t, items, ranking, pc, item, isChosen) == Found(before[0]);
        assert NoneUndermines(t, items, item, isChosen, before[..0]);
      }
    }
  }

  /** The scan raises exactly when there are no items and some criterion precedes `pc`. */
  lemma ScanRaisesIff(t: Table, items: seq<Item>, ranking: seq<CriterionName>, pc: CriterionName, item: Item, isChosen: bool)
    ensures ScanBefore(t, items, ranking, pc, item, isChosen) == ScanRaises <==> items == [] && RankedBefore(ranking, pc) != []
  {
  }

  /** When the scan finds nothing, no criterion ranked before `pc` undermines. */
  lemma {:induction false} ScanNotFoundNone(t: Table, items: seq<Item>, ranking: seq<CriterionName>,
                                            pc: CriterionName, item: Item, isChosen: bool)
    requires |items| > 0
    ensures ScanBefore(t, items, ranking, pc, item, isChosen) == NotFound ==>
              forall c :: c in RankedBefore(ranking, pc) ==> !Undermines(t, items, item, c, isChosen)
    decreases |ranking|
  {
    if ranking != [] && ranking[0] != pc {
      ScanNotFoundNone(t, items, ranking[1..], pc, item, isChosen);
      assert RankedBefore(ranking, pc) == [ranking[0]] + RankedBefore(ranking[1..], pc);
    }
  }

  /** A criterion the scan finds is a ranked one. */
  lemma {:induction false} ScanFoundInRanking(t: Table, items: seq<Item>, ranking: seq<CriterionName>,
                                              pc: CriterionName, item: Item, isChosen: bool)
    ensures ScanBefore(t, items, ranking, pc, item, isChosen).Found? ==>
              ScanBefore(t, items, ranking, pc, item, isChosen).c in ranking
    decreases |ranking|
  {
    if ranking != [] && ranking[0] != pc && items != [] && !Undermines(t, items, item, ranking[0], isChosen) {
      ScanFoundInRanking(t, items, ranking[1..], pc, item, isChosen);
      assert forall c :: c in ranking[1..] ==> c in ranking;
    }
  }

  /**
   * The rule for one premise against a pro-argument: the premise claims a value below
   * both the agent's own rating of it and AVERAGE.
   */
  predicate ClaimsBelowOwn(t: Table, item: Item, p: Couple, isChosen: bool) {
    isChosen && p.1.Ord() < Min(GradeOrd(t, item, p.0), Average.Ord())
  }

  /** One more couple (and comparisons) on the counter-argument, created on first use. */
  function Extend(acc: Option<ArgumentValue>, isChosen: bool, item: Item, p: Couple, cmps: seq<Comparison>): (v: ArgumentValue)
    ensures acc.None? ==> v == ArgumentValue(!isChosen, item, [p], cmps)
    ensures acc.Some? ==> v == ArgumentValue(acc.value.decision, acc.value.item,
                                             acc.value.couples + [p], acc.value.comparisons + cmps)
  {
    var base := if acc.Some? then acc.value else ArgumentValue(!isChosen, item, [], []);
    ArgumentValue(base.decision, base.item, base.couples + [p], base.comparisons + cmps)
  }

  datatype Premised = Premised(acc: Option<ArgumentValue>) | PremiseRaises

  /** The ratings the premise loop reads exist. */
  predicate PremisesReadable(t: Table, couples: seq<Couple>, item: Item, isChosen: bool) {
    RatesAll(t, item) && (isChosen ==> forall p :: p in couples ==> Rated(t, item, p.0))
  }

  /**
   * One pass of the loop over the couple premises: a premise claiming less than the
   * agent's own rating adds that criterion at the agent's rating; any other premise adds
   * the first criterion ranked before it that undermines the item, with a comparison of
   * the two.
   */
  function PremiseStep(t: Table, items: seq<Item>, acc: Option<ArgumentValue>, p: Couple, item: Item, isChosen: bool): Premised
    requires RatesAll(t, item) && (isChosen ==> Rated(t, item, p.0))
  {
    if ClaimsBelowOwn(t, item, p, isChosen) then
      Premised(Some(Extend(acc, isChosen, item, (p.0, Grade(t, item, p.0)), [])))
    else
      match ScanBefore(t, items, t.ranking, p.0, item, isChosen)
      case ScanRaises => PremiseRaises
      case NotFound => Premised(acc)
      case Found(c) =>
        ScanFoundInRanking(t, items, t.ranking, p.0, item, isChosen);
        Premised(Some(Extend(acc, isChosen, item, (c, Grade(t, item, c)), [Comparison(c, p.0)])))
  }

  /** The loop over the couple premises, one `PremiseStep` per premise, stopping at a raise. */
  function PremiseRebuttal(t: Table, items: seq<Item>, couples: seq<Couple>, item: Item, isChosen: bool): Premised
    requires PremisesReadable(t, couples, item, isChosen)
    decreases |couples|
  {
    if couples == [] then Premised(None)
    else
      var init := couples[..|couples| - 1];
      var p := couples[|couples| - 1];
      assert forall q :: q in init ==> q in couples;
      match PremiseRebuttal(t, items, init, item, isChosen)
      case PremiseRaises => PremiseRaises
      case Premised(acc) => PremiseStep(t, items, acc, p, item, isChosen)
  }

  /** The ratings read for the whole premise list cover every prefix of it. */
  lemma PremisesReadablePrefix(t: Table, cs: seq<Couple>, k: nat, item: Item, isChosen: bool)
    requires PremisesReadable(t, cs, item, isChosen) && k <= |cs|
    ensures PremisesReadable(t, cs[..k], item, isChosen)
    ensures k > 0 && isChosen ==> Rated(t, item, cs[k - 1].0)
  {
    assert forall q :: q in cs[..k] ==> q in cs;
  }

  /** One more premise is one more step of the loop, unless the loop has already raised. */
  lemma PremiseRebuttalSnoc(t: Table, items: seq<Item>, cs: seq<Couple>, p: Couple, item: Item, isChosen: bool)
    requires PremisesReadable(t, cs + [p], item, isChosen)
    ensures PremisesReadable(t, cs, item, isChosen)
    ensures PremiseRebuttal(t, items, cs + [p], item, isChosen)
            == match PremiseRebuttal(t, items, cs, item, isChosen)
               case PremiseRaises => PremiseRaises
               case Premised(acc) => PremiseStep(t, items, acc, p, item, isChosen)
  {
    assert (cs + [p])[..|cs|] == cs;
    assert forall q :: q in cs ==> q in cs + [p];
  }

  /**
   * The loop after `k + 1` premises is one step past the loop after `k`, and a raise
   * there is the raise of the whole loop.
   */
  lemma PremiseRebuttalNext(t: Table, items: seq<Item>, cs: seq<Couple>, k: nat, item: Item, isChosen: bool)
    requires PremisesReadable(t, cs, item, isChosen) && k < |cs|
    ensures PremisesReadable(t, cs[..k], item, isChosen) && PremisesReadable(t, cs[..k + 1], item, isChosen)
    ensures isChosen ==> Rated(t, item, cs[k].0)
    ensures PremiseRebuttal(t, items, cs[..k + 1], item, isChosen)
            == match PremiseRebuttal(t, items, cs[..k], item, isChosen)
               case PremiseRaises => PremiseRaises
               case Premised(acc) => PremiseStep(t, items, acc, cs[k], item, isChosen)
    ensures PremiseRebuttal(t, items, cs[..k + 1], item, isChosen) == PremiseRaises
            ==> PremiseRebuttal(t, items, cs, item, isChosen) == PremiseRaises
  {
    assert cs[..k + 1] == cs[..k] + [cs[k]];
    PremisesReadablePrefix(t, cs, k + 1, item, isChosen);
    PremiseRebuttalSnoc(t, items, cs[..k], cs[k], item, isChosen);
    if PremiseRebuttal(t, items, cs[..k + 1], item, isChosen) == PremiseRaises {
      PremiseRaisesSticks(t, items, cs, k + 1, item, isChosen);
    }
  }

  /** Once a prefix of the premises raises, the whole loop raises. */
  lemma {:induction false} PremiseRaisesSticks(t: Table, items: seq<Item>, cs: seq<Couple>, k: nat, item: Item, isChosen: bool)
    requires PremisesReadable(t, cs, item, isChosen) && k <= |cs|
    requires PremisesReadable(t, cs[..k], item, isChosen)
    requires PremiseRebuttal(t, items, cs[..k], item, isChosen) == PremiseRaises
    ensures PremiseRebuttal(t, items, cs, item, isChosen) == PremiseRaises
    decreases |cs|
  {
    if k < |cs| {
      var init := cs[..|cs| - 1];
      assert init[..k] == cs[..k];
      assert forall q :: q in init ==> q in cs;
      PremiseRaisesSticks(t, items, init, k, item, isChosen);
    } else {
      assert cs[..k] == cs;
    }
  }

  /**
   * A premise-based rebuttal argues the other way on the same item; every couple it cites
   * is the agent's own rating, there is at most one per premise, and each comparison puts
   * a cited criterion over a premise's criterion.
   */
  lemma {:induction false} PremiseRebuttalShape(t: Table, items: seq<Item>, couples: seq<Couple>, item: Item, isChosen: bool)
    requires PremisesReadable(t, couples, item, isChosen)
    ensures PremiseRebuttal(t, items, couples, item, isChosen).Premised? ==>
              var acc := PremiseRebuttal(t, items, couples, item, isChosen).acc;
              acc.Some? ==>
                acc.value.decision == !isChosen && acc.value.item == item
                && 1 <= |acc.value.couples| <= |couples| && |acc.value.comparisons| <= |acc.value.couples|
                && (forall q :: q in acc.value.couples ==> Rated(t, item, q.0) && q.1 == Grade(t, item, q.0))
                && (forall cmp :: cmp in acc.value.comparisons ==> (exists q :: q in couples && cmp.worst == q.0))
    decreases |couples|
  {
    if couples != [] {
      var init := couples[..|couples| - 1];
      var p := couples[|couples| - 1];
      assert forall q :: q in init ==> q in couples;
      PremiseRebuttalShape(t, items, init, item, isChosen);
      assert p in couples;
      ScanFoundInRanking(t, items, t.ranking, p.0, item, isChosen);
    }
  }

  /** `x` is rated higher than `item` on `cn` and scores more. */
  predicate Beats(t: Table, score: Scorer, x: Item, item: Item, cn: CriterionName) {
    GradeOrd(t, x, cn) > GradeOrd(t, item, cn) && score(x) > score(item)
  }

  /**
   * The position of the last of `items` that beats `item` on `cn`, or -1 when none
   * does: every item after it fails to beat `item`.
   */
  function LastBetterAt(t: Table, items: seq<Item>, score: Scorer, item: Item, cn: CriterionName): (i: int)
    ensures -1 <= i < |items|
    ensures 0 <= i ==> Beats(t, score, items[i], item, cn)
    ensures forall j :: i < j < |items| ==> !Beats(t, score, items[j], item, cn)
    decreases |items|
  {
    if items == [] then -1
    else if Beats(t, score, items[|items| - 1], item, cn) then |items| - 1
    else
      var init := items[..|items| - 1];
      assert forall j :: 0 <= j < |init| ==> items[j] == init[j];
      LastBetterAt(t, init, score, item, cn)
  }

  /** The last of `items` that beats `item` on `cn`. */
  function LastBetter(t: Table, items: seq<Item>, score: Scorer, item: Item, cn: CriterionName): (r: Option<Item>)
    ensures r.Some? ==> r.value in items
  {
    var i := LastBetterAt(t, items, score, item, cn);
    if i < 0 then None else Some(items[i])
  }

  /** The criterion the fallback looks at: the first couple's, else the first comparison's best. */
  function CitedCriterion(couples: seq<Couple>, comparisons: seq<Comparison>): Option<CriterionName> {
    if couples != [] then Some(couples[0].0)
    else if comparisons != [] then Some(comparisons[0].best)
    else None
  }

  /** The ratings `attack_argument` reads exist. */
  ghost predicate PwAttackReadable(t: Table, items: seq<Item>, comparisons: seq<Comparison>, couples: seq<Couple>,
                                   item: Item, isChosen: bool)
  {
    PremisesReadable(t, couples, item, isChosen) && Complete(t, items)
    && (CitedCriterion(couples, comparisons).Some? ==>
          var cn := CitedCriterion(couples, comparisons).value;
          Rated(t, item, cn) && forall it :: it in items ==> Rated(t, it, cn))
  }

  datatype PwAttackResult = PwCounter(arg: ArgumentValue) | PwNoCounter | PwAttackRaises

  /**
   * `attack_argument` of the earlier agent: the premise-based rebuttal if there is one;
   * otherwise a pro-argument on the last item that beats the attacked one both on the
   * cited criterion and in score (with no couple and no comparison to cite, indexing the
   * empty comparison list raises).
   */
  ghost function PwAttackSpec(t: Table, items: seq<Item>, score: Scorer, comparisons: seq<Comparison>,
                              couples: seq<Couple>, item: Item, isChosen: bool): PwAttackResult
    requires PwAttackReadable(t, items, comparisons, couples, item, isChosen)
  {
    match PremiseRebuttal(t, items, couples, item, isChosen)
    case PremiseRaises => PwAttackRaises
    case Premised(Some(v)) => PwCounter(v)
    case Premised(None) =>
      match CitedCriterion(couples, comparisons)
      case None => PwAttackRaises
      case Some(cn) =>
        match LastBetter(t, items, score, item, cn)
        case None => PwNoCounter
        case Some(x) =>
          PwCounter(ArgumentValue(true, x, [(cn, Grade(t, x, cn))], []))
  }

  /**
   * A fallback rebuttal is always a pro-argument, whatever the attacked polarity, on one
   * of the agent's items that scores strictly more than the attacked item, citing that
   * item's own rating on the cited criterion, which beats the attacked item's.
   */
  lemma FallbackIsProArgument(t: Table, items: seq<Item>, score: Scorer, comparisons: seq<Comparison>,
                              couples: seq<Couple>, item: Item, isChosen: bool)
    requires PwAttackReadable(t, items, comparisons, couples, item, isChosen)
    requires PremiseRebuttal(t, items, couples, item, isChosen) == Premised(None)
    ensures PwAttackSpec(t, items, score, comparisons, couples, item, isChosen).PwCounter? ==>
              var v := PwAttackSpec(t, items, score, comparisons, couples, item, isChosen).arg;
              var cn := CitedCriterion(couples, comparisons).value;
              v.decision && v.item in items && v.item != item && score(v.item) > score(item)
              && v.couples == [(cn, Grade(t, v.item, cn))] && v.comparisons == []
              && Grade(t, v.item, cn).Ord() > Grade(t, item, cn).Ord()
    ensures CitedCriterion(couples, comparisons).None? ==>
              PwAttackSpec(t, items, score, comparisons, couples, item, isChosen) == PwAttackRaises
  {
  }
}
