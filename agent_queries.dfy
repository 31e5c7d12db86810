/**
 * The queries the argumentation agent asks of its own preferences, the anti-repetition
 * check against its log of used arguments, and what `support_proposal` and
 * `attack_argument` produce, as functions of the preferences and the log.
 */
module AgentQueries {
  import opened Wrappers
  import opened Values
  import opened Items
  import opened CriterionNames
  import opened Comparisons
  import opened Arguments
  import opened Preferences
  import opened Premises

  /** `criterion_is_bad`: the claimed value is below both the agent's own rating and AVERAGE. */
  function CriterionIsBad(t: Table, premise: Couple, item: Item): (r: bool)
    requires Rated(t, item, premise.0)
    ensures r <==> premise.1.Ord() < Grade(t, item, premise.0).Ord() && premise.1.Ord() < Average.Ord()
  {
    premise.1.Ord() < Min(Grade(t, item, premise.0).Ord(), Average.Ord())
  }

  /** Some item other than `item` rates strictly above the claimed value on the premise's criterion. */
  predicate BetterItemExists(t: Table, items: seq<Item>, premise: Couple, item: Item)
    requires forall it :: it in items ==> Rated(t, it, premise.0)
  {
    exists it :: it in items && it != item && Grade(t, it, premise.0).Ord() > premise.1.Ord()
  }

  /** A criterion other than the premise's on which the agent rates the item below AVERAGE. */
  predicate BadOther(t: Table, item: Item, pc: CriterionName, c: CriterionName)
    requires Rated(t, item, c)
  {
    c != pc && Grade(t, item, c).Ord() < Average.Ord()
  }

  /** `other_more_important_criterion_is_bad`: the first criterion of `cs` that is BadOther. */
  function FirstBadOther(t: Table, cs: seq<CriterionName>, item: Item, pc: CriterionName): (r: Option<CriterionName>)
    requires forall c :: c in cs ==> Rated(t, item, c)
    ensures r.None? <==> forall i :: 0 <= i < |cs| ==> !BadOther(t, item, pc, cs[i])
    ensures r.Some? ==> exists i :: 0 <= i < |cs| && cs[i] == r.value && BadOther(t, item, pc, r.value)
                                    && forall j :: 0 <= j < i ==> !BadOther(t, item, pc, cs[j])
  {
    if cs == [] then None
    else if BadOther(t, item, pc, cs[0]) then Some(cs[0])
    else
      var r := FirstBadOther(t, cs[1..], item, pc);
      assert r.Some? ==> exists i :: 0 <= i < |cs| && cs[i] == r.value && BadOther(t, item, pc, r.value)
                                     && forall j :: 0 <= j < i ==> !BadOther(t, item, pc, cs[j]) by {
        if r.Some? {
          var i :| 0 <= i < |cs[1..]| && cs[1..][i] == r.value && BadOther(t, item, pc, r.value)
                   && forall j :: 0 <= j < i ==> !BadOther(t, item, pc, cs[1..][j]);
          assert forall j :: 0 < j < i + 1 ==> cs[j] == cs[1..][j - 1];
        }
      }
      assert (forall i :: 0 <= i < |cs| ==> !BadOther(t, item, pc, cs[i])) <==>
             (forall i :: 0 <= i < |cs[1..]| ==> !BadOther(t, item, pc, cs[1..][i])) by {
        assert forall i :: 0 < i < |cs| ==> cs[i] == cs[1..][i - 1];
      }
      r
  }

  /** The rank of the item's rating on `c`; every call site has the rating. */
  function GradeOrd(t: Table, item: Item, c: CriterionName): int {
    match Lookup(t.ratings, item, c)
    case Some(v) => v.Ord()
    case None => -1
  }

  /** The lowest rating any of `items` has on `c` (`min(...)` over the items). */
  function MinGrade(t: Table, items: seq<Item>, c: CriterionName): int
    requires |items| > 0
  {
    if |items| == 1 then GradeOrd(t, items[0], c)
    else Min(GradeOrd(t, items[0], c), MinGrade(t, items[1..], c))
  }

  /** MinGrade is a lower bound of the items' ratings that one of them attains. */
  lemma {:induction false} MinGradeIsMin(t: Table, items: seq<Item>, c: CriterionName)
    requires |items| > 0
    ensures forall it :: it in items ==> MinGrade(t, items, c) <= GradeOrd(t, it, c)
    ensures exists it :: it in items && MinGrade(t, items, c) == GradeOrd(t, it, c)
  {
    if |items| > 1 {
      MinGradeIsMin(t, items[1..], c);
      assert forall it :: it in items ==> it == items[0] || it in items[1..];
      assert items[0] in items;
      var w :| w in items[1..] && MinGrade(t, items[1..], c) == GradeOrd(t, w, c);
      assert w in items;
      if GradeOrd(t, items[0], c) <= GradeOrd(t, w, c) {
        assert MinGrade(t, items, c) == GradeOrd(t, items[0], c);
      } else {
        assert MinGrade(t, items, c) == GradeOrd(t, w, c);
      }
    } else {
      assert items[0] in items;
    }
  }

  /** The highest rating any of `items` has on `c` (`max(...)` over the items). */
  function MaxGrade(t: Table, items: seq<Item>, c: CriterionName): int
    requires |items| > 0
  {
    if |items| == 1 then GradeOrd(t, items[0], c)
    else Max(GradeOrd(t, items[0], c), MaxGrade(t, items[1..], c))
  }

  /** MaxGrade is an upper bound of the items' ratings that one of them attains. */
  lemma {:induction false} MaxGradeIsMax(t: Table, items: seq<Item>, c: CriterionName)
    requires |items| > 0
    ensures forall it :: it in items ==> GradeOrd(t, it, c) <= MaxGrade(t, items, c)
    ensures exists it :: it in items && MaxGrade(t, items, c) == GradeOrd(t, it, c)
  {
    if |items| > 1 {
      MaxGradeIsMax(t, items[1..], c);
      assert forall it :: it in items ==> it == items[0] || it in items[1..];
      assert items[0] in items;
      var w :| w in items[1..] && MaxGrade(t, items[1..], c) == GradeOrd(t, w, c);
      assert w in items;
      if GradeOrd(t, items[0], c) >= GradeOrd(t, w, c) {
        assert MaxGrade(t, items, c) == GradeOrd(t, items[0], c);
      } else {
        assert MaxGrade(t, items, c) == GradeOrd(t, w, c);
      }
    } else {
      assert items[0] in items;
    }
  }

  /**
   * The item is rated above min(GOOD, the lowest rating of any item) on `c`: some
   * item is worse there, unless the item is better than GOOD.
   */
  predicate BeatsFloor(t: Table, items: seq<Item>, item: Item, c: CriterionName)
    requires |items| > 0
  {
    GradeOrd(t, item, c) > Min(Good.Ord(), MinGrade(t, items, c))
  }

  /**
   * What the floor test means: the item is rated better than GOOD on `c`, or some item
   * of the agent's is rated strictly worse there.
   */
  lemma BeatsFloorMeaning(t: Table, items: seq<Item>, item: Item, c: CriterionName)
    requires |items| > 0
    ensures BeatsFloor(t, items, item, c) <==>
              GradeOrd(t, item, c) > Good.Ord() || exists it :: it in items && GradeOrd(t, it, c) < GradeOrd(t, item, c)
  {
    MinGradeIsMin(t, items, c);
  }

  /** `other_item_better_on_criterion`: the first criterion of `cs` on which the item BeatsFloor. */
  function FirstBeatsFloor(t: Table, cs: seq<CriterionName>, items: seq<Item>, item: Item): (r: Option<CriterionName>)
    requires |items| > 0
    ensures r.Some? ==> r.value in cs
  {
    if cs == [] then None
    else if BeatsFloor(t, items, item, cs[0]) then Some(cs[0])
    else FirstBeatsFloor(t, cs[1..], items, item)
  }

  /** The search finds the first qualifying criterion, and nothing exactly when none qualifies. */
  lemma {:induction false} FirstBeatsFloorIsFirstMatch(t: Table, cs: seq<CriterionName>, items: seq<Item>, item: Item)
    requires |items| > 0
    ensures FirstBeatsFloor(t, cs, items, item).None? <==> forall i :: 0 <= i < |cs| ==> !BeatsFloor(t, items, item, cs[i])
    ensures FirstBeatsFloor(t, cs, items, item).Some? ==>
              exists i :: 0 <= i < |cs| && cs[i] == FirstBeatsFloor(t, cs, items, item).value && BeatsFloor(t, items, item, cs[i])
                          && forall j :: 0 <= j < i ==> !BeatsFloor(t, items, item, cs[j])
  {
    if cs != [] && !BeatsFloor(t, items, item, cs[0]) {
      FirstBeatsFloorIsFirstMatch(t, cs[1..], items, item);
      assert forall j :: 0 < j < |cs| ==> cs[j] == cs[1..][j - 1];
      var r := FirstBeatsFloor(t, cs, items, item);
      if r.Some? {
        var i :| 0 <= i < |cs[1..]| && cs[1..][i] == r.value && BeatsFloor(t, items, item, cs[1..][i])
                 && forall j :: 0 <= j < i ==> !BeatsFloor(t, items, item, cs[1..][j]);
        assert cs[i + 1] == cs[1..][i];
      }
    }
  }

  /**
   * The position `max` settles on when scanning `cs` by the item's rating: the first
   * criterion carrying the highest rating.
   */
  function BestIndex(t: Table, cs: seq<CriterionName>, item: Item): (i: nat)
    requires |cs| > 0 && forall c :: c in cs ==> Rated(t, item, c)
    ensures i < |cs|
    ensures forall j :: 0 <= j < |cs| ==> GradeOrd(t, item, cs[j]) <= GradeOrd(t, item, cs[i])
    ensures forall j :: 0 <= j < i ==> GradeOrd(t, item, cs[j]) < GradeOrd(t, item, cs[i])
  {
    if |cs| == 1 then 0
    else
      var k := BestIndex(t, cs[1..], item) + 1;
      assert cs[k] == cs[1..][k - 1];
      assert forall j :: 0 < j < |cs| ==> cs[j] == cs[1..][j - 1];
      if GradeOrd(t, item, cs[0]) >= GradeOrd(t, item, cs[k]) then 0 else k
  }

  /**
   * `get_best_criterion`: `max` over the criteria by the item's rating, which returns the
   * first criterion carrying the highest rating.
   */
  function BestCriterion(t: Table, cs: seq<CriterionName>, item: Item): (r: CriterionName)
    requires |cs| > 0 && forall c :: c in cs ==> Rated(t, item, c)
    ensures r in cs
    ensures forall c :: c in cs ==> GradeOrd(t, item, c) <= GradeOrd(t, item, r)
  {
    cs[BestIndex(t, cs, item)]
  }

  // The anti-repetition check.

  datatype UsedOutcome = Unused | Used | Raises

  /** One round of `__argument_was_used` against a logged argument `u`. */
  predicate Clashes(u: Argument, a: Argument)
    reads u, a
  {
    u.item.name == a.item.name || u.couples == a.couples || u.comparisons == a.comparisons
  }

  /**
   * `__argument_was_used(a)`: scanning the log in order, a `None` entry raises (its
   * `.item` is dereferenced), a clashing entry means "used", and an exhausted log
   * means "unused".
   */
  function UsedScan(log: seq<Argument?>, a: Argument): UsedOutcome
    reads log, a
  {
    if log == [] then Unused
    else if log[0] == null then Raises
    else if Clashes(log[0], a) then Used
    else UsedScan(log[1..], a)
  }

  /**
   * The scan says "unused" exactly when every entry is present and clashes with nothing;
   * otherwise it stops at the first entry that is missing or clashes.
   */
  lemma {:induction false} UsedScanIsFirstStop(log: seq<Argument?>, a: Argument)
    ensures UsedScan(log, a) == Unused <==> forall i :: 0 <= i < |log| ==> log[i] != null && !Clashes(log[i], a)
    ensures UsedScan(log, a) != Unused ==>
              exists i :: 0 <= i < |log| && (log[i] == null <==> UsedScan(log, a) == Raises)
                          && (log[i] != null ==> Clashes(log[i], a))
                          && forall j :: 0 <= j < i ==> log[j] != null && !Clashes(log[j], a)
  {
    if log != [] && log[0] != null && !Clashes(log[0], a) {
      UsedScanIsFirstStop(log[1..], a);
      assert forall j :: 0 < j < |log| ==> log[j] == log[1..][j - 1];
      if UsedScan(log, a) != Unused {
        var i :| 0 <= i < |log[1..]| && (log[1..][i] == null <==> UsedScan(log, a) == Raises)
                 && (log[1..][i] != null ==> Clashes(log[1..][i], a))
                 && forall j :: 0 <= j < i ==> log[1..][j] != null && !Clashes(log[1..][j], a);
        assert log[i + 1] == log[1..][i];
      }
    }
  }

  /** The same scan for an argument whose couple list matches no logged one. */
  function ScanByItemOrComparisons(log: seq<Argument?>, itemName: string, comparisons: seq<Comparison>): UsedOutcome
    reads log
  {
    if log == [] then Unused
    else if log[0] == null then Raises
    else if log[0].item.name == itemName || log[0].comparisons == comparisons then Used
    else ScanByItemOrComparisons(log[1..], itemName, comparisons)
  }

  /**
   * Couple values have no `__eq__`, so an argument built from new couples never matches
   * a logged couple list; only the item and comparison clauses decide.
   */
  lemma {:induction false} NewCouplesNeverMatch(log: seq<Argument?>, a: Argument)
    requires forall i :: 0 <= i < |log| && log[i] != null ==> log[i].couples != a.couples
    ensures UsedScan(log, a) == ScanByItemOrComparisons(log, a.item.name, a.comparisons)
  {
    if log != [] && log[0] != null && !Clashes(log[0], a) {
      assert forall i :: 0 <= i < |log[1..]| ==> log[1..][i] == log[i + 1];
      NewCouplesNeverMatch(log[1..], a);
    }
  }

  /** Two arguments without comparisons always clash, whatever their items and couples. */
  lemma NoComparisonsClash(u: Argument, a: Argument)
    requires u.comparisons == [] && a.comparisons == []
    ensures Clashes(u, a)
  {
  }

  // The scan and the parsing as written.

  /**
   * The attributes an `Argument` of communication/arguments/argument.py answers to: its
   * two properties and its methods. Reading any other attribute raises AttributeError.
   */
  predicate IsArgumentAttribute(attr: string) {
    attr in ["decision", "item", "add_premiss_comparison", "add_premiss_couple_values",
             "get_decision", "get_premises_comparison", "get_premises_couple_values"]
  }

  /**
   * `__argument_was_used` exactly as written. After the item clause it reads
   * `premises_couple_values`, which is not an attribute of `Argument`, so the first
   * logged entry decides: `None` raises, the same item name means "used", and any other
   * entry raises AttributeError.
   */
  function UsedScanAsWritten(log: seq<Argument?>, a: Argument): UsedOutcome
    reads log, a
  {
    if log == [] then Unused
    else if log[0] == null then Raises
    else if log[0].item.name == a.item.name then Used
    else Raises
  }

  /**
   * As written, the scan never looks past the first entry and never answers "unused" for
   * a non-empty log; it agrees with the intended scan exactly when that entry is missing
   * or names the same item.
   */
  lemma UsedScanAsWrittenStopsAtHead(log: seq<Argument?>, a: Argument)
    ensures UsedScanAsWritten(log, a) == Unused <==> log == []
    ensures log != [] ==> UsedScanAsWritten(log, a) == UsedScanAsWritten(log[..1], a)
    ensures log == [] || log[0] == null || log[0].item.name == a.item.name ==>
              UsedScanAsWritten(log, a) == UsedScan(log, a)
  {
  }

  /**
   * The discrepancy: with one logged argument about another item and with other premises,
   * the scan as written raises where the intended scan answers "unused".
   */
  lemma UsedScanAsWrittenRaises(u: Argument, a: Argument)
    requires u.item.name != a.item.name && u.couples != a.couples && u.comparisons != a.comparisons
    ensures UsedScanAsWritten([u], a) == Raises
    ensures UsedScan([u], a) == Unused
  {
    assert [u][1..] == [];
  }

  /** The attributes `argument_parsing` reads, in order. */
  const ParsedAttributes: seq<string> := ["premises_comparison", "premises_couple_values", "item", "decision"]

  /**
   * The attribute reads of `argument_parsing` set against the class: its first two name
   * no attribute of `Argument`, so as written it raises AttributeError on every argument;
   * only the last two exist. This is a fact about the names alone, not a model of the
   * handler that calls it.
   */
  lemma ArgumentParsingRaises()
    ensures !IsArgumentAttribute(ParsedAttributes[0]) && !IsArgumentAttribute(ParsedAttributes[1])
    ensures IsArgumentAttribute(ParsedAttributes[2]) && IsArgumentAttribute(ParsedAttributes[3])
  {
  }

  // What support_proposal and attack_argument produce.

  datatype SupportResult = Supported(premise: Couple) | NoSupport | SupportRaises

  /**
   * `support_proposal(item)`: every candidate is a pro-argument on `item` with no
   * comparisons and a new couple, so the log either rejects all of them or accepts the
   * first: the result is the best supporting premise, nothing, or the scan's exception.
   */
  function SupportSpec(t: Table, item: Item, log: seq<Argument?>): SupportResult
    requires RatesAll(t, item)
    reads log
  {
    var sup := Supporting(t, item);
    if sup == [] then NoSupport
    else match ScanByItemOrComparisons(log, item.name, [])
      case Raises => SupportRaises
      case Used => NoSupport
      case Unused => Supported(sup[0])
  }

  /**
   * A supported proposal cites a criterion rated VERY_GOOD if there is one, otherwise one
   * rated GOOD, and among those the one ranked first.
   */
  lemma SupportCitesBestRanked(t: Table, item: Item, log: seq<Argument?>)
    requires RatesAll(t, item)
    ensures SupportSpec(t, item, log).Supported? && RatedAt(t, item, VeryGood) != [] ==>
              SupportSpec(t, item, log).premise == RatedAt(t, item, VeryGood)[0]
    ensures SupportSpec(t, item, log).Supported? && RatedAt(t, item, VeryGood) == [] ==>
              RatedAt(t, item, Good) != [] && SupportSpec(t, item, log).premise == RatedAt(t, item, Good)[0]
    ensures SupportSpec(t, item, log) == NoSupport <==>
              Supporting(t, item) == [] || ScanByItemOrComparisons(log, item.name, []) == Used
  {
    SupportingByGrade(t, item);
  }

  datatype AttackResult = Rebuttal(arg: ArgumentValue) | NoRebuttal | AttackRaises

  /** The ratings `attack_argument` reads for a premise on `item` exist. */
  ghost predicate AttackReadable(t: Table, items: seq<Item>, couples: seq<Couple>, item: Item, isChosen: bool) {
    RatesAll(t, item) && Complete(t, items)
    && (isChosen && couples != [] ==>
          Rated(t, item, couples[0].0) && forall it :: it in items ==> Rated(t, it, couples[0].0))
  }

  /**
   * `attack_argument(comparisons, couples, item, is_chosen)` of the newer agent. Only the
   * first couple premise is looked at. Against a pro-argument: the first criterion other
   * than the premise's that the agent rates below AVERAGE, cited with its rating and a
   * comparison over the premise's criterion, plus the premise criterion at the agent's own
   * rating when `criterion_is_bad`. Against a con-argument: the first criterion on which
   * the item beats min(GOOD, worst rating among the agent's items), likewise. Either is
   * dropped when the log already holds it.
   */
  function AttackSpec(t: Table, items: seq<Item>, log: seq<Argument?>, couples: seq<Couple>, item: Item, isChosen: bool): AttackResult
    requires |items| > 0
    requires AttackReadable(t, items, couples, item, isChosen)
    reads log
  {
    if couples == [] then NoRebuttal
    else
      var pc := couples[0].0;
      if isChosen then
        match FirstBadOther(t, t.ranking, item, pc)
        case None => NoRebuttal
        case Some(bad) =>
          var cmps := [Comparison(bad, pc)];
          match ScanByItemOrComparisons(log, item.name, cmps)
          case Raises => AttackRaises
          case Used => NoRebuttal
          case Unused =>
            var extra := if CriterionIsBad(t, couples[0], item) then [(pc, Grade(t, item, pc))] else [];
            Rebuttal(ArgumentValue(false, item, [(bad, Grade(t, item, bad))] + extra, cmps))
      else
        match FirstBeatsFloor(t, t.ranking, items, item)
        case None => NoRebuttal
        case Some(c) =>
          var cmps := [Comparison(c, pc)];
          match ScanByItemOrComparisons(log, item.name, cmps)
          case Raises => AttackRaises
          case Used => NoRebuttal
          case Unused => Rebuttal(ArgumentValue(true, item, [(c, Grade(t, item, c))], cmps))
  }

  /**
   * A rebuttal of a pro-argument is a con-argument on the same item, led by a ranked
   * criterion other than the premise's that the agent rates below AVERAGE, and no
   * criterion ranked before it qualifies. Conversely, once such a criterion exists, the
   * log alone decides between the rebuttal, nothing and the scan's exception.
   */
  lemma AttackOnProArgument(t: Table, items: seq<Item>, log: seq<Argument?>, couples: seq<Couple>, item: Item)
    requires |items| > 0 && AttackReadable(t, items, couples, item, true)
    ensures AttackSpec(t, items, log, couples, item, true).Rebuttal? ==>
              var v := AttackSpec(t, items, log, couples, item, true).arg;
              var bad := v.couples[0].0;
              !v.decision && v.item == item && 1 <= |v.couples| <= 2
              && v.comparisons == [Comparison(bad, couples[0].0)]
              && v.couples[0].1 == Grade(t, item, bad) && BadOther(t, item, couples[0].0, bad)
              && (exists i :: 0 <= i < |t.ranking| && t.ranking[i] == bad
                              && forall j :: 0 <= j < i ==> !BadOther(t, item, couples[0].0, t.ranking[j]))
              && (|v.couples| == 2 <==> CriterionIsBad(t, couples[0], item))
    ensures couples == [] || (forall c :: c in t.ranking ==> !BadOther(t, item, couples[0].0, c))
            ==> AttackSpec(t, items, log, couples, item, true) == NoRebuttal
    ensures couples != [] && FirstBadOther(t, t.ranking, item, couples[0].0).Some? ==>
              var cmps := [Comparison(FirstBadOther(t, t.ranking, item, couples[0].0).value, couples[0].0)];
              (AttackSpec(t, items, log, couples, item, true).Rebuttal? <==> ScanByItemOrComparisons(log, item.name, cmps) == Unused)
              && (AttackSpec(t, items, log, couples, item, true) == AttackRaises <==> ScanByItemOrComparisons(log, item.name, cmps) == Raises)
  {
    if couples != [] && forall c :: c in t.ranking ==> !BadOther(t, item, couples[0].0, c) {
      assert FirstBadOther(t, t.ranking, item, couples[0].0).None?;
    }
  }

  /**
   * A rebuttal of a con-argument is a pro-argument on the same item, citing the first
   * ranked criterion on which the item beats min(GOOD, the lowest rating of any item).
   * Conversely, once such a criterion exists, the log alone decides the outcome.
   */
  lemma AttackOnConArgument(t: Table, items: seq<Item>, log: seq<Argument?>, couples: seq<Couple>, item: Item)
    requires |items| > 0 && AttackReadable(t, items, couples, item, false)
    ensures AttackSpec(t, items, log, couples, item, false).Rebuttal? ==>
              var v := AttackSpec(t, items, log, couples, item, false).arg;
              var c := v.couples[0].0;
              v.decision && v.item == item && |v.couples| == 1
              && v.comparisons == [Comparison(c, couples[0].0)]
              && v.couples[0].1 == Grade(t, item, c) && BeatsFloor(t, items, item, c)
              && (exists i :: 0 <= i < |t.ranking| && t.ranking[i] == c
                              && forall j :: 0 <= j < i ==> !BeatsFloor(t, items, item, t.ranking[j]))
    ensures couples == [] || (forall c :: c in t.ranking ==> !BeatsFloor(t, items, item, c))
            ==> AttackSpec(t, items, log, couples, item, false) == NoRebuttal
    ensures couples != [] && FirstBeatsFloor(t, t.ranking, items, item).Some? ==>
              var cmps := [Comparison(FirstBeatsFloor(t, t.ranking, items, item).value, couples[0].0)];
              (AttackSpec(t, items, log, couples, item, false).Rebuttal? <==> ScanByItemOrComparisons(log, item.name, cmps) == Unused)
              && (AttackSpec(t, items, log, couples, item, false) == AttackRaises <==> ScanByItemOrComparisons(log, item.name, cmps) == Raises)
  {
    FirstBeatsFloorIsFirstMatch(t, t.ranking, items, item);
  }
}
