/**
 * An argument for (decision true) or against (decision false) an item, with two
 * premise lists that only grow.
 */
module Arguments {
  import opened Items
  import opened Values
  import opened CriterionNames
  import opened CoupleValues
  import opened Comparisons
  import opened Text

  /** What an Argument holds, with each couple read as its (criterion, value) pair. */
  datatype ArgumentValue = ArgumentValue(
    decision: bool,
    item: Item,
    couples: seq<(CriterionName, Value)>,
    comparisons: seq<Comparison>)

  /**
   * `str(argument)`: an optional `¬`, the item name, an arrow, the couples and then the
   * comparisons. The comma between the two lists appears only when both are non-empty,
   * so the premises read as one comma-separated list.
   */
  function ArgumentStr(decision: bool, itemName: string, couples: seq<string>, comparisons: seq<string>): (s: string)
    ensures s == (if decision then "" else "¬") + itemName + " ← " + Join(couples + comparisons, ", ")
  {
    JoinAppend(couples, comparisons, ", ");
    (if decision then "" else "¬") + itemName + " ← "
    + Join(couples, ", ")
    + (if |couples| > 0 && |comparisons| > 0 then ", " else "")
    + Join(comparisons, ", ")
  }

  /** The `¬` prefix marks exactly the arguments against the item. */
  lemma ArgumentStrPolarity(decision: bool, itemName: string, couples: seq<string>, comparisons: seq<string>)
    requires itemName == [] || itemName[0] != '¬'
    ensures |ArgumentStr(decision, itemName, couples, comparisons)| > 0
    ensures ArgumentStr(decision, itemName, couples, comparisons)[0] == '¬' <==> !decision
  {
    var tail := itemName + " ← " + Join(couples + comparisons, ", ");
    assert ArgumentStr(decision, itemName, couples, comparisons) == (if decision then "" else "¬") + tail;
    if itemName == [] {
      assert tail[0] == ' ';
    } else {
      assert tail[0] == itemName[0];
    }
  }

  function CoupleStrs(cs: seq<CoupleValue>): (r: seq<string>)
    ensures |r| == |cs|
  {
    if cs == [] then [] else [cs[0].Str()] + CoupleStrs(cs[1..])
  }

  function ComparisonStrs(cs: seq<Comparison>): (r: seq<string>)
    ensures |r| == |cs|
  {
    if cs == [] then [] else [ComparisonStr(cs[0])] + ComparisonStrs(cs[1..])
  }

  class Argument {
    const decision: bool
    const item: Item
    var comparisons: seq<Comparison>
    var couples: seq<CoupleValue>

    /** A new argument has its polarity and item and no premises. */
    constructor (decision: bool, item: Item)
      ensures this.decision == decision && this.item == item
      ensures comparisons == [] && couples == []
    {
      this.decision := decision;
      this.item := item;
      comparisons := [];
      couples := [];
    }

    function View(): ArgumentValue
      reads this
    {
      ArgumentValue(decision, item, Contents(couples), comparisons)
    }

    /** `add_premiss_comparison`: one more comparison at the end; nothing else changes. */
    method AddPremissComparison(c: Comparison)
      modifies this
      ensures comparisons == old(comparisons) + [c]
      ensures couples == old(couples)
    {
      comparisons := comparisons + [c];
    }

    /** `add_premiss_couple_values`: one more couple at the end; nothing else changes. */
    method AddPremissCoupleValues(cv: CoupleValue)
      modifies this
      ensures couples == old(couples) + [cv]
      ensures comparisons == old(comparisons)
    {
      couples := couples + [cv];
    }

    function Str(): string
      reads this
    {
      ArgumentStr(decision, item.name, CoupleStrs(couples), ComparisonStrs(comparisons))
    }
  }
}
