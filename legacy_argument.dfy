/**
 * The older Argument class (`Argument.py`): the same polarity, item and two growing
 * premise lists as the newer one, a broken `item` property, and the two static
 * premise-list builders over a preferences table.
 */
module LegacyArguments {
  import opened Wrappers
  import opened Items
  import opened CoupleValues
  import opened Comparisons
  import opened Preferences
  import opened Premises
  import Arguments

  class Argument {
    const decision: bool
    /** The private `__item` the constructor stores. */
    const item: Item
    var comparisons: seq<Comparison>
    var couples: seq<CoupleValue>

    /** A new argument has its polarity and item and no premises. */
    constructor (decision: bool, item: Item)
      ensures this.decision == decision && this.item == item
      ensures comparisons == [] && couples == []
    {
      this.decision := decision;
      this.item := item;
      comparisons := [];
      couples := [];
    }

    /** The `item` property: its body is a docstring only, so it yields `None`. */
    function ItemProperty(): Option<Item> {
      None
    }

    /** `get_item`: the stored item. */
    function GetItem(): Item {
      item
    }

    /** `add_premiss_comparison`: one more comparison at the end; nothing else changes. */
    method AddPremissComparison(c: Comparison)
      modifies this
      ensures comparisons == old(comparisons) + [c]
      ensures couples == old(couples)
    {
      comparisons := comparisons + [c];
    }

    /** `add_premiss_couple_values`: one more couple at the end; nothing else changes. */
    method AddPremissCoupleValues(cv: CoupleValue)
      modifies this
      ensures couples == old(couples) + [cv]
      ensures comparisons == old(comparisons)
    {
      couples := couples + [cv];
    }

    /**
     * `__str__`: the same layout as the newer argument's, with the item's name (read
     * through `get_name`, taken to be the name field).
     */
    function Str(): string
      reads this
    {
      Arguments.ArgumentStr(decision, item.name, Arguments.CoupleStrs(couples), Arguments.ComparisonStrs(comparisons))
    }
  }

  /** Reading the `item` property never gives back the item `get_item` returns. */
  lemma ItemPropertyLosesItem(a: Argument)
    ensures a.ItemProperty() != Some(a.GetItem())
    ensures a.GetItem() == a.item
  {
  }

  /**
   * `list_supporting_proposal(item, preferences)`: a new couple object for each ranked
   * criterion the item is rated GOOD or better on, best rated first. Called with no
   * item, the first criterion's lookup finds no rating and dereferencing it raises; with
   * no criterion at all the list is empty.
   */
  method ListSupportingProposal(item: Option<Item>, t: Table) returns (cs: seq<CoupleValue>, raised: bool)
    requires item.Some? ==> RatesAll(t, item.value)
    ensures raised <==> item.None? && t.ranking != []
    ensures !raised ==> Contents(cs) == if item.Some? then Supporting(t, item.value) else []
    ensures forall i :: 0 <= i < |cs| ==> fresh(cs[i])
  {
    match item
    case None =>
      cs, raised := [], t.ranking != [];
    case Some(it) =>
      cs := NewCouples(Supporting(t, it));
      raised := false;
  }

  /**
   * `list_attacking_proposal(item, preferences)`: a new couple object for each ranked
   * criterion the item is rated below GOOD on, best rated first; with no item it raises
   * as the supporting list does.
   */
  method ListAttackingProposal(item: Option<Item>, t: Table) returns (cs: seq<CoupleValue>, raised: bool)
    requires item.Some? ==> RatesAll(t, item.value)
    ensures raised <==> item.None? && t.ranking != []
    ensures !raised ==> Contents(cs) == if item.Some? then Attacking(t, item.value) else []
    ensures forall i :: 0 <= i < |cs| ==> fresh(cs[i])
  {
    match item
    case None =>
      cs, raised := [], t.ranking != [];
    case Some(it) =>
      cs := NewCouples(Attacking(t, it));
      raised := false;
  }
}
