/** A rating record: an item's grade on one criterion; only the grade can change. */
module CriterionValues {
  import opened Items
  import opened Values
  import opened CriterionNames

  class CriterionValue {
    const item: Item
    const criterionName: CriterionName
    var value: Value

    constructor (item: Item, criterionName: CriterionName, value: Value)
      ensures this.item == item && this.criterionName == criterionName && this.value == value
    {
      this.item := item;
      this.criterionName := criterionName;
      this.value := value;
    }

    /** The `value` setter: overwrites the grade; item and criterion are constants. */
    method SetValue(value: Value)
      modifies this
      ensures this.value == value
    {
      this.value := value;
    }
  }
}
