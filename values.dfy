/**
 * The ordinal grade scale and the negotiated items. The source's value.py and
 * item.py are not part of this model: a Value is one of five ordered grades and
 * an Item is identified by its fields; an item's score under an agent's
 * preferences is supplied from outside as a function.
 */
module Values {
  import opened Text

  /** Grades in increasing order; `Ord` is the grade's position on the scale. */
  datatype Value = VeryBad | Bad | Average | Good | VeryGood {
    function Ord(): (n: nat)
      ensures n <= 4
    {
      match this
      case VeryBad => 0
      case Bad => 1
      case Average => 2
      case Good => 3
      case VeryGood => 4
    }

    /** The enum member name, as `Value.X.name` prints it. */
    function Name(): string {
      match this
      case VeryBad => "VERY_BAD"
      case Bad => "BAD"
      case Average => "AVERAGE"
      case Good => "GOOD"
      case VeryGood => "VERY_GOOD"
    }
  }

  /** `Ord` is an order embedding: distinct grades have distinct positions. */
  lemma OrdInjective(a: Value, b: Value)
    ensures a.Ord() == b.Ord() <==> a == b
  {
  }

  /** Grade names are single words, and distinct grades have distinct names. */
  lemma GradeNameIsWord(a: Value, b: Value)
    ensures NoSpace(a.Name())
    ensures a.Name() == b.Name() <==> a == b
  {
  }

  function Min(a: int, b: int): int { if a <= b then a else b }
  function Max(a: int, b: int): int { if a >= b then a else b }
}

module Items {
  /** A candidate outcome; identity is by value. */
  datatype Item = Item(name: string, description: string)

  /** `item.get_score(preferences)` for one agent's preferences (not modelled). */
  type Scorer = Item -> int
}
