/** The "best criterion outweighs worst criterion" premise of an argument. */
module Comparisons {
  import opened CriterionNames
  import opened Text

  /** Built best first, worst second; compared by contents. */
  datatype Comparison = Comparison(best: CriterionName, worst: CriterionName)

  /** The right operand of `==`: a Comparison or an object of any other class. */
  datatype Operand = ComparisonOperand(c: Comparison) | OtherObject

  /** `__eq__`: false for a non-Comparison, otherwise both criteria must agree. */
  function Equals(a: Comparison, o: Operand): (r: bool)
    ensures r <==> o == ComparisonOperand(a)
  {
    o.ComparisonOperand? && a.best == o.c.best && a.worst == o.c.worst
  }

  /** `__eq__` is an equivalence on comparisons. */
  lemma EqualsIsEquivalence(a: Comparison, b: Comparison, c: Comparison)
    ensures Equals(a, ComparisonOperand(a))
    ensures Equals(a, ComparisonOperand(b)) ==> Equals(b, ComparisonOperand(a))
    ensures Equals(a, ComparisonOperand(b)) && Equals(b, ComparisonOperand(c)) ==> Equals(a, ComparisonOperand(c))
  {
  }

  /** `str(comparison)`: `"<WORST> <= <BEST>"`. */
  function ComparisonStr(cmp: Comparison): string {
    Name(cmp.worst) + " <= " + Name(cmp.best)
  }

  /** The string form identifies the comparison, including which side is best. */
  lemma ComparisonStrInjective(a: Comparison, b: Comparison)
    ensures ComparisonStr(a) == ComparisonStr(b) <==> a == b
  {
    CriterionNameIsWord(a.worst, b.worst);
    CriterionNameIsWord(a.best, b.best);
    SeparatedInjective(Name(a.worst), Name(a.best), Name(b.worst), Name(b.best), " <= ");
  }
}
