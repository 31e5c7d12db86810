/** The "criterion has value" premise of an argument. */
module CoupleValues {
  import opened Values
  import opened CriterionNames
  import opened Text

  /** `str(CoupleValue(c, v))`: `"<CRITERION_NAME> = <VALUE_NAME>"`. */
  function CoupleStr(c: CriterionName, v: Value): string {
    Name(c) + " = " + v.Name()
  }

  /** The string form identifies the premise: equal strings exactly for equal fields. */
  lemma CoupleStrInjective(c1: CriterionName, v1: Value, c2: CriterionName, v2: Value)
    ensures CoupleStr(c1, v1) == CoupleStr(c2, v2) <==> c1 == c2 && v1 == v2
  {
    CriterionNameIsWord(c1, c2);
    GradeNameIsWord(v1, v2);
    SeparatedInjective(Name(c1), v1.Name(), Name(c2), v2.Name(), " = ");
  }

  /**
   * Read-only fields and no `__eq__`: two couples are equal only when they are the
   * same object.
   */
  class CoupleValue {
    const criterionName: CriterionName
    const value: Value

    constructor (criterionName: CriterionName, value: Value)
      ensures this.criterionName == criterionName && this.value == value
    {
      this.criterionName := criterionName;
      this.value := value;
    }

    function Str(): string {
      CoupleStr(criterionName, value)
    }
  }

  /** Two couples built separately from the same fields are still different objects. */
  method SeparateCouplesDiffer(c: CriterionName, v: Value) returns (a: CoupleValue, b: CoupleValue)
    ensures a.criterionName == b.criterionName == c && a.value == b.value == v
    ensures a != b
  {
    a := new CoupleValue(c, v);
    b := new CoupleValue(c, v);
  }

  /** The (criterion, value) contents of a list of couples. */
  function Contents(cs: seq<CoupleValue>): (r: seq<(CriterionName, Value)>)
    ensures |r| == |cs|
    ensures forall i :: 0 <= i < |cs| ==> r[i] == (cs[i].criterionName, cs[i].value)
  {
    if cs == [] then [] else [(cs[0].criterionName, cs[0].value)] + Contents(cs[1..])
  }

  /** The contents of a concatenation are the concatenated contents. */
  lemma ContentsAppend(a: seq<CoupleValue>, b: seq<CoupleValue>)
    ensures Contents(a + b) == Contents(a) + Contents(b)
  {
    assert |Contents(a + b)| == |Contents(a) + Contents(b)|;
    forall i | 0 <= i < |a + b| ensures Contents(a + b)[i] == (Contents(a) + Contents(b))[i] {
      if i < |a| {
        assert (a + b)[i] == a[i];
      } else {
        assert (a + b)[i] == b[i - |a|];
      }
    }
  }

  /** One new couple object per (criterion, value) pair, in order: the `[CoupleValue(...) for ...]` comprehension. */
  method NewCouples(ps: seq<(CriterionName, Value)>) returns (r: seq<CoupleValue>)
    ensures Contents(r) == ps
    ensures forall i :: 0 <= i < |r| ==> fresh(r[i])
  {
    r := [];
    var i := 0;
    while i < |ps|
      invariant 0 <= i <= |ps|
      invariant |r| == i
      invariant forall j :: 0 <= j < i ==> (r[j].criterionName, r[j].value) == ps[j]
      invariant forall j :: 0 <= j < i ==> fresh(r[j])
    {
      var cv := new CoupleValue(ps[i].0, ps[i].1);
      r := r + [cv];
      i := i + 1;
    }
  }
}
