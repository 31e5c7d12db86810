/** String helpers for the `__str__` forms of premises and arguments. */
module Text {
  /** `sep.join(parts)`. */
  function Join(parts: seq<string>, sep: string): string {
    if parts == [] then ""
    else if |parts| == 1 then parts[0]
    else parts[0] + sep + Join(parts[1..], sep)
  }

  /** Joining two lists puts the separator between them exactly when both are non-empty. */
  lemma {:induction false} JoinAppend(a: seq<string>, b: seq<string>, sep: string)
    ensures Join(a + b, sep) == Join(a, sep) + (if a != [] && b != [] then sep else "") + Join(b, sep)
  {
    if a == [] {
      assert a + b == b;
    } else if |a| == 1 {
      if b == [] {
        assert a + b == a;
      } else {
        assert (a + b)[1..] == b;
      }
    } else {
      assert (a + b)[1..] == a[1..] + b;
      JoinAppend(a[1..], b, sep);
    }
  }

  predicate NoSpace(s: string) {
    forall i :: 0 <= i < |s| ==> s[i] != ' '
  }

  /** The number of leading characters before the first space (or the whole length). */
  function LeadingWord(s: string): (n: nat)
    ensures n <= |s|
  {
    if s == [] || s[0] == ' ' then 0 else 1 + LeadingWord(s[1..])
  }

  lemma {:induction false} LeadingWordOf(a: string, rest: string)
    requires NoSpace(a) && |rest| > 0 && rest[0] == ' '
    ensures LeadingWord(a + rest) == |a|
  {
    if a == [] {
      assert a + rest == rest;
    } else {
      assert (a + rest)[1..] == a[1..] + rest;
      LeadingWordOf(a[1..], rest);
    }
  }

  /**
   * A word without spaces, a separator starting with a space and a tail: the word and
   * the tail can be read back from the whole.
   */
  lemma SeparatedInjective(a1: string, b1: string, a2: string, b2: string, sep: string)
    requires NoSpace(a1) && NoSpace(a2) && |sep| > 0 && sep[0] == ' '
    ensures a1 + sep + b1 == a2 + sep + b2 <==> a1 == a2 && b1 == b2
  {
    var s1, s2 := a1 + sep + b1, a2 + sep + b2;
    LeadingWordOf(a1, sep + b1);
    LeadingWordOf(a2, sep + b2);
    assert s1 == a1 + (sep + b1) && s2 == a2 + (sep + b2);
    if s1 == s2 {
      assert a1 == s1[..|a1|];
      assert a2 == s2[..|a2|];
      assert b1 == s1[|a1| + |sep|..];
      assert b2 == s2[|a2| + |sep|..];
    }
  }
}
