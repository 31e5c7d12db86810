/**
 * `convinced_agents`: an insertion-ordered dictionary from agent name to "has agreed".
 * Assigning a present key keeps its position; a new key goes to the end.
 */
module ConvincedFlags {
  import opened Wrappers

  type Flags = seq<(string, bool)>

  function Keys(f: Flags): (ks: seq<string>)
    ensures |ks| == |f|
    ensures forall i :: 0 <= i < |f| ==> ks[i] == f[i].0
  {
    if f == [] then [] else [f[0].0] + Keys(f[1..])
  }

  /** No agent name occurs twice. */
  predicate DistinctKeys(f: Flags) {
    f == [] || (f[0].0 !in Keys(f[1..]) && DistinctKeys(f[1..]))
  }

  /** `f.get(k)`. */
  function Get(f: Flags, k: string): (r: Option<bool>)
    ensures r.None? <==> k !in Keys(f)
    ensures r.Some? ==> (k, r.value) in f
  {
    if f == [] then None else if f[0].0 == k then Some(f[0].1) else Get(f[1..], k)
  }

  /** `f[k] = b`. */
  function Set(f: Flags, k: string, b: bool): (r: Flags)
    ensures Keys(r) == if k in Keys(f) then Keys(f) else Keys(f) + [k]
    ensures |r| > 0
    ensures Get(r, k) == Some(b)
  {
    if f == [] then [(k, b)]
    else if f[0].0 == k then [(k, b)] + f[1..]
    else
      var r := [f[0]] + Set(f[1..], k, b);
      assert r[1..] == Set(f[1..], k, b);
      r
  }

  /** Assignment leaves every other key's flag as it was. */
  lemma {:induction false} SetOthers(f: Flags, k: string, b: bool, k': string)
    requires k' != k
    ensures Get(Set(f, k, b), k') == Get(f, k')
  {
    if f != [] && f[0].0 != k {
      var r := Set(f, k, b);
      assert r[1..] == Set(f[1..], k, b);
      SetOthers(f[1..], k, b, k');
    }
  }

  /** Assignment keeps the keys distinct. */
  lemma {:induction false} SetKeepsDistinct(f: Flags, k: string, b: bool)
    requires DistinctKeys(f)
    ensures DistinctKeys(Set(f, k, b))
  {
    var r := Set(f, k, b);
    if f == [] {
    } else if f[0].0 == k {
      assert r[1..] == f[1..];
    } else {
      assert r[1..] == Set(f[1..], k, b);
      SetKeepsDistinct(f[1..], k, b);
    }
  }

  /** `reduce(lambda x, y: x and y, f.values())`: every agent has agreed; reduce needs a value. */
  function AllTrue(f: Flags): (r: bool)
    requires |f| > 0
    ensures r <==> forall i :: 0 <= i < |f| ==> f[i].1
  {
    if |f| == 1 then f[0].1
    else
      var rest := AllTrue(f[1..]);
      assert (forall i :: 0 <= i < |f| ==> f[i].1) <==> f[0].1 && forall i :: 0 <= i < |f[1..]| ==> f[1..][i].1 by {
        if f[0].1 && forall i :: 0 <= i < |f[1..]| ==> f[1..][i].1 {
          forall i | 0 < i < |f| ensures f[i].1 {
            assert f[i] == f[1..][i - 1];
          }
        }
      }
      f[0].1 && rest
  }

  /** `{agent: False for agent in f.keys()}`. */
  function ResetAll(f: Flags): (r: Flags)
    ensures Keys(r) == Keys(f)
  {
    if f == [] then [] else
      var r := [(f[0].0, false)] + ResetAll(f[1..]);
      assert r[1..] == ResetAll(f[1..]);
      r
  }

  /** After a reset, every tracked agent's flag reads false. */
  lemma {:induction false} ResetGet(f: Flags, k: string)
    ensures Get(ResetAll(f), k) == if k in Keys(f) then Some(false) else None
  {
    if f != [] {
      var r := ResetAll(f);
      assert r[1..] == ResetAll(f[1..]);
      assert Keys(f) == [f[0].0] + Keys(f[1..]);
      ResetGet(f[1..], k);
    }
  }

  /** Resetting keeps the keys distinct. */
  lemma {:induction false} ResetKeepsDistinct(f: Flags)
    requires DistinctKeys(f)
    ensures DistinctKeys(ResetAll(f))
  {
    if f != [] {
      var r := ResetAll(f);
      assert r[1..] == ResetAll(f[1..]);
      ResetKeepsDistinct(f[1..]);
    }
  }

  /** A dictionary built by assigning `b` to each name in turn, starting from `{}`. */
  function FlagsFor(names: seq<string>, b: bool): (r: Flags)
    ensures DistinctKeys(r)
    decreases |names|
  {
    if names == [] then []
    else
      var init := names[..|names| - 1];
      var last := names[|names| - 1];
      assert names == init + [last];
      SetKeepsDistinct(FlagsFor(init, b), last, b);
      Set(FlagsFor(init, b), last, b)
  }

  /** Building for one more name is one more assignment. */
  lemma FlagsForSnoc(names: seq<string>, x: string, b: bool)
    ensures FlagsFor(names + [x], b) == Set(FlagsFor(names, b), x, b)
  {
    assert (names + [x])[..|names|] == names;
  }

  /** The built dictionary holds `b` for exactly the given names. */
  lemma {:induction false} FlagsForGet(names: seq<string>, b: bool, k: string)
    ensures Get(FlagsFor(names, b), k) == if k in names then Some(b) else None
    decreases |names|
  {
    if names != [] {
      var init := names[..|names| - 1];
      var last := names[|names| - 1];
      assert names == init + [last];
      FlagsForSnoc(init, last, b);
      FlagsForGet(init, b, k);
      if k != last {
        SetOthers(FlagsFor(init, b), last, b, k);
      }
    }
  }

  /** After a reset, a non-empty dictionary is not all-true until some flag is set again. */
  lemma ResetBlocksCommit(f: Flags)
    requires |f| > 0
    ensures |ResetAll(f)| > 0 && !AllTrue(ResetAll(f))
  {
    var r := ResetAll(f);
    assert |Keys(r)| == |Keys(f)|;
    assert Keys(f)[0] in Keys(f);
    ResetGet(f, f[0].0);
    assert Get(r, r[0].0) == Some(false);
  }

  /** Every tracked agent other than `k` has agreed. */
  predicate OthersAgreed(f: Flags, k: string) {
    forall k' :: k' in Keys(f) && k' != k ==> Get(f, k') == Some(true)
  }

  /** Setting a flag to true makes the dictionary all-true exactly when every other flag already was. */
  lemma {:induction false} SetCompletes(f: Flags, k: string)
    requires DistinctKeys(f)
    ensures AllTrue(Set(f, k, true)) <==> OthersAgreed(f, k)
  {
    AllTrueOthers(f, k);
    OthersAllTrue(f, k);
  }

  lemma {:induction false} AllTrueOthers(f: Flags, k: string)
    requires DistinctKeys(f)
    ensures AllTrue(Set(f, k, true)) ==> OthersAgreed(f, k)
  {
    var r := Set(f, k, true);
    SetKeepsDistinct(f, k, true);
    if AllTrue(r) {
      forall k' | k' in Keys(f) && k' != k ensures Get(f, k') == Some(true) {
        assert k' in Keys(r);
        var i :| 0 <= i < |r| && Keys(r)[i] == k';
        GetDistinct(r, i);
        SetOthers(f, k, true, k');
      }
    }
  }

  lemma {:induction false} OthersAllTrue(f: Flags, k: string)
    requires DistinctKeys(f)
    ensures OthersAgreed(f, k) ==> AllTrue(Set(f, k, true))
  {
    var r := Set(f, k, true);
    SetKeepsDistinct(f, k, true);
    if OthersAgreed(f, k) {
      forall i | 0 <= i < |r| ensures r[i].1 {
        GetDistinct(r, i);
        assert Keys(r)[i] == r[i].0;
        if r[i].0 != k {
          assert r[i].0 in Keys(f);
          SetOthers(f, k, true, r[i].0);
        }
      }
    }
  }

  /** In a dictionary with distinct keys, looking up an entry's key finds that entry. */
  lemma {:induction false} GetDistinct(f: Flags, i: int)
    requires DistinctKeys(f) && 0 <= i < |f|
    ensures Get(f, f[i].0) == Some(f[i].1)
  {
    if i > 0 {
      assert Keys(f[1..])[i - 1] == f[i].0;
      GetDistinct(f[1..], i - 1);
    }
  }
}
