/** The enumeration order of a JavaScript object whose keys are non-negative integers (ids
    below 2^32 - 1): `Object.keys` and `Object.values` list such keys in ascending numeric
    order, whatever order they were added in. */
module JsObject {

  predicate StrictlyIncreasing(ks: seq<nat>) {
    forall i, j :: 0 <= i < j < |ks| ==> ks[i] < ks[j]
  }

  /** The key list after `k` is added to an object whose key list is `ks`. */
  function InsertKey(ks: seq<nat>, k: nat): (r: seq<nat>)
    requires StrictlyIncreasing(ks)
    ensures StrictlyIncreasing(r)
    ensures forall x :: x in r <==> x in ks || x == k
    ensures k in ks ==> r == ks
    ensures k !in ks ==> |r| == |ks| + 1
  {
    if ks == [] then [k]
    else if k < ks[0] then [k] + ks
    else if k == ks[0] then ks
    else
      var t := InsertKey(ks[1..], k);
      InsertKeyStep(ks, k, t);
      [ks[0]] + t
  }

  /** Putting a smaller key in front of the key list of the rest keeps `InsertKey`'s
      promises. */
  lemma InsertKeyStep(ks: seq<nat>, k: nat, t: seq<nat>)
    requires StrictlyIncreasing(ks) && ks != [] && ks[0] < k
    requires StrictlyIncreasing(t)
    requires forall x :: x in t <==> x in ks[1..] || x == k
    requires k in ks[1..] ==> t == ks[1..]
    requires k !in ks[1..] ==> |t| == |ks[1..]| + 1
    ensures StrictlyIncreasing([ks[0]] + t)
    ensures forall x :: x in [ks[0]] + t <==> x in ks || x == k
    ensures k in ks ==> [ks[0]] + t == ks
    ensures k !in ks ==> |[ks[0]] + t| == |ks| + 1
  {
    assert forall x :: x in ks <==> x == ks[0] || x in ks[1..];
    assert ks == [ks[0]] + ks[1..];
    forall i, j | 0 <= i < j < |[ks[0]] + t| ensures ([ks[0]] + t)[i] < ([ks[0]] + t)[j] {
      if i == 0 {
        assert t[j - 1] in t;
      }
    }
  }

  /** The sum of `f` over the keys `ks`. */
  function SumOver(ks: seq<nat>, f: nat -> nat): nat {
    if ks == [] then 0 else f(ks[0]) + SumOver(ks[1..], f)
  }

  /** Adding a new key adds its term to the sum. */
  lemma {:induction false} SumOverInsert(ks: seq<nat>, k: nat, f: nat -> nat)
    requires StrictlyIncreasing(ks) && k !in ks
    ensures SumOver(InsertKey(ks, k), f) == SumOver(ks, f) + f(k)
  {
    if ks != [] && k > ks[0] {
      SumOverInsert(ks[1..], k, f);
      assert InsertKey(ks, k)[1..] == InsertKey(ks[1..], k);
    }
  }

  /** Two functions that agree on every key have the same sum. */
  lemma {:induction false} SumOverAgree(ks: seq<nat>, f: nat -> nat, g: nat -> nat)
    requires forall x :: x in ks ==> f(x) == g(x)
    ensures SumOver(ks, f) == SumOver(ks, g)
  {
    if ks != [] {
      SumOverAgree(ks[1..], f, g);
    }
  }

  /** Raising one key's term by `d` raises the sum over distinct keys by `d`. */
  lemma {:induction false} SumOverBump(ks: seq<nat>, k: nat, f: nat -> nat, g: nat -> nat, d: nat)
    requires StrictlyIncreasing(ks) && k in ks
    requires g(k) == f(k) + d
    requires forall x :: x in ks && x != k ==> f(x) == g(x)
    ensures SumOver(ks, g) == SumOver(ks, f) + d
  {
    if ks[0] == k {
      assert k !in ks[1..];
      SumOverAgree(ks[1..], f, g);
    } else {
      SumOverBump(ks[1..], k, f, g, d);
    }
  }

  /** Setting key `k` of an object while raising its term by `d`: the sum over the new key
      list grows by `d`, whether `k` was a key before or is a new one whose old term was 0. */
  lemma SumOverStep(ks: seq<nat>, k: nat, f: nat -> nat, g: nat -> nat, d: nat)
    requires StrictlyIncreasing(ks)
    requires forall x :: g(x) == f(x) + (if x == k then d else 0)
    requires k !in ks ==> f(k) == 0
    ensures SumOver(InsertKey(ks, k), g) == SumOver(ks, f) + d
  {
    if k in ks {
      SumOverBump(ks, k, f, g, d);
    } else {
      SumOverAgree(ks, f, g);
      SumOverInsert(ks, k, g);
    }
  }

  /** The key list of an object after the integer keys `ids` have been set in this order. */
  function KeyList(ids: seq<nat>): (ks: seq<nat>)
    ensures StrictlyIncreasing(ks)
  {
    if ids == [] then [] else InsertKey(KeyList(ids[..|ids| - 1]), ids[|ids| - 1])
  }

  /** Each key that was set is listed, and nothing else. */
  lemma {:induction false} KeyListMembers(ids: seq<nat>)
    ensures forall k :: k in KeyList(ids) <==> k in ids
  {
    if ids != [] {
      var init := ids[..|ids| - 1];
      assert ids == init + [ids[|ids| - 1]];
      KeyListMembers(init);
    }
  }

  lemma KeyListSnoc(ids: seq<nat>, k: nat)
    ensures KeyList(ids + [k]) == InsertKey(KeyList(ids), k)
  {
    var s := ids + [k];
    assert s[..|s| - 1] == ids;
  }

  /** `Object.values(dict)` for an object whose key list is `ks`. */
  method Values<V>(dict: map<nat, V>, ks: seq<nat>) returns (vs: seq<V>)
    requires forall n :: 0 <= n < |ks| ==> ks[n] in dict
    ensures |vs| == |ks|
    ensures forall n :: 0 <= n < |ks| ==> vs[n] == dict[ks[n]]
  {
    vs := [];
    var j := 0;
    while j < |ks|
      invariant 0 <= j <= |ks|
      invariant |vs| == j
      invariant forall n :: 0 <= n < j ==> vs[n] == dict[ks[n]]
    {
      vs := vs + [dict[ks[j]]];
      j := j + 1;
    }
  }

}
