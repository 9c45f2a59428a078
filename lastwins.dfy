/** The map obtained by inserting the elements of a list one after another,
    in list order, with `m[key(x)] = val(x)`: a later element overwrites an
    earlier one with the same key. */
module LastWins {

  function Build<T, K(==), V>(xs: seq<T>, key: T -> K, val: T -> V): map<K, V>
    decreases |xs|
  {
    if xs == [] then map[]
    else Build(xs[..|xs| - 1], key, val)[key(xs[|xs| - 1]) := val(xs[|xs| - 1])]
  }

  /** Element `i` is the last one in `xs` with its key. */
  predicate IsLast<T, K(==)>(xs: seq<T>, key: T -> K, i: int) {
    0 <= i < |xs| && forall j :: i < j < |xs| ==> key(xs[j]) != key(xs[i])
  }

  /** The keys of the map are exactly the keys of the list's elements. */
  lemma {:induction false} BuildKeys<T, K, V>(xs: seq<T>, key: T -> K, val: T -> V)
    ensures Build(xs, key, val).Keys == set i | 0 <= i < |xs| :: key(xs[i])
    decreases |xs|
  {
    if xs != [] {
      var init := xs[..|xs| - 1];
      BuildKeys(init, key, val);
      assert forall i :: 0 <= i < |init| ==> init[i] == xs[i];
    }
  }

  /** Each key maps to the value of the last element carrying that key. */
  lemma {:induction false} BuildLast<T, K, V>(xs: seq<T>, key: T -> K, val: T -> V, i: int)
    requires IsLast(xs, key, i)
    ensures key(xs[i]) in Build(xs, key, val)
    ensures Build(xs, key, val)[key(xs[i])] == val(xs[i])
    decreases |xs|
  {
    if i < |xs| - 1 {
      var init := xs[..|xs| - 1];
      assert init[i] == xs[i];
      assert IsLast(init, key, i) by {
        forall j | i < j < |init| ensures key(init[j]) != key(init[i]) {
          assert init[j] == xs[j];
        }
      }
      BuildLast(init, key, val, i);
    }
  }

  /** Every key of the map is the key of some last element. */
  lemma {:induction false} BuildHasLast<T, K, V>(xs: seq<T>, key: T -> K, val: T -> V, k: K)
    requires k in Build(xs, key, val)
    ensures exists i :: IsLast(xs, key, i) && key(xs[i]) == k
    decreases |xs|
  {
    var n := |xs| - 1;
    if key(xs[n]) == k {
      assert IsLast(xs, key, n);
    } else {
      var init := xs[..n];
      BuildHasLast(init, key, val, k);
      var i :| IsLast(init, key, i) && key(init[i]) == k;
      assert init[i] == xs[i];
      assert IsLast(xs, key, i) by {
        forall j | i < j < |xs| ensures key(xs[j]) != key(xs[i]) {
          if j < n { assert init[j] == xs[j]; }
        }
      }
    }
  }
}
