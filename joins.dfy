/** The two ways the exports resolve a foreign key: an id-keyed dictionary
    (whole-account export) and a linear first-match search (per-lock export). */
module Joins {
  import opened Common

  /** No later element of `xs` has the same key as `xs[i]`. */
  predicate LastWithKey<T>(xs: seq<T>, key: T -> string, i: int)
    requires 0 <= i < |xs|
  {
    forall j :: i < j < |xs| ==> key(xs[j]) != key(xs[i])
  }

  /** No two elements of `xs` share a key. */
  predicate UniqueKeys<T>(xs: seq<T>, key: T -> string)
  {
    forall i, j :: 0 <= i < j < |xs| ==> key(xs[i]) != key(xs[j])
  }

  /** `m` is `{key(x): x for x in xs}`: every key that occurs is present, and
      an element no later element shares its key with is the one stored. */
  ghost predicate IsIndexOf<T>(xs: seq<T>, key: T -> string, m: map<string, T>)
  {
    && (forall k :: k in m <==> exists i :: 0 <= i < |xs| && key(xs[i]) == k)
    && (forall i :: 0 <= i < |xs| && LastWithKey(xs, key, i) ==> key(xs[i]) in m && m[key(xs[i])] == xs[i])
  }

  /** `{key(x): x for x in xs}`; a key that occurs more than once maps to its
      last occurrence. */
  function IndexById<T>(xs: seq<T>, key: T -> string): (m: map<string, T>)
    ensures IsIndexOf(xs, key, m)
  {
    if xs == [] then map[]
    else
      var n := |xs| - 1;
      assert xs[..n] + [xs[n]] == xs;
      var m' := IndexById(xs[..n], key);
      IndexBySnoc(xs[..n], xs[n], key, m');
      m'[key(xs[n]) := xs[n]]
  }

  /** Adding one more element to an index of the others gives an index of
      the longer sequence. */
  lemma IndexBySnoc<T>(init: seq<T>, x: T, key: T -> string, m': map<string, T>)
    requires IsIndexOf(init, key, m')
    ensures IsIndexOf(init + [x], key, m'[key(x) := x])
  {
    var xs, m := init + [x], m'[key(x) := x];
    forall k ensures k in m <==> exists i :: 0 <= i < |xs| && key(xs[i]) == k {
      if k in m' {
        var i :| 0 <= i < |init| && key(init[i]) == k;
        assert xs[i] == init[i];
      }
      if exists i :: 0 <= i < |xs| && key(xs[i]) == k {
        var i :| 0 <= i < |xs| && key(xs[i]) == k;
        if i < |init| {
          assert init[i] == xs[i];
        }
      }
    }
    forall i | 0 <= i < |xs| && LastWithKey(xs, key, i)
      ensures key(xs[i]) in m && m[key(xs[i])] == xs[i]
    {
      if i < |init| {
        assert xs[i] == init[i];
        assert key(x) != key(xs[i]) by { assert xs[|init|] == x; }
        assert LastWithKey(init, key, i) by {
          forall j | i < j < |init| ensures key(init[j]) != key(init[i]) {
            assert init[j] == xs[j];
          }
        }
      }
    }
  }

  /** `m.get(k)`, where `k` may be `None` (ids are strings, so `None` is never a key). */
  function Lookup<T>(m: map<string, T>, k: Option<string>): Option<T>
  {
    if k.Some? && k.value in m then Some(m[k.value]) else None
  }

  /** Looking up the key of an element that no later element shares finds that element. */
  lemma LookupLast<T>(xs: seq<T>, key: T -> string, j: nat, k: Option<string>)
    requires j < |xs| && Some(key(xs[j])) == k && LastWithKey(xs, key, j)
    ensures Lookup(IndexById(xs, key), k) == Some(xs[j])
  {
  }

  /** The last element with the same key as `xs[j]`. */
  lemma LastIndexWithKey<T>(xs: seq<T>, key: T -> string, j: nat) returns (last: nat)
    requires j < |xs|
    ensures j <= last < |xs| && key(xs[last]) == key(xs[j]) && LastWithKey(xs, key, last)
    decreases |xs| - j
  {
    if LastWithKey(xs, key, j) {
      last := j;
    } else {
      var j' :| j < j' < |xs| && key(xs[j']) == key(xs[j]);
      last := LastIndexWithKey(xs, key, j');
    }
  }

  /** A key that no element has is not found. */
  lemma LookupAbsent<T>(xs: seq<T>, key: T -> string, k: Option<string>)
    ensures (forall i :: 0 <= i < |xs| ==> Some(key(xs[i])) != k) ==> Lookup(IndexById(xs, key), k).None?
  {
  }

  /** `next((x for x in xs if x['id'] == k), None)`: the first element whose key
      equals `k`, or `None` when there is none. */
  function FirstMatch<T>(xs: seq<T>, key: T -> string, k: Option<string>): (r: Option<T>)
    ensures r.None? <==> forall i :: 0 <= i < |xs| ==> Some(key(xs[i])) != k
    ensures r.Some? ==> exists i :: 0 <= i < |xs| && xs[i] == r.value && Some(key(xs[i])) == k
                                  && forall j :: 0 <= j < i ==> Some(key(xs[j])) != k
  {
    if xs == [] then None
    else if Some(key(xs[0])) == k then Some(xs[0])
    else
      var r := FirstMatch(xs[1..], key, k);
      assert forall i :: 1 <= i < |xs| ==> xs[1..][i - 1] == xs[i];
      if r.Some? then
        assert exists i :: 0 <= i < |xs| - 1 && xs[1..][i] == r.value && Some(key(xs[1..][i])) == k
                                  && forall j :: 0 <= j < i ==> Some(key(xs[1..][j])) != k;
        r
      else r
  }

  /** The element at the first index whose key is `k` is what the search finds. */
  lemma {:induction false} FirstMatchAt<T>(xs: seq<T>, key: T -> string, k: Option<string>, j: nat)
    requires j < |xs| && Some(key(xs[j])) == k
    requires forall i :: 0 <= i < j ==> Some(key(xs[i])) != k
    ensures FirstMatch(xs, key, k) == Some(xs[j])
  {
    if j > 0 {
      assert Some(key(xs[0])) != k;
      FirstMatchAt(xs[1..], key, k, j - 1);
    }
  }

  /** When ids are unique, the per-lock export's first-match search and the
      whole-account export's dictionary lookup resolve every key alike. */
  lemma FirstMatchIsIndexLookup<T>(xs: seq<T>, key: T -> string, k: Option<string>)
    requires UniqueKeys(xs, key)
    ensures FirstMatch(xs, key, k) == Lookup(IndexById(xs, key), k)
  {
    var r := FirstMatch(xs, key, k);
    var m := IndexById(xs, key);
    if r.Some? {
      var i :| 0 <= i < |xs| && xs[i] == r.value && Some(key(xs[i])) == k;
      assert LastWithKey(xs, key, i);
    }
  }
}
