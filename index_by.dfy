/**
 The loop by which `rosterReducer` and `instrumentsReducer` turn a list into a dictionary:
 starting from an empty object, each item in turn is assigned under its id.
 */
module Indexing {

  /** The dictionary after the loop: each item stored under its key, later items overwriting earlier ones. */
  function IndexBy<K(==), T>(s: seq<T>, key: T -> K): map<K, T>
  {
    if s == [] then map[] else IndexBy(s[..|s| - 1], key)[key(s[|s| - 1]) := s[|s| - 1]]
  }

  /** No item after position `i` has the key of `s[i]`. */
  ghost predicate LastWithKey<K, T>(s: seq<T>, key: T -> K, i: int)
    requires 0 <= i < |s|
  {
    forall j :: i < j < |s| ==> key(s[j]) != key(s[i])
  }

  /** The keys are exactly the items' keys, and each maps to the last item carrying it. */
  lemma {:induction false} IndexByCorrect<K, T>(s: seq<T>, key: T -> K)
    ensures IndexBy(s, key).Keys == set i | 0 <= i < |s| :: key(s[i])
    ensures forall i :: 0 <= i < |s| && LastWithKey(s, key, i) ==> IndexBy(s, key)[key(s[i])] == s[i]
  {
    if s != [] {
      var n := |s| - 1;
      var p := s[..n];
      IndexByCorrect(p, key);
      assert forall i :: 0 <= i < n ==> p[i] == s[i];
      var keys := set i | 0 <= i < |s| :: key(s[i]);
      var pkeys := set i | 0 <= i < |p| :: key(p[i]);
      assert keys == pkeys + {key(s[n])} by {
        forall k | k in keys ensures k in pkeys + {key(s[n])} {
          var i :| 0 <= i < |s| && key(s[i]) == k;
          if i < n {
            assert key(p[i]) == k;
          }
        }
      }
      forall i | 0 <= i < |s| && LastWithKey(s, key, i) ensures IndexBy(s, key)[key(s[i])] == s[i] {
        if i < n {
          assert key(s[n]) != key(s[i]);
          assert LastWithKey(p, key, i);
        }
      }
    }
  }

  /** Each key maps to an item that carries it. */
  lemma {:induction false} IndexByValues<K, T>(s: seq<T>, key: T -> K)
    ensures forall k :: k in IndexBy(s, key) ==> key(IndexBy(s, key)[k]) == k
    ensures forall k :: k in IndexBy(s, key) ==> IndexBy(s, key)[k] in s
  {
    if s != [] {
      IndexByValues(s[..|s| - 1], key);
    }
  }

  /** The `forEach` loop itself. */
  method CollectById<K(==), T>(payload: seq<T>, key: T -> K) returns (items: map<K, T>)
    ensures items == IndexBy(payload, key)
    ensures items.Keys == set i | 0 <= i < |payload| :: key(payload[i])
    ensures forall i :: 0 <= i < |payload| && LastWithKey(payload, key, i) ==> items[key(payload[i])] == payload[i]
  {
    items := map[];
    var i := 0;
    while i < |payload|
      invariant 0 <= i <= |payload|
      invariant items == IndexBy(payload[..i], key)
    {
      assert payload[..i + 1][..i] == payload[..i];
      items := items[key(payload[i]) := payload[i]];
      i := i + 1;
    }
    assert payload[..i] == payload;
    IndexByCorrect(payload, key);
  }
}
