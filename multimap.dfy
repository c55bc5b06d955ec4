/** Maps from a key to an ordered list, grown by appending at the end of a
    key's list. Both the decorator registry (base type to decorators) and the
    per-element ledger (element to entries) are of this shape. */
module Multimap {
  import opened SeqFacts

  /** The list stored under `k`; a missing key stands for the empty list
      (`decorators[type] || []`, `$el.data(NAME) || []`). */
  function ListFor<K, V>(m: map<K, seq<V>>, k: K): seq<V> {
    if k in m then m[k] else []
  }

  /** Appends `v` to the end of `k`'s list, creating the list if needed. */
  function Append<K, V>(m: map<K, seq<V>>, k: K, v: V): map<K, seq<V>> {
    m[k := ListFor(m, k) + [v]]
  }

  /** Appends `v` under each key of `ks` in turn; a key met twice gets `v` twice. */
  function AppendEach<K, V>(m: map<K, seq<V>>, ks: seq<K>, v: V): map<K, seq<V>>
    decreases |ks|
  {
    if ks == [] then m else AppendEach(Append(m, ks[0], v), ks[1..], v)
  }

  /** One step of appending along `ks`: the `i`-th key first, then the rest. */
  lemma AppendEachStep<K, V>(m: map<K, seq<V>>, ks: seq<K>, i: nat, v: V)
    requires i < |ks|
    ensures AppendEach(m, ks[i..], v) == AppendEach(Append(m, ks[i], v), ks[i + 1..], v)
  {
    assert ks[i..][0] == ks[i] && ks[i..][1..] == ks[i + 1..];
  }

  function Count<K(==)>(ks: seq<K>, k: K): nat
    decreases |ks|
  {
    if ks == [] then 0 else (if ks[0] == k then 1 else 0) + Count(ks[1..], k)
  }

  function Repeat<V>(v: V, n: nat): (r: seq<V>)
    ensures |r| == n && forall i | 0 <= i < n :: r[i] == v
  {
    if n == 0 then [] else [v] + Repeat(v, n - 1)
  }

  /** Every key's list keeps its old contents as a prefix and gains one copy
      of `v` per occurrence of the key in `ks`; other keys are untouched. */
  lemma {:induction false} AppendEachLookup<K, V>(m: map<K, seq<V>>, ks: seq<K>, v: V, k: K)
    ensures ListFor(AppendEach(m, ks, v), k) == ListFor(m, k) + Repeat(v, Count(ks, k))
    decreases |ks|
  {
    if ks == [] {
      assert ListFor(m, k) + [] == ListFor(m, k);
    } else {
      var m1 := Append(m, ks[0], v);
      AppendEachLookup(m1, ks[1..], v, k);
      if ks[0] == k {
        assert ListFor(m1, k) == ListFor(m, k) + [v];
        assert Repeat(v, 1 + Count(ks[1..], k)) == [v] + Repeat(v, Count(ks[1..], k));
        ConcatAssoc(ListFor(m, k), [v], Repeat(v, Count(ks[1..], k)));
      } else {
        assert ListFor(m1, k) == ListFor(m, k);
      }
    }
  }

  /** Appending creates exactly the keys of `ks` that were missing. */
  lemma {:induction false} AppendEachKeys<K, V>(m: map<K, seq<V>>, ks: seq<K>, v: V)
    ensures AppendEach(m, ks, v).Keys == m.Keys + set i | 0 <= i < |ks| :: ks[i]
    decreases |ks|
  {
    if ks != [] {
      AppendEachKeys(Append(m, ks[0], v), ks[1..], v);
      var rest := set i | 0 <= i < |ks| - 1 :: ks[1..][i];
      var all := set i | 0 <= i < |ks| :: ks[i];
      assert all == {ks[0]} + rest by {
        forall x | x in all ensures x in {ks[0]} + rest {
          var i :| 0 <= i < |ks| && ks[i] == x;
          if i > 0 { assert ks[1..][i - 1] == x; }
        }
        forall x | x in rest ensures x in all {
          var i :| 0 <= i < |ks| - 1 && ks[1..][i] == x;
          assert ks[i + 1] == x;
        }
      }
    }
  }
}
