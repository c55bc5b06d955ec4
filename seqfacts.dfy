/** Small facts about sequences and maps, stated once so that the proofs about the
    event-type parser, the registry and the ledger can cite them. */
module SeqFacts {

  lemma ConcatAssoc<T>(a: seq<T>, b: seq<T>, c: seq<T>)
    ensures a + (b + c) == a + b + c
  {
  }

  lemma SliceCons<T>(s: seq<T>, i: nat)
    requires i < |s|
    ensures s[..1 + i] == [s[0]] + s[1..][..i] && s[1 + i..] == s[1..][i..]
  {
  }

  lemma HeadTail<T>(p: seq<T>, t: seq<T>)
    requires p != []
    ensures (p + t)[0] == p[0] && (p + t)[1..] == p[1..] + t && [p[0]] + (p[1..] + t) == p + t
  {
    assert [p[0]] + p[1..] == p;
  }

  lemma DropTake<T>(s: seq<T>, k: nat, n: nat)
    requires k + n <= |s|
    ensures s[k..][..n] == s[k..k + n]
  {
  }

  lemma FourElements<T>(r: seq<T>, x0: T, x1: T, x2: T, x3: T)
    requires |r| == 4 && r[0] == x0 && r[1] == x1 && r[2] == x2 && r[3] == x3
    ensures r == [x0, x1, x2, x3]
  {
  }

  lemma UpdateTwice<K, V>(m: map<K, V>, k: K, a: V, b: V)
    ensures m[k := a][k := b] == m[k := b]
  {
  }

  lemma AppendThree<T>(l: seq<T>, a: T, b: T, c: T)
    ensures l + [a] + [b, c] == l + [a, b, c]
  {
    assert [a] + [b, c] == [a, b, c];
  }
}
