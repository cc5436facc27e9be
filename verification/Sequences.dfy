/** Sequences as contents of the kernel's lists. */
module Sequences {

  ghost predicate NoRepeat<T>(q: seq<T>) {
    forall i, j :: 0 <= i < j < |q| ==> q[i] != q[j]
  }

  /** The sequence without an element. */
  function Without<T(==)>(q: seq<T>, c: T): (r: seq<T>)
    ensures forall x :: x in r ==> x in q && x != c
    ensures forall x :: x in q && x != c ==> x in r
  {
    if q == [] then [] else if q[0] == c then Without(q[1..], c) else [q[0]] + Without(q[1..], c)
  }

  lemma {:induction false} WithoutNone<T>(q: seq<T>, c: T)
    requires c !in q
    ensures Without(q, c) == q
  {
    if q != [] {
      WithoutNone(q[1..], c);
    }
  }

  lemma WithoutFirst<T>(q: seq<T>, c: T)
    requires c !in q
    ensures Without([c] + q, c) == q
  {
    WithoutNone(q, c);
    assert ([c] + q)[1..] == q;
  }

  /** Where the element stood, the sequence closes up. */
  lemma {:induction false} WithoutAt<T>(q: seq<T>, k: nat)
    requires NoRepeat(q) && k < |q|
    ensures Without(q, q[k]) == q[..k] + q[k + 1..]
  {
    assert forall i, j :: 0 <= i < j < |q[1..]| ==> q[1..][i] == q[i + 1] && q[1..][j] == q[j + 1];
    if k == 0 {
      WithoutNone(q[1..], q[0]);
    } else {
      WithoutAt(q[1..], k - 1);
      assert q[1..][..k - 1] == q[1..k] && q[1..][k..] == q[k + 1..];
      assert [q[0]] + q[1..k] == q[..k];
    }
  }

  lemma {:induction false} WithoutKeeps<T>(q: seq<T>, c: T)
    requires NoRepeat(q)
    ensures NoRepeat(Without(q, c))
  {
    if q != [] {
      assert forall i, j :: 0 <= i < j < |q[1..]| ==> q[1..][i] == q[i + 1] && q[1..][j] == q[j + 1];
      WithoutKeeps(q[1..], c);
      assert q[0] !in q[1..];
    }
  }
}
