/** Finite sets of numbers, and how many elements they have. */
module Sets {

  /** The numbers p .. p + n - 1. */
  ghost function Range(p: nat, n: nat): (r: set<nat>) {
    if n == 0 then {} else Range(p, n - 1) + {p + n - 1}
  }

  lemma NoRange(p: nat)
    ensures Range(p, 0) == {}
  {
  }

  lemma RangeMore(p: nat, n: nat)
    ensures Range(p, n + 1) == Range(p, n) + {p + n}
  {
  }

  lemma {:induction false} RangeFacts(p: nat, n: nat)
    ensures forall i :: i in Range(p, n) <==> p <= i < p + n
  {
    if n > 0 {
      RangeFacts(p, n - 1);
    }
  }

  lemma {:induction false} RangeSize(p: nat, n: nat)
    ensures |Range(p, n)| == n
  {
    if n > 0 {
      RangeSize(p, n - 1);
      RangeFacts(p, n - 1);
    }
  }

  lemma RangeSplit(p: nat, n: nat)
    requires n > 0
    ensures Range(p, n) == {p} + Range(p + 1, n - 1)
  {
    hide Range;
    RangeFacts(p, n);
    RangeFacts(p + 1, n - 1);
  }

  ghost function Elements<T>(s: seq<T>): set<T> {
    set x | x in s
  }

  /** A sequence has at most as many different elements as places, and as many if they differ. */
  lemma {:induction false} ElementsCount<T>(s: seq<T>)
    ensures |Elements(s)| <= |s|
    ensures (forall i, j :: 0 <= i < j < |s| ==> s[i] != s[j]) ==> |Elements(s)| == |s|
  {
    if s != [] {
      var t := s[..|s| - 1];
      ElementsCount(t);
      assert Elements(s) == Elements(t) + {s[|s| - 1]};
    } else {
      assert Elements(s) == {};
    }
  }

  lemma SubsetCount<T>(a: set<T>, b: set<T>)
    requires a <= b
    ensures |a| <= |b|
  {
    assert b == a + (b - a);
  }
}
