/** Sequences as the abstract value of the kernel's intrusive lists. */
module Lists {

  ghost predicate Distinct<T>(xs: seq<T>) {
    forall i, j :: 0 <= i < j < |xs| ==> xs[i] != xs[j]
  }

  /** `xs` without the first occurrence of `x`. */
  function Remove<T(==)>(xs: seq<T>, x: T): seq<T> {
    if xs == [] then []
    else if xs[0] == x then xs[1..]
    else [xs[0]] + Remove(xs[1..], x)
  }

  /** `xs` without the element at position `k`. */
  function Cut<T>(xs: seq<T>, k: nat): (r: seq<T>)
    requires k < |xs|
    ensures |r| == |xs| - 1
    ensures forall i :: 0 <= i < |r| ==> r[i] == xs[if i < k then i else i + 1]
  {
    xs[..k] + xs[k + 1..]
  }

  lemma ConsCut<T>(xs: seq<T>, k: nat)
    requires 0 < k < |xs|
    ensures [xs[0]] + Cut(xs[1..], k - 1) == Cut(xs, k)
  {
    assert xs[..k] == [xs[0]] + xs[1..][..k - 1];
  }

  /** Removing the element at position `k` of a list without repetitions. */
  lemma {:induction false} RemoveAt<T>(xs: seq<T>, k: nat)
    requires Distinct(xs) && k < |xs|
    ensures Remove(xs, xs[k]) == Cut(xs, k)
  {
    if k > 0 {
      assert Distinct(xs[1..]) && xs[1..][k - 1] == xs[k] && xs[0] != xs[k];
      RemoveAt(xs[1..], k - 1);
      ConsCut(xs, k);
    }
  }

  lemma {:induction false} RemoveAbsent<T>(xs: seq<T>, x: T)
    requires x !in xs
    ensures Remove(xs, x) == xs
  {
    if xs != [] { RemoveAbsent(xs[1..], x); }
  }

  lemma CutDistinct<T>(xs: seq<T>, k: nat)
    requires Distinct(xs) && k < |xs|
    ensures Distinct(Cut(xs, k))
    ensures forall y :: y in Cut(xs, k) <==> y in xs && y != xs[k]
  {
    forall y ensures y in Cut(xs, k) <==> y in xs && y != xs[k] {
      if y in xs && y != xs[k] {
        var i :| 0 <= i < |xs| && xs[i] == y;
        assert Cut(xs, k)[if i < k then i else i - 1] == y;
      }
    }
  }

  lemma RemoveDistinct<T>(xs: seq<T>, x: T)
    requires Distinct(xs)
    ensures Distinct(Remove(xs, x))
    ensures forall y :: y in Remove(xs, x) <==> y in xs && y != x
  {
    if x in xs {
      var k :| 0 <= k < |xs| && xs[k] == x;
      RemoveAt(xs, k);
      CutDistinct(xs, k);
    } else {
      RemoveAbsent(xs, x);
    }
  }

  lemma AppendDistinct<T>(xs: seq<T>, x: T)
    requires Distinct(xs) && x !in xs
    ensures Distinct(xs + [x])
    ensures forall y :: y in xs + [x] <==> y in xs || y == x
  {
  }
}
