/** Sequences inside sequences: bytes inside memory, and the tokens of a node inside those of a tree. */
module Slices {

  /** `t` is the part of `s` from `at` on. */
  predicate Within<T(==)>(s: seq<T>, at: nat, t: seq<T>) {
    at + |t| <= |s| && s[at..at + |t|] == t
  }

  lemma WithinWithin<T>(s: seq<T>, at: nat, t: seq<T>, i: nat, u: seq<T>)
    requires Within(s, at, t) && Within(t, i, u)
    ensures Within(s, at + i, u)
  {
    forall k | 0 <= k < |u| ensures s[at + i..at + i + |u|][k] == u[k] {
      assert u[k] == t[i..i + |u|][k] == t[i + k] == s[at..at + |t|][i + k] == s[at + (i + k)];
    }
  }

  lemma WithinWhole<T>(s: seq<T>)
    ensures Within(s, 0, s)
  {
  }

  lemma Middle<T>(a: seq<T>, b: seq<T>, c: seq<T>, s: seq<T>)
    requires s == a + b + c
    ensures Within(s, |a|, b)
  {
  }

  lemma ElementWithin<T>(s: seq<T>, at: nat, t: seq<T>, i: nat)
    requires Within(s, at, t) && i < |t|
    ensures s[at + i] == t[i]
  {
    assert s[at..at + |t|][i] == s[at + i];
  }

  lemma WithinBounds<T>(s: seq<T>, at: nat, t: seq<T>)
    requires Within(s, at, t)
    ensures at + |t| <= |s|
  {
  }

  lemma WithinSnoc<T>(s: seq<T>, at: nat, t: seq<T>, x: T)
    requires Within(s, at, t + [x])
    ensures at + |t| < |s| && s[at + |t|] == x && Within(s, at, t)
  {
    hide Within;
    Middle([], t, [x], t + [x]);
    WithinWithin(s, at, t + [x], 0, t);
    WithinBounds(s, at, t + [x]);
    ElementWithin(s, at, t + [x], |t|);
  }
}
