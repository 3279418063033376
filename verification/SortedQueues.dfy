/** Queues sorted by a key, in which equal keys keep the order of insertion. */
module SortedQueues {

  /** `serial` numbers the insertions. */
  datatype Entry<+T> = Entry(key: nat, serial: nat, item: T)

  /** The position of the first entry with a key above `key`, before which a new entry goes. */
  function FirstAbove<T>(xs: seq<Entry<T>>, key: nat): (n: nat)
    ensures n <= |xs| && (n < |xs| ==> key < xs[n].key) && forall i :: 0 <= i < n ==> xs[i].key <= key
  {
    if xs == [] || key < xs[0].key then 0 else 1 + FirstAbove(xs[1..], key)
  }

  function InsertAt<T>(xs: seq<T>, n: nat, x: T): (r: seq<T>)
    requires n <= |xs|
    ensures |r| == |xs| + 1 && r[n] == x
    ensures forall i :: 0 <= i < |r| && i != n ==> r[i] == xs[if i < n then i else i - 1]
  {
    xs[..n] + [x] + xs[n..]
  }

  function Inserted<T>(xs: seq<Entry<T>>, x: Entry<T>): seq<Entry<T>> {
    InsertAt(xs, FirstAbove(xs, x.key), x)
  }

  predicate Less<T>(x: Entry<T>, y: Entry<T>) {
    x.key < y.key || (x.key == y.key && x.serial < y.serial)
  }

  /** Sorted by key; entries with equal keys in the order of their insertion. */
  ghost predicate Stable<T>(xs: seq<Entry<T>>) {
    forall i, j :: 0 <= i < j < |xs| ==> Less(xs[i], xs[j])
  }

  ghost predicate SerialsBelow<T>(xs: seq<Entry<T>>, serial: nat) {
    forall i :: 0 <= i < |xs| ==> xs[i].serial < serial
  }

  /** A later entry goes behind all entries with smaller or equal keys, and the order stays. */
  lemma StableInsert<T>(xs: seq<Entry<T>>, x: Entry<T>)
    requires Stable(xs) && SerialsBelow(xs, x.serial)
    ensures Stable(Inserted(xs, x)) && SerialsBelow(Inserted(xs, x), x.serial + 1)
  {
    hide InsertAt;
    var n := FirstAbove(xs, x.key);
    forall i | 0 <= i < |xs| ensures if i < n then Less(xs[i], x) else Less(x, xs[i]) {
      assert n < i ==> Less(xs[n], xs[i]);
    }
  }

  /** In a sorted queue the entries with keys up to `key` are the first ones. */
  lemma FirstAboveSplits<T>(xs: seq<Entry<T>>, key: nat, i: nat)
    requires Stable(xs) && i < |xs|
    ensures xs[i].key <= key <==> i < FirstAbove(xs, key)
  {
    var n := FirstAbove(xs, key);
    assert n < i ==> Less(xs[n], xs[i]);
  }

  /** What was inserted is in the queue, and nothing else is new. */
  lemma InsertedElements<T>(xs: seq<Entry<T>>, x: Entry<T>)
    ensures forall y :: y in Inserted(xs, x) <==> y in xs || y == x
  {
    var n := FirstAbove(xs, x.key);
    forall y | y in xs ensures y in Inserted(xs, x) {
      var i :| 0 <= i < |xs| && xs[i] == y;
      assert Inserted(xs, x)[if i < n then i else i + 1] == y;
    }
    assert Inserted(xs, x)[n] == x;
  }
}
