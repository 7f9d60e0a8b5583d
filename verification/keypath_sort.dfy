/**
 * `Collection.sorted(on:by:)`: sorting records by the value a key path reads,
 * under the comparator `<` or `>`.
 */
module KeyPathSort {
  import opened Elements

  /** The comparator given as the `by:` argument, either `<` or `>` on the key. */
  datatype Comparator = LessThan | GreaterThan

  /** `areInIncreasingOrder(a, b)` for the chosen comparator. */
  predicate InIncreasingOrder(cmp: Comparator, a: Value, b: Value) {
    match cmp
    case LessThan => Less(a, b)
    case GreaterThan => Less(b, a)
  }

  /** No neighbour is in increasing order with respect to its predecessor the wrong way round. */
  predicate Ordered(xs: seq<Element>, key: Element -> Value, cmp: Comparator) {
    forall i :: 0 <= i < |xs| - 1 ==> !InIncreasingOrder(cmp, key(xs[i + 1]), key(xs[i]))
  }

  /** Places `x` into the ordered `s`, after every element it does not strictly precede. */
  function Insert(x: Element, s: seq<Element>, key: Element -> Value, cmp: Comparator): (r: seq<Element>)
    ensures |r| == |s| + 1
  {
    if |s| == 0 then [x]
    else if InIncreasingOrder(cmp, key(x), key(s[0])) then [x] + s
    else [s[0]] + Insert(x, s[1..], key, cmp)
  }

  /** Inserting adds `x` once and keeps everything else. */
  lemma {:induction false} InsertAddsOnce(x: Element, s: seq<Element>, key: Element -> Value, cmp: Comparator)
    ensures multiset(Insert(x, s, key, cmp)) == multiset(s) + multiset{x}
    decreases |s|
  {
    if |s| > 0 && !InIncreasingOrder(cmp, key(x), key(s[0])) {
      assert s == [s[0]] + s[1..];
      InsertAddsOnce(x, s[1..], key, cmp);
    }
  }

  /** Inserting keeps an ordered sequence ordered; the new head is `x` or the old head. */
  lemma {:induction false} InsertKeepsOrder(x: Element, s: seq<Element>, key: Element -> Value, cmp: Comparator)
    ensures Insert(x, s, key, cmp)[0] == x || (|s| > 0 && Insert(x, s, key, cmp)[0] == s[0])
    ensures Ordered(s, key, cmp) ==> Ordered(Insert(x, s, key, cmp), key, cmp)
    decreases |s|
  {
    if |s| > 0 {
      if InIncreasingOrder(cmp, key(x), key(s[0])) {
        LessAsymmetric(key(x), key(s[0]));
      } else {
        InsertKeepsOrder(x, s[1..], key, cmp);
        var r := Insert(x, s, key, cmp);
        var t := Insert(x, s[1..], key, cmp);
        assert r == [s[0]] + t;
        if Ordered(s, key, cmp) {
          assert Ordered(s[1..], key, cmp) by {
            forall i | 0 <= i < |s[1..]| - 1
              ensures !InIncreasingOrder(cmp, key(s[1..][i + 1]), key(s[1..][i]))
            {
              assert s[1..][i] == s[i + 1] && s[1..][i + 1] == s[i + 2];
            }
          }
          forall i | 0 <= i < |r| - 1 ensures !InIncreasingOrder(cmp, key(r[i + 1]), key(r[i])) {
            if i > 0 {
              assert r[i] == t[i - 1] && r[i + 1] == t[i];
            } else if t[0] == x {
              LessIsStrictTotalOrder(key(x), key(s[0]), key(s[0]));
            } else {
              assert t[0] == s[1];
            }
          }
        }
      }
    }
  }

  /**
   * The records of `xs` rearranged so that their keys are in order under `cmp`.
   * Records with equal keys keep their relative order.
   */
  function SortedOn(xs: seq<Element>, key: Element -> Value, cmp: Comparator): (r: seq<Element>)
    ensures |r| == |xs|
  {
    if |xs| == 0 then []
    else
      var n := |xs| - 1;
      Insert(xs[n], SortedOn(xs[..n], key, cmp), key, cmp)
  }

  /** Sorting rearranges the records (the same multiset) into key order. */
  lemma {:induction false} SortedOnSorts(xs: seq<Element>, key: Element -> Value, cmp: Comparator)
    ensures multiset(SortedOn(xs, key, cmp)) == multiset(xs)
    ensures Ordered(SortedOn(xs, key, cmp), key, cmp)
    decreases |xs|
  {
    if |xs| > 0 {
      var n := |xs| - 1;
      assert xs == xs[..n] + [xs[n]];
      SortedOnSorts(xs[..n], key, cmp);
      InsertAddsOnce(xs[n], SortedOn(xs[..n], key, cmp), key, cmp);
      InsertKeepsOrder(xs[n], SortedOn(xs[..n], key, cmp), key, cmp);
    }
  }

  /**
   * What `Ordered` means for the two comparators: with `<` the keys never
   * decrease from left to right, with `>` they never increase.
   */
  lemma OrderedMeaning(xs: seq<Element>, key: Element -> Value, cmp: Comparator)
    requires Ordered(xs, key, cmp)
    ensures cmp == LessThan ==>
      forall i, j :: 0 <= i < j < |xs| ==> LessOrEqual(key(xs[i]), key(xs[j]))
    ensures cmp == GreaterThan ==>
      forall i, j :: 0 <= i < j < |xs| ==> LessOrEqual(key(xs[j]), key(xs[i]))
  {
    forall i, j | 0 <= i < j < |xs|
      ensures cmp == LessThan ==> LessOrEqual(key(xs[i]), key(xs[j]))
      ensures cmp == GreaterThan ==> LessOrEqual(key(xs[j]), key(xs[i]))
    {
      OrderedPair(xs, key, cmp, i, j);
    }
  }

  lemma {:induction false} OrderedPair(xs: seq<Element>, key: Element -> Value, cmp: Comparator, i: int, j: int)
    requires Ordered(xs, key, cmp)
    requires 0 <= i < j < |xs|
    ensures cmp == LessThan ==> LessOrEqual(key(xs[i]), key(xs[j]))
    ensures cmp == GreaterThan ==> LessOrEqual(key(xs[j]), key(xs[i]))
    decreases j - i
  {
    var a, b := key(xs[j - 1]), key(xs[j]);
    assert !InIncreasingOrder(cmp, b, a);
    LessIsStrictTotalOrder(a, b, b);
    if i < j - 1 {
      OrderedPair(xs, key, cmp, i, j - 1);
      var c := key(xs[i]);
      LessIsStrictTotalOrder(c, a, b);
      LessIsStrictTotalOrder(b, a, c);
    }
  }
}
