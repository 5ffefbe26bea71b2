/**
 * The "append if not already present" idiom that the notifier uses three
 * times (per-department course lists, the merged deltas, the course-string
 * list), stated once as a function, and concatenation of per-department lists.
 */
module Lists {

  predicate NoDuplicates<T(==)>(xs: seq<T>)
  {
    forall i, j :: 0 <= i < j < |xs| ==> xs[i] != xs[j]
  }

  /** What a loop `if x not in acc: acc.append(x)` over `xs` leaves in `acc`. */
  function Dedup<T(==,!new)>(xs: seq<T>): (r: seq<T>)
    ensures NoDuplicates(r)
    ensures forall x :: x in r <==> x in xs
    ensures |r| <= |xs|
    decreases |xs|
  {
    if xs == [] then []
    else
      var d := Dedup(xs[..|xs| - 1]);
      if xs[|xs| - 1] in d then d else d + [xs[|xs| - 1]]
  }

  /** One more step of the append-if-absent loop. */
  lemma DedupSnoc<T(!new)>(xs: seq<T>, x: T)
    ensures Dedup(xs + [x]) == if x in Dedup(xs) then Dedup(xs) else Dedup(xs) + [x]
  {
    assert (xs + [x])[..|xs + [x]| - 1] == xs;
  }

  /** Index of the first occurrence of `x` in `xs`. */
  function FirstIndex<T(==)>(xs: seq<T>, x: T): (k: nat)
    requires x in xs
    ensures k < |xs| && xs[k] == x
    ensures forall j :: 0 <= j < k ==> xs[j] != x
  {
    if xs[0] == x then 0 else 1 + FirstIndex(xs[1..], x)
  }

  lemma FirstIndexInPrefix<T(!new)>(xs: seq<T>, n: nat, x: T)
    requires n <= |xs| && x in xs[..n]
    ensures x in xs && FirstIndex(xs, x) == FirstIndex(xs[..n], x)
  {
    var k := FirstIndex(xs[..n], x);
    assert xs[k] == x;
    var k' := FirstIndex(xs, x);
    assert k' <= k;
    assert xs[..n][k'] == x;
  }

  /** The deduplicated list keeps the order of first occurrences. */
  lemma {:induction false} DedupOrder<T(!new)>(xs: seq<T>)
    ensures forall i, j :: 0 <= i < j < |Dedup(xs)| ==>
      FirstIndex(xs, Dedup(xs)[i]) < FirstIndex(xs, Dedup(xs)[j])
  {
    if xs != [] {
      var n := |xs| - 1;
      var p := xs[..n];
      DedupOrder(p);
      var d := Dedup(p);
      forall y | y in d
        ensures FirstIndex(xs, y) == FirstIndex(p, y) < n
      {
        FirstIndexInPrefix(xs, n, y);
      }
      if xs[n] !in d {
        assert xs[n] !in p;
        assert FirstIndex(xs, xs[n]) == n;
      }
    }
  }

  /** Deduplicating a list that has no duplicates changes nothing. */
  lemma {:induction false} DedupOfUnique<T(!new)>(xs: seq<T>)
    requires NoDuplicates(xs)
    ensures Dedup(xs) == xs
  {
    if xs != [] {
      var n := |xs| - 1;
      DedupOfUnique(xs[..n]);
      assert xs[n] !in xs[..n];
    }
  }

  /** Elements that were already present add nothing (the cross-listing case). */
  lemma {:induction false} DedupAbsorbs<T(!new)>(xs: seq<T>, ys: seq<T>)
    requires forall y :: y in ys ==> y in xs
    ensures Dedup(xs + ys) == Dedup(xs)
  {
    if ys == [] {
      assert xs + ys == xs;
    } else {
      var n := |ys| - 1;
      DedupAbsorbs(xs, ys[..n]);
      assert xs + ys == (xs + ys[..n]) + [ys[n]];
      DedupSnoc(xs + ys[..n], ys[n]);
    }
  }

  /** Concatenation of a list of lists, built from the end as the loops build it. */
  function Concat<T(!new)>(xss: seq<seq<T>>): (r: seq<T>)
    ensures forall x :: x in r <==> exists i :: 0 <= i < |xss| && x in xss[i]
    decreases |xss|
  {
    if xss == [] then []
    else
      var p := xss[..|xss| - 1];
      var r := Concat(p) + xss[|xss| - 1];
      assert forall i :: 0 <= i < |p| ==> p[i] == xss[i];
      r
  }

  lemma ConcatSnoc<T(!new)>(xss: seq<seq<T>>, xs: seq<T>)
    ensures Concat(xss + [xs]) == Concat(xss) + xs
  {
    assert (xss + [xs])[..|xss + [xs]| - 1] == xss;
  }

  /** Concatenation regrouped, for `calc` steps. */
  lemma SeqAssoc<T>(x: seq<T>, y: seq<T>, z: seq<T>)
    ensures x + y + z == x + (y + z)
  {
  }
}
