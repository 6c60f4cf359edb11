/** Stable sorting by a key, removal of duplicates and filtering, as the standard library does them. */
module Sorting {
  predicate Increasing(xs: seq<nat>) {
    forall i, j :: 0 <= i < j < |xs| ==> xs[i] < xs[j]
  }

  /** Ordered by key, and by value where the keys agree. */
  predicate OrderedBy(xs: seq<nat>, key: nat -> nat) {
    forall i, j :: 0 <= i < j < |xs| ==> Before(xs[i], xs[j], key)
  }

  predicate Before(x: nat, y: nat, key: nat -> nat) {
    key(x) < key(y) || (key(x) == key(y) && x <= y)
  }

  /** Insert before the first element whose key is not smaller. */
  function Insert(x: nat, xs: seq<nat>, key: nat -> nat): seq<nat> {
    if xs == [] then [x]
    else if key(x) <= key(xs[0]) then [x] + xs
    else [xs[0]] + Insert(x, xs[1..], key)
  }

  /** Inserting from the right keeps elements of equal key in their original order. */
  function StableSort(xs: seq<nat>, key: nat -> nat): seq<nat> {
    if xs == [] then [] else Insert(xs[0], StableSort(xs[1..], key), key)
  }

  lemma {:induction false} InsertAdds(x: nat, xs: seq<nat>, key: nat -> nat)
    ensures multiset(Insert(x, xs, key)) == multiset(xs) + multiset{x}
  {
    if xs != [] && key(x) > key(xs[0]) {
      assert xs == [xs[0]] + xs[1..];
      InsertAdds(x, xs[1..], key);
    }
  }

  /** Sorting permutes. */
  lemma {:induction false} SortPermutes(xs: seq<nat>, key: nat -> nat)
    ensures multiset(StableSort(xs, key)) == multiset(xs)
  {
    if xs != [] {
      assert xs == [xs[0]] + xs[1..];
      SortPermutes(xs[1..], key);
      InsertAdds(xs[0], StableSort(xs[1..], key), key);
    }
  }

  lemma {:induction false} InsertOrdered(x: nat, xs: seq<nat>, key: nat -> nat)
    requires OrderedBy(xs, key)
    requires forall i :: 0 <= i < |xs| ==> x < xs[i]
    ensures OrderedBy(Insert(x, xs, key), key)
  {
    if xs == [] {
    } else if key(x) <= key(xs[0]) {
      forall i | 0 <= i < |xs|
        ensures Before(x, xs[i], key)
      {
        assert i == 0 || Before(xs[0], xs[i], key);
      }
    } else {
      InsertOrdered(x, xs[1..], key);
      var rest := Insert(x, xs[1..], key);
      forall i | 0 <= i < |rest|
        ensures Before(xs[0], rest[i], key)
      {
        InsertAdds(x, xs[1..], key);
        assert rest[i] in multiset(rest);
        if rest[i] != x {
          assert rest[i] in xs[1..];
        }
      }
    }
  }

  /** Sorting an increasing sequence orders it by (key, value): a stable sort never swaps equals. */
  lemma {:induction false} StableSortOrders(xs: seq<nat>, key: nat -> nat)
    requires Increasing(xs)
    ensures OrderedBy(StableSort(xs, key), key)
  {
    if xs != [] {
      StableSortOrders(xs[1..], key);
      var rest := StableSort(xs[1..], key);
      forall i | 0 <= i < |rest|
        ensures xs[0] < rest[i]
      {
        assert rest[i] in rest;
        SortKeepsMembers(xs[1..], key, rest[i]);
      }
      InsertOrdered(xs[0], rest, key);
    }
  }

  lemma SortKeepsMembers(xs: seq<nat>, key: nat -> nat, y: nat)
    ensures y in StableSort(xs, key) <==> y in xs
  {
    SortPermutes(xs, key);
    assert y in StableSort(xs, key) <==> y in multiset(StableSort(xs, key));
    assert y in xs <==> y in multiset(xs);
  }

  function Itself(x: nat): nat { x }

  /** Ascending order. */
  function Sort(xs: seq<nat>): (r: seq<nat>)
    ensures forall y :: y in r <==> y in xs
  {
    var r := StableSort(xs, Itself);
    assert forall y :: y in r <==> y in xs by {
      forall y ensures y in r <==> y in xs {
        SortKeepsMembers(xs, Itself, y);
      }
    }
    r
  }

  predicate Ascending(xs: seq<nat>) {
    forall i, j :: 0 <= i < j < |xs| ==> xs[i] <= xs[j]
  }

  lemma {:induction false} InsertAscends(x: nat, xs: seq<nat>)
    requires Ascending(xs)
    ensures Ascending(Insert(x, xs, Itself))
  {
    if xs != [] && x > xs[0] {
      InsertAscends(x, xs[1..]);
      var rest := Insert(x, xs[1..], Itself);
      forall i | 0 <= i < |rest|
        ensures xs[0] <= rest[i]
      {
        InsertAdds(x, xs[1..], Itself);
        assert rest[i] in multiset(rest);
        if rest[i] != x {
          assert rest[i] in xs[1..];
        }
      }
    }
  }

  lemma {:induction false} SortAscends(xs: seq<nat>)
    ensures Ascending(Sort(xs)) && multiset(Sort(xs)) == multiset(xs)
  {
    SortPermutes(xs, Itself);
    if xs != [] {
      SortAscends(xs[1..]);
      InsertAscends(xs[0], StableSort(xs[1..], Itself));
    }
  }

  predicate Distinct(xs: seq<nat>) {
    forall i, j :: 0 <= i < j < |xs| ==> xs[i] != xs[j]
  }

  lemma {:induction false} DistinctCounts(xs: seq<nat>, x: nat)
    requires Distinct(xs)
    ensures multiset(xs)[x] <= 1
  {
    if xs != [] {
      DistinctCounts(xs[1..], x);
      assert xs == [xs[0]] + xs[1..];
      assert xs[0] !in xs[1..];
    }
  }

  lemma CountsDistinct(xs: seq<nat>)
    requires forall x :: multiset(xs)[x] <= 1
    ensures Distinct(xs)
  {
    forall i, j | 0 <= i < j < |xs|
      ensures xs[i] != xs[j]
    {
      assert xs == xs[..j] + [xs[j]] + xs[j + 1..];
      assert xs[i] in xs[..j];
      assert multiset(xs)[xs[j]] <= 1;
    }
  }

  lemma SortKeepsDistinct(xs: seq<nat>)
    requires Distinct(xs)
    ensures Distinct(Sort(xs))
  {
    SortPermutes(xs, Itself);
    forall x ensures multiset(Sort(xs))[x] <= 1 {
      DistinctCounts(xs, x);
    }
    CountsDistinct(Sort(xs));
  }

  /** Append to `seen` every element of `xs` that is not there yet. */
  function Dedup(seen: seq<nat>, xs: seq<nat>): (r: seq<nat>)
    ensures forall x :: x in r <==> x in seen || x in xs
    ensures Distinct(seen) ==> Distinct(r)
    decreases |xs|
  {
    if xs == [] then seen
    else if xs[0] in seen then Dedup(seen, xs[1..])
    else Dedup(seen + [xs[0]], xs[1..])
  }
}
