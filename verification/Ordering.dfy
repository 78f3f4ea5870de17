/** The order every log in the system is read in: creation time, then identifier. */
module Ordering {

  /** A position in a log. `at` is the instant in nanoseconds, `id` the identifier read as a number. */
  datatype Key = Key(at: int, id: int)

  predicate Less(a: Key, b: Key) {
    a.at < b.at || (a.at == b.at && a.id < b.id)
  }

  predicate AtMost(a: Key, b: Key) {
    a == b || Less(a, b)
  }

  ghost predicate StrictlySorted<T>(xs: seq<T>, key: T -> Key) {
    forall i, j | 0 <= i < j < |xs| :: Less(key(xs[i]), key(xs[j]))
  }

  ghost predicate DistinctKeys<T>(xs: seq<T>, key: T -> Key) {
    forall i, j | 0 <= i < j < |xs| :: key(xs[i]) != key(xs[j])
  }

  ghost predicate SameElements<T(!new)>(xs: seq<T>, ys: seq<T>) {
    forall x :: x in xs <==> x in ys
  }

  function Insert<T>(x: T, xs: seq<T>, key: T -> Key): seq<T> {
    if xs == [] || !Less(key(xs[0]), key(x)) then [x] + xs
    else [xs[0]] + Insert(x, xs[1..], key)
  }

  /** The library's stable sort by key. */
  function Sort<T>(xs: seq<T>, key: T -> Key): seq<T> {
    if xs == [] then [] else Insert(xs[0], Sort(xs[1..], key), key)
  }

  lemma {:induction false} InsertElements<T>(x: T, xs: seq<T>, key: T -> Key)
    ensures multiset(Insert(x, xs, key)) == multiset(xs) + multiset{x}
  {
    if xs == [] || !Less(key(xs[0]), key(x)) {
    } else {
      InsertElements(x, xs[1..], key);
      assert xs == [xs[0]] + xs[1..];
    }
  }

  lemma {:induction false} SortElements<T>(xs: seq<T>, key: T -> Key)
    ensures multiset(Sort(xs, key)) == multiset(xs)
    ensures |Sort(xs, key)| == |xs|
  {
    if xs == [] {
    } else {
      SortElements(xs[1..], key);
      InsertElements(xs[0], Sort(xs[1..], key), key);
      assert xs == [xs[0]] + xs[1..];
    }
    assert |Sort(xs, key)| == |multiset(Sort(xs, key))| == |xs|;
  }

  lemma {:induction false} InsertSorted<T>(x: T, xs: seq<T>, key: T -> Key)
    requires StrictlySorted(xs, key)
    requires forall y | y in xs :: key(y) != key(x)
    ensures StrictlySorted(Insert(x, xs, key), key)
  {
    if xs == [] {
    } else if !Less(key(xs[0]), key(x)) {
      assert key(xs[0]) != key(x);
    } else {
      InsertSorted(x, xs[1..], key);
      InsertElements(x, xs[1..], key);
      var rest := Insert(x, xs[1..], key);
      forall j | 0 <= j < |rest| ensures Less(key(xs[0]), key(rest[j])) {
        assert rest[j] in multiset(rest);
        assert rest[j] in xs[1..] || rest[j] == x;
      }
    }
  }

  lemma {:induction false} SortSorted<T>(xs: seq<T>, key: T -> Key)
    requires DistinctKeys(xs, key)
    ensures StrictlySorted(Sort(xs, key), key)
  {
    if xs == [] {
    } else {
      SortSorted(xs[1..], key);
      SortElements(xs[1..], key);
      forall y | y in Sort(xs[1..], key) ensures key(y) != key(xs[0]) {
        assert y in multiset(xs[1..]);
      }
      InsertSorted(xs[0], Sort(xs[1..], key), key);
    }
  }

  /** Two strictly sorted sequences over the same elements are the same sequence. */
  lemma {:induction false} SortedIsUnique<T(!new)>(xs: seq<T>, ys: seq<T>, key: T -> Key)
    requires StrictlySorted(xs, key) && StrictlySorted(ys, key)
    requires SameElements(xs, ys)
    ensures xs == ys
  {
    if xs == [] || ys == [] {
      NoElements(xs, ys);
    } else {
      assert xs[0] in ys;
      assert ys[0] in xs;
      assert xs[0] == ys[0];
      forall x ensures x in xs[1..] <==> x in ys[1..] {
        if x in xs[1..] { assert x in ys && key(x) != key(ys[0]); }
        if x in ys[1..] { assert x in xs && key(x) != key(xs[0]); }
      }
      SortedIsUnique(xs[1..], ys[1..], key);
      assert xs == [xs[0]] + xs[1..] && ys == [ys[0]] + ys[1..];
    }
  }

  lemma NoElements<T(!new)>(xs: seq<T>, ys: seq<T>)
    requires SameElements(xs, ys)
    ensures xs == [] <==> ys == []
  {
    assert xs != [] ==> xs[0] in ys;
    assert ys != [] ==> ys[0] in xs;
  }

  lemma SortedHasDistinctElements<T(!new)>(xs: seq<T>, key: T -> Key)
    requires StrictlySorted(xs, key)
    ensures DistinctKeys(xs, key)
  {
    forall i, j | 0 <= i < j < |xs| ensures key(xs[i]) != key(xs[j]) {
      assert Less(key(xs[i]), key(xs[j]));
    }
  }

  /** Sorting only depends on the multiset of what is sorted, as long as keys are distinct. */
  lemma {:induction false} SortIgnoresArrivalOrder<T(!new)>(xs: seq<T>, ys: seq<T>, key: T -> Key)
    requires DistinctKeys(xs, key)
    requires multiset(xs) == multiset(ys)
    ensures Sort(xs, key) == Sort(ys, key)
  {
    PermutationKeepsDistinctKeys(xs, ys, key);
    SortSorted(xs, key);
    SortSorted(ys, key);
    SortElements(xs, key);
    SortElements(ys, key);
    forall x ensures x in Sort(xs, key) <==> x in Sort(ys, key) {
      assert x in Sort(xs, key) <==> x in multiset(Sort(xs, key));
      assert x in Sort(ys, key) <==> x in multiset(Sort(ys, key));
    }
    SortedIsUnique(Sort(xs, key), Sort(ys, key), key);
  }

  lemma PermutationKeepsDistinctKeys<T>(xs: seq<T>, ys: seq<T>, key: T -> Key)
    requires DistinctKeys(xs, key)
    requires multiset(xs) == multiset(ys)
    ensures DistinctKeys(ys, key)
  {
    forall i, j | 0 <= i < j < |ys| ensures key(ys[i]) != key(ys[j]) {
      var a, b := ys[i], ys[j];
      if key(a) == key(b) {
        assert a in multiset(ys) && b in multiset(ys);
        assert a in xs && b in xs;
        var p :| 0 <= p < |xs| && xs[p] == a;
        var q :| 0 <= q < |xs| && xs[q] == b;
        assert p == q;
        TwiceMeansTwo(ys, i, j);
        OnceMeansOne(xs, p, key);
        assert false;
      }
    }
  }

  lemma TwiceMeansTwo<T>(ys: seq<T>, i: nat, j: nat)
    requires i < j < |ys| && ys[i] == ys[j]
    ensures multiset(ys)[ys[i]] >= 2
  {
    assert ys == ys[..i] + [ys[i]] + ys[i + 1..j] + [ys[j]] + ys[j + 1..];
  }

  lemma OnceMeansOne<T>(xs: seq<T>, p: nat, key: T -> Key)
    requires DistinctKeys(xs, key) && p < |xs|
    ensures multiset(xs)[xs[p]] == 1
  {
    assert xs == xs[..p] + [xs[p]] + xs[p + 1..];
    assert xs[p] !in xs[..p] && xs[p] !in xs[p + 1..];
  }

  /** A newest element is sorted to the end. */
  lemma {:induction false} SortAppendsTheNewest<T(!new)>(xs: seq<T>, x: T, key: T -> Key)
    requires DistinctKeys(xs, key) && forall y | y in xs :: Less(key(y), key(x))
    ensures Sort(xs + [x], key) == Sort(xs, key) + [x]
  {
    hide Sort;
    var sorted := Sort(xs, key);
    SortSorted(xs, key);
    SortElements(xs, key);
    forall i | 0 <= i < |sorted| ensures Less(key(sorted[i]), key(x)) {
      assert sorted[i] in multiset(sorted);
    }
    assert DistinctKeys(xs + [x], key) by {
      forall i | 0 <= i < |xs| ensures key(xs[i]) != key(x) {
        assert xs[i] in xs;
      }
    }
    SortSorted(xs + [x], key);
    SortElements(xs + [x], key);
    forall y ensures y in Sort(xs + [x], key) <==> y in sorted + [x] {
      assert y in Sort(xs + [x], key) <==> y in multiset(xs + [x]);
      assert y in sorted <==> y in multiset(xs);
    }
    SortedIsUnique(Sort(xs + [x], key), sorted + [x], key);
  }

  /** Elements with distinct keys are told apart by their keys. */
  lemma KeyIdentifies<T>(xs: seq<T>, a: T, b: T, key: T -> Key)
    requires DistinctKeys(xs, key) && a in xs && b in xs && key(a) == key(b)
    ensures a == b
  {
    var i :| 0 <= i < |xs| && xs[i] == a;
    var j :| 0 <= j < |xs| && xs[j] == b;
  }

  /** Sorting only depends on which elements there are, as long as keys are distinct. */
  lemma {:induction false} SameElementsSortTheSame<T(!new)>(xs: seq<T>, ys: seq<T>, key: T -> Key)
    requires DistinctKeys(xs, key) && DistinctKeys(ys, key) && SameElements(xs, ys)
    ensures Sort(xs, key) == Sort(ys, key)
  {
    SortedElements(xs, key);
    SortedElements(ys, key);
    SortSorted(xs, key);
    SortSorted(ys, key);
    SortedIsUnique(Sort(xs, key), Sort(ys, key), key);
  }

  lemma {:induction false} SortedElements<T(!new)>(xs: seq<T>, key: T -> Key)
    ensures SameElements(Sort(xs, key), xs)
  {
    SortElements(xs, key);
    forall x ensures x in Sort(xs, key) <==> x in xs {
      assert x in Sort(xs, key) <==> x in multiset(Sort(xs, key));
    }
  }
}
