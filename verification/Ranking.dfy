/** Sorting by a comparison of two elements. */
module Ranking {

  /** A strict order whose ties are an equivalence. */
  ghost predicate WeakOrder<T(!new)>(before: (T, T) -> bool) {
    && (forall a, b :: !(before(a, b) && before(b, a)))
    && (forall a, b, c | before(a, c) :: before(a, b) || before(b, c))
  }

  /** Nothing comes after something it belongs before. */
  ghost predicate Ranked<T(!new)>(xs: seq<T>, before: (T, T) -> bool) {
    forall i, j | 0 <= i < j < |xs| :: !before(xs[j], xs[i])
  }

  function InsertRanked<T(!new)>(x: T, xs: seq<T>, before: (T, T) -> bool): seq<T> {
    if xs == [] || !before(xs[0], x) then [x] + xs else [xs[0]] + InsertRanked(x, xs[1..], before)
  }

  function Rank<T(!new)>(xs: seq<T>, before: (T, T) -> bool): seq<T> {
    if xs == [] then [] else InsertRanked(xs[0], Rank(xs[1..], before), before)
  }

  lemma {:induction false} InsertIsRanked<T(!new)>(x: T, xs: seq<T>, before: (T, T) -> bool)
    requires WeakOrder(before) && Ranked(xs, before)
    ensures Ranked(InsertRanked(x, xs, before), before)
    ensures multiset(InsertRanked(x, xs, before)) == multiset(xs) + multiset{x}
  {
    if xs == [] {
    } else if !before(xs[0], x) {
      forall j | 0 <= j < |xs| ensures !before(xs[j], x) {
        assert j > 0 ==> !before(xs[j], xs[0]);
      }
    } else {
      InsertIsRanked(x, xs[1..], before);
      assert xs == [xs[0]] + xs[1..];
      var rest := InsertRanked(x, xs[1..], before);
      forall j | 0 <= j < |rest| ensures !before(rest[j], xs[0]) {
        assert rest[j] in multiset(rest);
        assert rest[j] == x || rest[j] in xs[1..];
      }
    }
  }

  /** Ranking is a permutation in rank order. */
  lemma {:induction false} RankIsRanked<T(!new)>(xs: seq<T>, before: (T, T) -> bool)
    requires WeakOrder(before)
    ensures Ranked(Rank(xs, before), before)
    ensures multiset(Rank(xs, before)) == multiset(xs)
    ensures |Rank(xs, before)| == |xs|
  {
    if xs != [] {
      RankIsRanked(xs[1..], before);
      InsertIsRanked(xs[0], Rank(xs[1..], before), before);
      assert xs == [xs[0]] + xs[1..];
    }
    assert |multiset(Rank(xs, before))| == |multiset(xs)|;
  }
}
