/** Adapter ranking and merge weights, in exact hundredths. */
module Merge {
  import opened Prelude
  import opened Text
  import opened Ranking

  /** An adapter and its score in hundredths. */
  datatype Scored = Scored(name: string, score: int)

  datatype Entry = Entry(name: string, weight: int)

  datatype Adapter = Adapter(name: string, baseModel: string)

  datatype Plan = Plan(baseModel: string, entries: seq<Entry>)

  // ----- Selection -----

  /** Highest score first, then by name. */
  predicate Better(a: Scored, b: Scored) {
    a.score > b.score || (a.score == b.score && TextLess(a.name, b.name))
  }

  lemma BetterIsAnOrder()
    ensures WeakOrder(Better)
  {
    forall a, b ensures !(Better(a, b) && Better(b, a)) {
      Asymmetric(a.name, b.name);
    }
    forall a, b, c | Better(a, c) ensures Better(a, b) || Better(b, c) {
      Trichotomy(a.name, b.name);
      if TextLess(b.name, a.name) && TextLess(a.name, c.name) {
        Transitive(b.name, a.name, c.name);
      }
    }
  }

  ghost predicate Descending(scored: seq<Scored>) {
    forall i, j | 0 <= i < j < |scored| :: scored[i].score >= scored[j].score
  }

  /** Every adapter, best first; ties by name, so the order does not depend on how they were listed. */
  lemma {:induction false} SelectionIsRanked(scored: seq<Scored>)
    ensures var ranked := Rank(scored, Better);
            && multiset(ranked) == multiset(scored) && Descending(ranked)
            && forall i, j | 0 <= i < j < |ranked| ::
                 || ranked[i] == ranked[j]
                 || ranked[i].score > ranked[j].score
                 || (ranked[i].score == ranked[j].score && TextLess(ranked[i].name, ranked[j].name))
  {
    BetterIsAnOrder();
    RankIsRanked(scored, Better);
    var ranked := Rank(scored, Better);
    forall i, j | 0 <= i < j < |ranked|
      ensures || ranked[i] == ranked[j]
              || ranked[i].score > ranked[j].score
              || (ranked[i].score == ranked[j].score && TextLess(ranked[i].name, ranked[j].name))
      ensures ranked[i].score >= ranked[j].score
    {
      assert !Better(ranked[j], ranked[i]);
      Trichotomy(ranked[i].name, ranked[j].name);
    }
  }

  // ----- Weights -----

  /** The adapters good enough to use, in order. */
  function Eligible(selected: seq<Scored>, minScore: int): seq<Scored> {
    if selected == [] then []
    else (if selected[0].score > 0 && selected[0].score >= minScore then [selected[0]] else [])
         + Eligible(selected[1..], minScore)
  }

  function Retained(selected: seq<Scored>, topK: nat, minScore: int): seq<Scored> {
    var eligible := Eligible(selected, minScore);
    eligible[..Min(topK, |eligible|)]
  }

  function Total(retained: seq<Scored>): int {
    if retained == [] then 0 else Total(retained[..|retained| - 1]) + retained[|retained| - 1].score
  }

  function Sum(entries: seq<Entry>): int {
    if entries == [] then 0 else Sum(entries[..|entries| - 1]) + entries[|entries| - 1].weight
  }

  /** The share of a positive score in hundredths, halves rounded up. */
  function Share(score: int, total: int): int
    requires total > 0
  {
    (200 * score + total) / (2 * total)
  }

  function BaseModelFor(name: string, adapters: seq<Adapter>): string {
    if adapters == [] then ""
    else if adapters[0].name == name then adapters[0].baseModel
    else BaseModelFor(name, adapters[1..])
  }

  ghost predicate AllPositive(retained: seq<Scored>) {
    forall i | 0 <= i < |retained| :: retained[i].score > 0
  }

  /** Shares for all, and the first takes whatever rounding left over. */
  ghost predicate Weighted(retained: seq<Scored>, entries: seq<Entry>) {
    && |entries| == |retained|
    && (forall i | 0 <= i < |entries| :: entries[i].name == retained[i].name)
    && (retained != [] ==>
          && Total(retained) > 0
          && (forall i | 1 <= i < |entries| :: entries[i].weight == Share(retained[i].score, Total(retained)))
          && Sum(entries) == 100)
  }

  lemma {:induction false} EligibleMembers(selected: seq<Scored>, minScore: int)
    ensures forall s :: s in Eligible(selected, minScore) <==> s in selected && s.score > 0 && s.score >= minScore
  {
    if selected != [] {
      EligibleMembers(selected[1..], minScore);
      assert selected == [selected[0]] + selected[1..];
    }
  }

  predicate GoodEnough(s: Scored, minScore: int) {
    s.score > 0 && s.score >= minScore
  }

  ghost predicate Rising(at: seq<nat>) {
    forall i, j | 0 <= i < j < |at| :: at[i] < at[j]
  }

  /** These positions of the selection hold what was kept, in order. */
  ghost predicate Holds(at: seq<nat>, selected: seq<Scored>, kept: seq<Scored>) {
    |at| == |kept| && forall i | 0 <= i < |at| :: at[i] < |selected| && kept[i] == selected[at[i]]
  }

  ghost predicate AllGoodEnough(at: seq<nat>, selected: seq<Scored>, minScore: int) {
    forall k: nat :: k in at <==> k < |selected| && GoodEnough(selected[k], minScore)
  }

  function Shifted(at: seq<nat>): (r: seq<nat>)
    ensures |r| == |at| && forall i | 0 <= i < |at| :: r[i] == at[i] + 1
  {
    seq(|at|, i requires 0 <= i < |at| => at[i] + 1)
  }

  lemma ShiftedPositions(at: seq<nat>, selected: seq<Scored>, minScore: int)
    requires selected != [] && AllGoodEnough(at, selected[1..], minScore)
    ensures forall k: nat :: k in Shifted(at) <==> 1 <= k < |selected| && GoodEnough(selected[k], minScore)
  {
    hide GoodEnough;
    forall k: nat ensures k in Shifted(at) <==> 1 <= k < |selected| && GoodEnough(selected[k], minScore) {
      if 1 <= k {
        assert k - 1 in at <==> k - 1 < |selected| - 1 && GoodEnough(selected[1..][k - 1], minScore);
        if k - 1 in at {
          var i :| 0 <= i < |at| && at[i] == k - 1;
          assert Shifted(at)[i] == k;
        }
      }
    }
  }

  /** The positions that are good enough. */
  function Positions(selected: seq<Scored>, minScore: int): seq<nat> {
    if selected == [] then []
    else (if GoodEnough(selected[0], minScore) then [0] else []) + Shifted(Positions(selected[1..], minScore))
  }

  lemma {:induction false} PositionsRise(selected: seq<Scored>, minScore: int)
    ensures Rising(Positions(selected, minScore))
  {
    if selected != [] {
      PositionsRise(selected[1..], minScore);
    }
  }

  lemma ShiftedHold(at: seq<nat>, selected: seq<Scored>, kept: seq<Scored>)
    requires selected != [] && Holds(at, selected[1..], kept)
    ensures Holds(Shifted(at), selected, kept)
    ensures Holds([0] + Shifted(at), selected, [selected[0]] + kept)
  {
    forall i | 0 <= i < |at| ensures kept[i] == selected[at[i] + 1] {
      assert kept[i] == selected[1..][at[i]];
    }
  }

  lemma {:induction false} PositionsHold(selected: seq<Scored>, minScore: int)
    ensures Holds(Positions(selected, minScore), selected, Eligible(selected, minScore))
  {
    if selected != [] {
      var later, kept := Positions(selected[1..], minScore), Eligible(selected[1..], minScore);
      PositionsHold(selected[1..], minScore);
      ShiftedHold(later, selected, kept);
      assert [] + Shifted(later) == Shifted(later) && [] + kept == kept;
      hide Holds, Shifted;
    }
  }

  lemma {:induction false} PositionsAreAll(selected: seq<Scored>, minScore: int)
    ensures AllGoodEnough(Positions(selected, minScore), selected, minScore)
  {
    if selected != [] {
      PositionsAreAll(selected[1..], minScore);
      var later := Positions(selected[1..], minScore);
      ShiftedPositions(later, selected, minScore);
      hide GoodEnough, Shifted;
      assert forall k: nat :: k in Positions(selected, minScore) <==>
               k in Shifted(later) || (k == 0 && GoodEnough(selected[0], minScore));
    }
  }

  /** What is kept stands at rising positions of the selection, and these are all the positions that are good enough. */
  lemma {:induction false} EligibleIsFiltered(selected: seq<Scored>, minScore: int)
    ensures exists at :: Rising(at) && Holds(at, selected, Eligible(selected, minScore))
                         && AllGoodEnough(at, selected, minScore)
  {
    PositionsRise(selected, minScore);
    PositionsHold(selected, minScore);
    PositionsAreAll(selected, minScore);
  }

  /** Filtering and cutting keep the ranking. */
  lemma {:induction false} EligibleStaysRanked(selected: seq<Scored>, minScore: int)
    requires Descending(selected)
    ensures Descending(Eligible(selected, minScore))
  {
    if selected != [] {
      EligibleStaysRanked(selected[1..], minScore);
      EligibleMembers(selected[1..], minScore);
      var rest := Eligible(selected[1..], minScore);
      forall j | 0 <= j < |rest| ensures selected[0].score >= rest[j].score {
        assert rest[j] in selected[1..];
        var k :| 0 <= k < |selected| - 1 && selected[1..][k] == rest[j];
        assert selected[0].score >= selected[k + 1].score;
      }
    }
  }

  lemma RetainedIsPositive(selected: seq<Scored>, topK: nat, minScore: int)
    ensures AllPositive(Retained(selected, topK, minScore))
    ensures Descending(selected) ==> Descending(Retained(selected, topK, minScore))
  {
    EligibleMembers(selected, minScore);
    if Descending(selected) {
      EligibleStaysRanked(selected, minScore);
    }
    var eligible := Eligible(selected, minScore);
    forall i | 0 <= i < |eligible| ensures eligible[i].score > 0 {
      assert eligible[i] in eligible;
    }
  }

  lemma {:induction false} TotalIsPositive(retained: seq<Scored>)
    requires AllPositive(retained)
    ensures Total(retained) >= |retained|
  {
    if retained != [] {
      TotalIsPositive(retained[..|retained| - 1]);
    }
  }

  lemma {:induction false} SumWithFirst(entries: seq<Entry>, weight: int)
    requires entries != []
    ensures Sum(entries[0 := entries[0].(weight := weight)]) == Sum(entries) - entries[0].weight + weight
  {
    var changed := entries[0 := entries[0].(weight := weight)];
    var n := |entries| - 1;
    if n == 0 {
      assert changed[..0] == [] && entries[..0] == [];
    } else {
      SumWithFirst(entries[..n], weight);
      assert changed[..n] == entries[..n][0 := entries[0].(weight := weight)];
    }
  }

  /** Totals add up, which is all there is to them. */
  lemma {:induction false} TotalAdds(a: seq<Scored>, b: seq<Scored>)
    ensures Total(a + b) == Total(a) + Total(b)
    ensures Total([]) == 0 && forall s :: Total([s]) == s.score
  {
    forall s ensures Total([s]) == s.score {
      assert [s][..0] == [];
    }
    if b == [] {
      assert a + b == a;
    } else {
      var n := |b| - 1;
      TotalAdds(a, b[..n]);
      assert (a + b)[..|a + b| - 1] == a + b[..n];
    }
  }

  /** The nearest hundredth, with halves rounded up. */
  lemma ShareIsNearest(score: int, total: int)
    requires total > 0
    ensures var w := Share(score, total); 2 * total * w <= 200 * score + total < 2 * total * w + 2 * total
  {
    var w := Share(score, total);
    assert 200 * score + total == 2 * total * w + (200 * score + total) % (2 * total);
  }

  /** A plan keeps the first `topK` of the adapters good enough, in order and each under its name. */
  ghost predicate KeepsFirst(selected: seq<Scored>, topK: nat, minScore: int, at: seq<nat>, entries: seq<Entry>) {
    && Rising(at) && AllGoodEnough(at, selected, minScore)
    && |entries| == (if topK <= |at| then topK else |at|)
    && forall i | 0 <= i < |entries| :: at[i] < |selected| && entries[i].name == selected[at[i]].name
  }

  /** Every weight but the first is its share of the scores kept, to the nearest hundredth. */
  ghost predicate SharesOut(selected: seq<Scored>, at: seq<nat>, entries: seq<Entry>)
    requires |entries| <= |at| && forall i | 0 <= i < |entries| :: at[i] < |selected|
  {
    var kept := seq(|entries|, i requires 0 <= i < |entries| => selected[at[i]]);
    var total := Total(kept);
    forall i | 1 <= i < |entries| ::
      2 * total * entries[i].weight <= 200 * kept[i].score + total < 2 * total * entries[i].weight + 2 * total
  }

  /** The base model listed first under this name, if any. */
  ghost predicate FirstListed(adapters: seq<Adapter>, name: string, model: string) {
    || (model == "" && forall a | a in adapters :: a.name != name)
    || exists k :: 0 <= k < |adapters| && adapters[k].name == name && adapters[k].baseModel == model
                   && forall j | 0 <= j < k :: adapters[j].name != name
  }

  lemma {:induction false} BaseModelIsFirst(name: string, adapters: seq<Adapter>)
    ensures FirstListed(adapters, name, BaseModelFor(name, adapters))
  {
    if adapters != [] {
      assert forall a :: a in adapters <==> a == adapters[0] || a in adapters[1..];
      if adapters[0].name != name {
        BaseModelIsFirst(name, adapters[1..]);
        var model := BaseModelFor(name, adapters[1..]);
        if k :| 0 <= k < |adapters| - 1 && adapters[1..][k].name == name && adapters[1..][k].baseModel == model
                && forall j | 0 <= j < k :: adapters[1..][j].name != name {
          assert adapters[k + 1].name == name;
          assert forall j | 1 <= j < k + 1 :: adapters[j] == adapters[1..][j - 1];
        }
      } else {
        assert adapters[0].name == name;
      }
    }
  }

  lemma {:induction false} PlanKeepsFirst(selected: seq<Scored>, topK: nat, minScore: int, entries: seq<Entry>)
    returns (at: seq<nat>)
    requires Weighted(Retained(selected, topK, minScore), entries)
    ensures KeepsFirst(selected, topK, minScore, at, entries) && SharesOut(selected, at, entries)
  {
    at := Positions(selected, minScore);
    PositionsRise(selected, minScore);
    PositionsHold(selected, minScore);
    PositionsAreAll(selected, minScore);
    hide Positions, Eligible, Rising, AllGoodEnough, Share, Total;
    var retained := Retained(selected, topK, minScore);
    var kept := seq(|entries|, i requires 0 <= i < |entries| => selected[at[i]]);
    assert kept == retained;
    forall i | 1 <= i < |entries|
      ensures var total := Total(kept);
              2 * total * entries[i].weight <= 200 * kept[i].score + total < 2 * total * entries[i].weight + 2 * total
    {
      ShareIsNearest(kept[i].score, Total(kept));
    }
  }

  /** Weigh what was retained, then fold the rounding residual into the first entry. */
  method MergePlan(selected: seq<Scored>, adapters: seq<Adapter>, topK: nat, minScore: int) returns (plan: Plan)
    ensures Weighted(Retained(selected, topK, minScore), plan.entries)
    ensures var retained := Retained(selected, topK, minScore);
            plan.baseModel == if retained == [] then "" else BaseModelFor(retained[0].name, adapters)
    ensures exists at :: KeepsFirst(selected, topK, minScore, at, plan.entries)
                         && SharesOut(selected, at, plan.entries)
    ensures if plan.entries == [] then plan.baseModel == ""
            else FirstListed(adapters, plan.entries[0].name, plan.baseModel)
  {
    hide Eligible, Share, BaseModelFor, AllPositive;
    var retained := Retained(selected, topK, minScore);
    RetainedIsPositive(selected, topK, minScore);
    TotalIsPositive(retained);
    var baseModel := if retained == [] then "" else BaseModelFor(retained[0].name, adapters);
    var total := Total(retained);
    var entries: seq<Entry> := [];
    if total > 0 {
      var rounded := 0;
      for i := 0 to |retained|
        invariant |entries| == i && rounded == Sum(entries)
        invariant forall k | 0 <= k < i :: entries[k] == Entry(retained[k].name, Share(retained[k].score, total))
      {
        var weight := Share(retained[i].score, total);
        ghost var was := entries;
        entries := entries + [Entry(retained[i].name, weight)];
        assert entries[..i] == was;
        rounded := rounded + weight;
      }
      SumWithFirst(entries, entries[0].weight + (100 - rounded));
      entries := entries[0 := entries[0].(weight := entries[0].weight + (100 - rounded))];
    }
    plan := Plan(baseModel, entries);
    ghost var at := PlanKeepsFirst(selected, topK, minScore, entries);
    if entries != [] {
      BaseModelIsFirst(entries[0].name, adapters);
    }
  }

  // ----- How far the weights are from the exact shares -----

  /** A weight differs from its exact share, 100 * score / total, by at most this many halves of a hundredth. */
  predicate Close(weight: int, score: int, total: int, halves: int) {
    -halves * total <= 2 * total * weight - 200 * score <= halves * total
  }

  /** Rounding moves a share by at most half a hundredth. */
  lemma ShareIsClose(score: int, total: int)
    requires total > 0
    ensures Close(Share(score, total), score, total, 1)
  {
    var n := 200 * score + total;
    var q := n / (2 * total);
    assert n == 2 * total * q + n % (2 * total);
  }

  lemma OneMoreIsClose(total: int, weights: int, scores: int, w: int, s: int, n: int)
    requires Close(weights, scores, total, n) && Close(w, s, total, 1)
    ensures Close(weights + w, scores + s, total, n + 1)
  {
    assert 2 * total * (weights + w) == 2 * total * weights + 2 * total * w;
    assert (n + 1) * total == n * total + total;
  }

  lemma RestIsClose(total: int, weights: int, scores: int, n: int)
    requires Close(weights, scores, total, n)
    ensures Close(100 - weights, total - scores, total, n)
  {
    assert 2 * total * (100 - weights) == 200 * total - 2 * total * weights;
  }

  lemma NothingIsClose(total: int)
    ensures Close(0, 0, total, 0)
  {
  }

  /** What the entries after the first add up to, against their exact shares. */
  lemma {:induction false} OthersAreClose(retained: seq<Scored>, entries: seq<Entry>, total: int, n: nat)
    requires 1 <= n <= |entries| == |retained| && total > 0
    requires forall i | 1 <= i < |entries| :: entries[i].weight == Share(retained[i].score, total)
    ensures Close(Sum(entries[..n]) - entries[0].weight, Total(retained[..n]) - retained[0].score, total, n - 1)
  {
    hide Share, Total, Sum, Close;
    SumNext(entries, n);
    TotalNext(retained, n);
    if n == 1 {
      SumNext(entries, 0);
      TotalNext(retained, 0);
      NothingIsClose(total);
    } else {
      OthersAreClose(retained, entries, total, n - 1);
      ShareIsClose(retained[n - 1].score, total);
      OneMoreIsClose(total, Sum(entries[..n - 1]) - entries[0].weight, Total(retained[..n - 1]) - retained[0].score,
                     entries[n - 1].weight, retained[n - 1].score, n - 2);
    }
  }

  lemma SumNext(entries: seq<Entry>, n: nat)
    requires n <= |entries|
    ensures Sum(entries[..n]) == if n == 0 then 0 else Sum(entries[..n - 1]) + entries[n - 1].weight
  {
    if n > 0 {
      assert entries[..n][..n - 1] == entries[..n - 1];
    }
  }

  lemma TotalNext(retained: seq<Scored>, n: nat)
    requires n <= |retained|
    ensures Total(retained[..n]) == if n == 0 then 0 else Total(retained[..n - 1]) + retained[n - 1].score
  {
    if n > 0 {
      assert retained[..n][..n - 1] == retained[..n - 1];
    }
  }

  /**
   * The weights are a hundred in all, each but the first within half a hundredth of its exact share, and the first within
   * half a hundredth for every other entry.
   */
  lemma {:induction false} WeightsAreClose(retained: seq<Scored>, entries: seq<Entry>)
    requires retained != [] && Weighted(retained, entries)
    ensures Sum(entries) == 100
    ensures forall i | 1 <= i < |entries| :: Close(entries[i].weight, retained[i].score, Total(retained), 1)
    ensures Close(entries[0].weight, retained[0].score, Total(retained), |entries| - 1)
  {
    hide Share, Sum, Total, Close;
    var total := Total(retained);
    forall i | 1 <= i < |entries| ensures Close(entries[i].weight, retained[i].score, total, 1) {
      ShareIsClose(retained[i].score, total);
    }
    OthersAreClose(retained, entries, total, |entries|);
    assert entries[..|entries|] == entries && retained[..|retained|] == retained;
    RestIsClose(total, 100 - entries[0].weight, total - retained[0].score, |entries| - 1);
  }

  lemma {:induction false} BestIsAverage(retained: seq<Scored>, n: nat)
    requires 1 <= n <= |retained| && Descending(retained)
    ensures Total(retained[..n]) <= n * retained[0].score
  {
    hide Total;
    TotalNext(retained, n);
    if n == 1 {
      TotalNext(retained, 0);
    } else {
      BestIsAverage(retained, n - 1);
      assert n * retained[0].score == (n - 1) * retained[0].score + retained[0].score;
    }
  }

  lemma PositiveFactor(a: int, b: int)
    requires a > 0 && a * b > 0
    ensures b > 0
  {
  }

  lemma Scale(n: int, x: int, y: int)
    requires n >= 0 && x <= y
    ensures n * x <= n * y
  {
  }

  lemma Distribute(n: int, total: int, best: int)
    ensures n * (200 * best - (n - 1) * total) == 200 * (n * best) - (n * (n - 1)) * total
  {
    assert n * (200 * best) == 200 * (n * best);
    assert n * ((n - 1) * total) == (n * (n - 1)) * total;
  }

  /** From below: n * 2p is at least (200 - n (n - 1)) * total. */
  lemma FromBelow(n: int, total: int, best: int, p: int)
    requires n >= 1 && total <= n * best
    requires 200 * best - (n - 1) * total <= 2 * p
    ensures n * (2 * p) >= 200 * total - (n * (n - 1)) * total
  {
    Scale(n, 200 * best - (n - 1) * total, 2 * p);
    Distribute(n, total, best);
  }

  lemma LargeEnough(n: int, total: int)
    requires 1 <= n <= 15 && total > 0
    ensures 200 * total - (n * (n - 1)) * total > -(2 * n) * total
  {
    SmallSquare(n);
    var slack := 200 + 2 * n - n * (n - 1);
    assert slack > 0;
    Scale(total, 1, slack);
    assert total * slack == 200 * total + (2 * n) * total - (n * (n - 1)) * total;
  }

  lemma FirstIsNotNegative(n: int, total: int, best: int, weight: int)
    requires 1 <= n <= 15 && total > 0 && total <= n * best
    requires Close(weight, best, total, n - 1)
    ensures weight >= 0
  {
    hide Close;
    CloseFromBelow(weight, best, total, n - 1);
    FromBelow(n, total, best, total * weight);
    LargeEnough(n, total);
    NotBelow(n, total, weight);
  }

  lemma CloseFromBelow(weight: int, score: int, total: int, halves: int)
    requires Close(weight, score, total, halves)
    ensures 200 * score - halves * total <= 2 * (total * weight)
  {
    assert 2 * total * weight == 2 * (total * weight);
  }

  lemma NotBelow(n: int, total: int, weight: int)
    requires n >= 1 && total > 0 && n * (2 * (total * weight)) > -(2 * n) * total
    ensures weight >= 0
  {
    var p := total * weight;
    assert n * (2 * p) == 2 * (n * p) && (2 * n) * total == 2 * (n * total);
    assert n * (p + total) == n * p + n * total;
    PositiveFactor(n, p + total);
    assert total * (weight + 1) == p + total;
    PositiveFactor(total, weight + 1);
  }

  lemma SmallSquare(n: int)
    requires 1 <= n <= 15
    ensures n * (n - 1) < 200 + 2 * n
  {
    Scale(n, n - 1, 14);
  }

  /** Up to fifteen adapters, ranked best first, no weight is negative. */
  lemma FifteenAreNotNegative(retained: seq<Scored>, entries: seq<Entry>)
    requires retained != [] && |retained| <= 15 && Weighted(retained, entries)
    requires AllPositive(retained) && Descending(retained)
    ensures forall i | 0 <= i < |entries| :: entries[i].weight >= 0
  {
    hide Share, Sum, Close;
    var total := Total(retained);
    WeightsAreClose(retained, entries);
    BestIsAverage(retained, |retained|);
    assert retained[..|retained|] == retained;
    FirstIsNotNegative(|retained|, total, retained[0].score, entries[0].weight);
    forall i | 1 <= i < |entries| ensures entries[i].weight >= 0 {
      SharesAreNotNegative(retained[i].score, total);
    }
  }

  lemma SharesAreNotNegative(score: int, total: int)
    requires score > 0 && total > 0
    ensures Share(score, total) >= 0
  {
  }

  /** From any adapters in any order: a plan of at most fifteen has no negative weight. */
  lemma {:induction false} SmallPlansAreNotNegative(scored: seq<Scored>, topK: nat, minScore: int, entries: seq<Entry>)
    requires topK <= 15 && Weighted(Retained(Rank(scored, Better), topK, minScore), entries)
    ensures forall i | 0 <= i < |entries| :: entries[i].weight >= 0
  {
    hide Weighted, Eligible;
    SelectionIsRanked(scored);
    RetainedIsPositive(Rank(scored, Better), topK, minScore);
    NothingWeighsNothing(Retained(Rank(scored, Better), topK, minScore), entries);
    if entries != [] {
      FifteenAreNotNegative(Retained(Rank(scored, Better), topK, minScore), entries);
    }
  }

  lemma NothingWeighsNothing(retained: seq<Scored>, entries: seq<Entry>)
    requires Weighted(retained, entries)
    ensures retained == [] <==> entries == []
  {
  }

  /** Twelve scores of 13 and four of 11. */
  function Sixteen(): (r: seq<Scored>)
    ensures |r| == 16
  {
    seq(16, i requires 0 <= i < 16 => Scored("adapter", if i < 12 then 13 else 11))
  }

  lemma {:induction false} SixteenTotal(n: nat)
    requires n <= 16
    ensures Total(Sixteen()[..n]) == if n <= 12 then 13 * n else 156 + 11 * (n - 12)
  {
    if n > 0 {
      SixteenTotal(n - 1);
      assert Sixteen()[..n][..n - 1] == Sixteen()[..n - 1];
    }
  }

  lemma {:induction false} SixteenWeights(entries: seq<Entry>, n: nat)
    requires Weighted(Sixteen(), entries) && 1 <= n <= 16
    ensures Sum(entries[..n]) == entries[0].weight + if n <= 12 then 7 * (n - 1) else 77 + 6 * (n - 12)
  {
    SixteenTotal(16);
    assert Sixteen()[..16] == Sixteen();
    if n == 1 {
      assert entries[..1][..0] == [];
    } else {
      SixteenWeights(entries, n - 1);
      assert entries[..n][..n - 1] == entries[..n - 1];
      assert Share(13, 200) == 7 && Share(11, 200) == 6;
    }
  }

  /** Sixteen are too many: here the best adapter gets a negative weight. */
  lemma SixteenCanBeNegative(entries: seq<Entry>)
    requires Weighted(Sixteen(), entries)
    ensures AllPositive(Sixteen()) && Descending(Sixteen()) && entries[0].weight == -1
  {
    SixteenWeights(entries, 16);
    assert entries[..16] == entries;
  }
}
