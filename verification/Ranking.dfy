/** `_fuse`: rank by each signal, fuse the ranks, gate auto-match, sort and cut. */
module Ranking {
  import opened Core
  import opened Reals
  import opened Sorting
  import opened Fusion

  /** One bank row with its signals. */
  datatype Scored = Scored(id: nat, fuzzy: real, amountScore: real, dateScore: real, embedding: Option<real>)

  datatype Settings = Settings(k: Smoothing, threshold: real, minFuzzy: real)

  datatype Ranked = Ranked(candidate: Scored, rrf: real, confidence: real, autoMatchable: bool)

  function FuzzyKey(c: Scored): Key { (c.fuzzy, 0.0) }

  function AmountDateKey(c: Scored): Key { ((c.amountScore + c.dateScore) / 2.0, 0.0) }

  /** `embedding_score or -1.0`: a missing score and a zero score both rank as -1. */
  function EmbeddingKey(c: Scored): Key {
    (if c.embedding.None? || c.embedding.value == 0.0 then -1.0 else c.embedding.value, 0.0)
  }

  function Id(c: Scored): int { c.id }

  function Ids(s: seq<Scored>): (ids: seq<int>)
    ensures |ids| == |s| && forall i :: 0 <= i < |s| ==> ids[i] == s[i].id
  {
    Each(s, Id)
  }

  predicate AnyEmbedding(s: seq<Scored>) {
    exists i :: 0 <= i < |s| && s[i].embedding.Some?
  }

  function Rankings(s: seq<Scored>): seq<seq<int>> {
    [Ids(SortDesc(s, FuzzyKey)), Ids(SortDesc(s, AmountDateKey))]
    + if AnyEmbedding(s) then [Ids(SortDesc(s, EmbeddingKey))] else []
  }

  function MaxRrfScore(count: int, k: Smoothing): real {
    if count <= 0 then 0.0 else count as real / (k + 1) as real
  }

  /** `max_rrf_score(...) or 1.0`. */
  function BestPossible(count: nat, k: Smoothing): (best: real)
    ensures best > 0.0
  {
    if count == 0 then 1.0
    else
      Positive(count as real, (k + 1) as real);
      MaxRrfScore(count, k)
  }

  function Min(a: real, b: real): real { if a <= b then a else b }

  /** The normalised score, clamped, and the two gates. */
  function Gate(c: Scored, raw: real, best: real, threshold: real, minFuzzy: real): Ranked
    requires best > 0.0
  {
    var confidence := Min(1.0, raw / best);
    Ranked(c, raw, confidence, confidence >= threshold && c.fuzzy >= minFuzzy)
  }

  function Grade(rankings: seq<seq<int>>, settings: Settings, c: Scored): Ranked {
    Gate(c, Score(rankings, settings.k, c.id), BestPossible(|rankings|, settings.k), settings.threshold,
        settings.minFuzzy)
  }

  function RankKey(r: Ranked): Key { (r.confidence, r.candidate.fuzzy) }

  function Graded(s: seq<Scored>, settings: Settings): Scored -> Ranked {
    var rankings := Rankings(s);
    c => Grade(rankings, settings, c)
  }

  /** The whole ranked list, before the cut. */
  function FullRanking(s: seq<Scored>, settings: Settings): seq<Ranked> {
    SortDesc(Each(SortDesc(s, FuzzyKey), Graded(s, settings)), RankKey)
  }

  /** Python's `s[:limit]`, for any limit. */
  function Cut<T>(s: seq<T>, limit: int): seq<T> {
    if limit >= |s| then s
    else if limit >= 0 then s[..limit]
    else if |s| + limit >= 0 then s[..|s| + limit]
    else []
  }

  // ---------------------------------------------------------------- rankings are permutations

  lemma {:induction false} DistinctIffOnce(ids: seq<int>)
    ensures Distinct(ids) <==> forall x :: multiset(ids)[x] <= 1
  {
    if ids != [] {
      var n := |ids| - 1;
      DistinctIffOnce(ids[..n]);
      assert ids == ids[..n] + [ids[n]];
      if Distinct(ids) {
        assert ids[n] !in ids[..n];
      } else if forall x :: multiset(ids)[x] <= 1 {
        assert multiset(ids)[ids[n]] == multiset(ids[..n])[ids[n]] + 1;
        assert ids[n] !in ids[..n];
        forall x ensures multiset(ids[..n])[x] <= 1 { assert multiset(ids)[x] <= 1; }
      }
    }
  }

  /** Every ranking lists every candidate exactly once. */
  lemma RankingIsPermutation(s: seq<Scored>, key: Scored -> Key)
    requires Distinct(Ids(s))
    ensures var r := Ids(SortDesc(s, key));
            |r| == |s| && Distinct(r) && multiset(r) == multiset(Ids(s)) && forall i :: 0 <= i < |s| ==> s[i].id in r
  {
    var r := Ids(SortDesc(s, key));
    SortDescSorts(s, key);
    EachSort(s, key, Id);
    DistinctIffOnce(Ids(s));
    DistinctIffOnce(r);
    forall i | 0 <= i < |s| ensures s[i].id in r {
      assert Ids(s)[i] in multiset(Ids(s));
      assert s[i].id in multiset(r);
    }
  }

  ghost predicate Permutations(rankings: seq<seq<int>>, ids: seq<int>) {
    forall i :: 0 <= i < |rankings| ==>
      |rankings[i]| == |ids| && Distinct(rankings[i]) && multiset(rankings[i]) == multiset(ids)
  }

  lemma RankingsArePermutations(s: seq<Scored>)
    requires Distinct(Ids(s))
    ensures Permutations(Rankings(s), Ids(s)) && 2 <= |Rankings(s)| <= 3
  {
    var rankings := Rankings(s);
    forall i | 0 <= i < |rankings|
      ensures |rankings[i]| == |Ids(s)| && Distinct(rankings[i]) && multiset(rankings[i]) == multiset(Ids(s))
    {
      RankingIsPermutation(s, if i == 0 then FuzzyKey else if i == 1 then AmountDateKey else EmbeddingKey);
    }
  }

  // ---------------------------------------------------------------- bounds

  lemma PlaceOf(ranking: seq<int>, ids: seq<int>, id: int) returns (p: nat)
    requires |ranking| == |ids| && multiset(ranking) == multiset(ids) && id in ids
    ensures p < |ranking| && ranking[p] == id
  {
    assert id in multiset(ranking);
    p :| 0 <= p < |ranking| && ranking[p] == id;
  }

  ghost predicate FirstEverywhere(rankings: seq<seq<int>>, id: int) {
    forall i :: 0 <= i < |rankings| ==> rankings[i] != [] && rankings[i][0] == id
  }

  ghost predicate LastEverywhere(rankings: seq<seq<int>>, id: int) {
    forall i :: 0 <= i < |rankings| ==> rankings[i] != [] && rankings[i][|rankings[i]| - 1] == id
  }

  lemma ShareBounds(ranking: seq<int>, ids: seq<int>, k: Smoothing, id: int)
    requires |ranking| == |ids| && Distinct(ranking) && multiset(ranking) == multiset(ids) && id in ids
    ensures ranking != [] && Weight(k, |ids|) <= Share(ranking, k, id) <= Weight(k, 1)
    ensures Share(ranking, k, id) == Weight(k, 1) <==> ranking[0] == id
    ensures ranking[|ranking| - 1] == id ==> Share(ranking, k, id) == Weight(k, |ids|)
  {
    var p := PlaceOf(ranking, ids, id);
    ShareIsWeight(ranking, k, p);
    if p > 0 { WeightFalls(k, 1, p + 1); }
    if p + 1 < |ids| { WeightFalls(k, p + 1, |ids|); }
  }

  /** The same weight from each of `m` rankings. */
  function Times(m: nat, weight: real): real {
    if m == 0 then 0.0 else Times(m - 1, weight) + weight
  }

  lemma {:induction false} TimesIsProduct(m: nat, weight: real)
    ensures Times(m, weight) == m as real * weight
  {
    if m > 0 {
      TimesIsProduct(m - 1, weight);
      Distribute((m - 1) as real, weight);
      assert m as real == (m - 1) as real + 1.0;
    }
  }

  /** Between last place everywhere and first place everywhere, */
  lemma {:induction false} ScoreBetween(rankings: seq<seq<int>>, ids: seq<int>, k: Smoothing, id: int)
    requires Permutations(rankings, ids) && id in ids
    ensures Times(|rankings|, Weight(k, |ids|)) <= Score(rankings, k, id) <= Times(|rankings|, Weight(k, 1))
  {
    if rankings != [] {
      var m := |rankings| - 1;
      ScoreBetween(rankings[..m], ids, k, id);
      ShareBounds(rankings[m], ids, k, id);
    }
  }

  /** where the top is reached by exactly the first everywhere, */
  lemma {:induction false} TopScoreIff(rankings: seq<seq<int>>, ids: seq<int>, k: Smoothing, id: int)
    requires Permutations(rankings, ids) && id in ids
    ensures Score(rankings, k, id) == Times(|rankings|, Weight(k, 1)) <==> FirstEverywhere(rankings, id)
  {
    if rankings != [] {
      var m := |rankings| - 1;
      var front := rankings[..m];
      TopScoreIff(front, ids, k, id);
      ScoreBetween(front, ids, k, id);
      ShareBounds(rankings[m], ids, k, id);
      assert FirstEverywhere(rankings, id) <==> FirstEverywhere(front, id) && rankings[m][0] == id by {
        assert forall i :: 0 <= i < m ==> front[i] == rankings[i];
      }
    }
  }

  /** and the bottom by the last everywhere. */
  lemma {:induction false} BottomScore(rankings: seq<seq<int>>, ids: seq<int>, k: Smoothing, id: int)
    requires Permutations(rankings, ids) && id in ids && LastEverywhere(rankings, id)
    ensures Score(rankings, k, id) == Times(|rankings|, Weight(k, |ids|))
  {
    if rankings != [] {
      var m := |rankings| - 1;
      BottomScore(rankings[..m], ids, k, id);
      ShareBounds(rankings[m], ids, k, id);
    }
  }

  lemma DivideByBest(score: real, m: nat, k: Smoothing, place: nat)
    requires m >= 1
    ensures var q, bound := score / BestPossible(m, k), (k + 1) as real / (k + place) as real;
            && (score <= Times(m, Weight(k, 1)) <==> q <= 1.0)
            && (score == Times(m, Weight(k, 1)) <==> q == 1.0)
            && (score >= Times(m, Weight(k, place)) ==> q >= bound)
            && (score == Times(m, Weight(k, place)) ==> q == bound)
  {
    var best := BestPossible(m, k);
    var r, a, b := m as real, (k + 1) as real, (k + place) as real;
    Positive(r, a);
    TimesIsProduct(m, Weight(k, 1));
    Over(r, a);
    assert Times(m, Weight(k, 1)) == best;
    Quotient(score, best);
    TimesIsProduct(m, Weight(k, place));
    Cancel(r, a, b);
    assert Times(m, Weight(k, place)) == best * (a / b);
    QuotientAtLeast(score, best, a / b);
  }

  /** Tight confidence bounds. The clamp to 1 never acts; confidence 1 means first in every ranking. */
  lemma ConfidenceBounds(s: seq<Scored>, settings: Settings, i: nat)
    requires Distinct(Ids(s)) && i < |s|
    ensures var rankings, k := Rankings(s), settings.k;
            var g := Grade(rankings, settings, s[i]);
            && g.confidence == g.rrf / BestPossible(|rankings|, k)
            && (k + 1) as real / (k + |s|) as real <= g.confidence <= 1.0
            && (g.confidence == 1.0 <==> FirstEverywhere(rankings, s[i].id))
            && (LastEverywhere(rankings, s[i].id) ==> g.confidence == (k + 1) as real / (k + |s|) as real)
  {
    RankingsArePermutations(s);
    assert Ids(s)[i] == s[i].id;
    ScoreBetween(Rankings(s), Ids(s), settings.k, s[i].id);
    TopScoreIff(Rankings(s), Ids(s), settings.k, s[i].id);
    if LastEverywhere(Rankings(s), s[i].id) { BottomScore(Rankings(s), Ids(s), settings.k, s[i].id); }
    DivideByBest(Score(Rankings(s), settings.k, s[i].id), |Rankings(s)|, settings.k, |s|);
  }

  // ---------------------------------------------------------------- the confidence gate

  /** `n` candidates no signal tells apart. */
  function Alike(n: nat): seq<Scored> {
    seq(n, i requires 0 <= i < n => Scored(i, 0.0, 0.0, 0.0, None))
  }

  lemma AlikeRankings(n: nat)
    ensures Rankings(Alike(n)) == [Ids(Alike(n)), Ids(Alike(n))]
  {
    var s := Alike(n);
    SortDescKeepsEquals(s, FuzzyKey);
    SortDescKeepsEquals(s, AmountDateKey);
    assert !AnyEmbedding(s);
  }

  lemma AlikeAreRankedAsGiven(n: nat)
    requires n >= 1
    ensures Distinct(Ids(Alike(n))) && LastEverywhere(Rankings(Alike(n)), n - 1)
  {
    AlikeRankings(n);
    var ids := Ids(Alike(n));
    forall i | 0 <= i < n ensures ids[i] == i { assert Alike(n)[i].id == i; }
  }

  /** The confidence gate lets every candidate of every `n`-candidate suggestion through. */
  ghost predicate GateOpen(n: nat, settings: Settings)
  {
    forall s: seq<Scored>, i: nat :: |s| == n && Distinct(Ids(s)) && i < n ==>
      Grade(Rankings(s), settings, s[i]).confidence >= settings.threshold
  }

  lemma GateOpenIff(n: nat, settings: Settings)
    requires n >= 1
    ensures GateOpen(n, settings) <==> settings.threshold <= (settings.k + 1) as real / (settings.k + n) as real
  {
    if settings.threshold <= (settings.k + 1) as real / (settings.k + n) as real {
      forall s: seq<Scored>, i: nat | |s| == n && Distinct(Ids(s)) && i < n
        ensures Grade(Rankings(s), settings, s[i]).confidence >= settings.threshold
      {
        ConfidenceBounds(s, settings, i);
      }
    } else {
      var s := Alike(n);
      AlikeAreRankedAsGiven(n);
      ConfidenceBounds(s, settings, n - 1);
      assert s[n - 1].id == n - 1;
      assert Grade(Rankings(s), settings, s[n - 1]).confidence < settings.threshold;
    }
  }

  lemma DefaultBound(n: nat)
    requires n >= 1
    ensures 0.72 <= 61.0 / (60 + n) as real <==> n <= 24
  {
    QuotientAtLeast(61.0, (60 + n) as real, 0.72);
    Below(61.0, (60 + n) as real, 0.72);
  }

  /** With the default k = 60 and threshold 0.72 the confidence gate decides nothing up to 24
      candidates, where the fuzzy floor alone decides; from 25 on it can refuse. */
  lemma DefaultGate(n: nat, minFuzzy: real)
    requires n >= 1
    ensures GateOpen(n, Settings(60, 0.72, minFuzzy)) <==> n <= 24
    ensures n <= 24 ==> forall s: seq<Scored>, i: nat :: |s| == n && Distinct(Ids(s)) && i < n ==>
              (Grade(Rankings(s), Settings(60, 0.72, minFuzzy), s[i]).autoMatchable <==> s[i].fuzzy >= minFuzzy)
  {
    var settings := Settings(60, 0.72, minFuzzy);
    GateOpenIff(n, settings);
    DefaultBound(n);
    assert (settings.k + 1) as real / (settings.k + n) as real == 61.0 / (60 + n) as real;
  }

  // ---------------------------------------------------------------- the ranked list

  function Candidate(r: Ranked): Scored { r.candidate }

  /** The list is a permutation of the graded candidates, best first. */
  lemma FullRankingIsPermutation(s: seq<Scored>, settings: Settings)
    ensures multiset(FullRanking(s, settings)) == multiset(Each(s, Graded(s, settings)))
    ensures Descending(FullRanking(s, settings), RankKey)
    ensures |FullRanking(s, settings)| == |s|
  {
    var graded := Each(SortDesc(s, FuzzyKey), Graded(s, settings));
    EachSort(s, FuzzyKey, Graded(s, settings));
    SortDescSorts(s, FuzzyKey);
    SortDescSorts(graded, RankKey);
  }

  lemma RankedIsGraded(s: seq<Scored>, settings: Settings, p: nat) returns (i: nat)
    requires p < |FullRanking(s, settings)|
    ensures i < |s| && FullRanking(s, settings)[p] == Grade(Rankings(s), settings, s[i])
  {
    FullRankingIsPermutation(s, settings);
    var graded := Each(s, Graded(s, settings));
    assert FullRanking(s, settings)[p] in multiset(graded);
    i :| 0 <= i < |graded| && graded[i] == FullRanking(s, settings)[p];
  }

  lemma CandidateIsRanked(s: seq<Scored>, settings: Settings, i: nat) returns (p: nat)
    requires i < |s|
    ensures p < |FullRanking(s, settings)| && FullRanking(s, settings)[p] == Grade(Rankings(s), settings, s[i])
  {
    FullRankingIsPermutation(s, settings);
    var graded := Each(s, Graded(s, settings));
    assert graded[i] in multiset(FullRanking(s, settings));
    p :| 0 <= p < |FullRanking(s, settings)| && FullRanking(s, settings)[p] == graded[i];
  }

  lemma RankedIds(s: seq<Scored>, settings: Settings)
    ensures multiset(Each(FullRanking(s, settings), RankedId)) == multiset(Ids(s))
  {
    var graded := Each(SortDesc(s, FuzzyKey), Graded(s, settings));
    EachSort(graded, RankKey, RankedId);
    EachSort(s, FuzzyKey, Id);
    SortDescSorts(s, FuzzyKey);
    EachOfEach(SortDesc(s, FuzzyKey), Graded(s, settings), RankedId, Id);
  }

  lemma EachOfEach<T, U, V>(s: seq<T>, f: T -> U, g: U -> V, h: T -> V)
    requires forall i :: 0 <= i < |s| ==> g(f(s[i])) == h(s[i])
    ensures Each(Each(s, f), g) == Each(s, h)
  {
  }

  /** A lone candidate tops every ranking: it is the whole list, with confidence 1. */
  lemma LoneConfidence(c: Scored, settings: Settings)
    ensures Grade(Rankings([c]), settings, c).confidence == 1.0
  {
    var s := [c];
    ConfidenceBounds(s, settings, 0);
    var k := settings.k;
    Quotient((k + 1) as real, (k + |s|) as real);
  }

  lemma LoneRanking(c: Scored, settings: Settings)
    ensures FullRanking([c], settings) == [Grade(Rankings([c]), settings, c)]
  {
    FullRankingIsPermutation([c], settings);
    var i := RankedIsGraded([c], settings, 0);
  }

  /** Each candidate is listed once. */
  lemma RankedOnce(s: seq<Scored>, settings: Settings, p: nat, q: nat)
    requires Distinct(Ids(s)) && p < |s| && q < |s| && p != q
    ensures |FullRanking(s, settings)| == |s|
    ensures FullRanking(s, settings)[p].candidate.id != FullRanking(s, settings)[q].candidate.id
  {
    FullRankingIsPermutation(s, settings);
    var ids := Each(FullRanking(s, settings), RankedId);
    RankedIds(s, settings);
    DistinctIffOnce(Ids(s));
    DistinctIffOnce(ids);
    assert ids[p] == RankedId(FullRanking(s, settings)[p]) && ids[q] == RankedId(FullRanking(s, settings)[q]);
    assert if p < q then ids[p] != ids[q] else ids[q] != ids[p];
  }

  function RankedId(r: Ranked): int { r.candidate.id }

  ghost predicate AheadEverywhere(rankings: seq<seq<int>>, a: int, b: int) {
    forall i :: 0 <= i < |rankings| ==> Ahead(rankings[i], a, b)
  }

  lemma AheadIsMoreConfident(s: seq<Scored>, settings: Settings, i: nat, j: nat)
    requires Distinct(Ids(s)) && i < |s| && j < |s|
    requires AheadEverywhere(Rankings(s), s[i].id, s[j].id)
    ensures Grade(Rankings(s), settings, s[i]).confidence > Grade(Rankings(s), settings, s[j]).confidence
  {
    RankingsArePermutations(s);
    AheadEverywhereScoresMore(Rankings(s), settings.k, s[i].id, s[j].id);
    ConfidenceBounds(s, settings, i);
    ConfidenceBounds(s, settings, j);
    QuotientGrows(Grade(Rankings(s), settings, s[i]).rrf, Grade(Rankings(s), settings, s[j]).rrf,
                  BestPossible(|Rankings(s)|, settings.k));
  }

  /** Pareto order: a candidate ahead of another in every signal's ranking has strictly larger
      confidence and stands before it in the ranked list. */
  lemma AheadEverywhereRanksFirst(s: seq<Scored>, settings: Settings, i: nat, j: nat, p: nat, q: nat)
    requires Distinct(Ids(s)) && i < |s| && j < |s|
    requires AheadEverywhere(Rankings(s), s[i].id, s[j].id)
    requires p < |FullRanking(s, settings)| && FullRanking(s, settings)[p].candidate == s[i]
    requires q < |FullRanking(s, settings)| && FullRanking(s, settings)[q].candidate == s[j]
    ensures p < q && FullRanking(s, settings)[p].confidence > FullRanking(s, settings)[q].confidence
  {
    AheadIsMoreConfident(s, settings, i, j);
    FullRankingIsPermutation(s, settings);
    var i' := RankedIsGraded(s, settings, p);
    var j' := RankedIsGraded(s, settings, q);
  }

  // ---------------------------------------------------------------- the order the signals give

  lemma DifferentIds(s: seq<Scored>, i: nat, j: nat)
    requires Distinct(Ids(s)) && i < |s| && j < |s| && i != j
    ensures s[i].id != s[j].id && AllDifferent(s)
  {
    forall a, b | 0 <= a < |s| && 0 <= b < |s| && a != b ensures s[a].id != s[b].id {
      assert if a < b then Ids(s)[a] != Ids(s)[b] else Ids(s)[b] != Ids(s)[a];
    }
  }

  /** The candidate an id in a ranking stands for. */
  lemma SortedById(s: seq<Scored>, key: Scored -> Key, i: nat, p: nat)
    requires Distinct(Ids(s)) && i < |s| && p < |SortDesc(s, key)| && Ids(SortDesc(s, key))[p] == s[i].id
    ensures SortDesc(s, key)[p] == s[i]
  {
    SortDescSorts(s, key);
    var i' := Looked(s, SortDesc(s, key), p);
    if i' != i { DifferentIds(s, i, i'); }
  }

  lemma PlaceInSorted(s: seq<Scored>, key: Scored -> Key, i: nat) returns (p: nat)
    requires i < |s|
    ensures p < |SortDesc(s, key)| && SortDesc(s, key)[p] == s[i]
  {
    SortDescSorts(s, key);
    assert s[i] in multiset(SortDesc(s, key));
    p :| 0 <= p < |SortDesc(s, key)| && SortDesc(s, key)[p] == s[i];
  }

  lemma AheadIff(s: seq<Scored>, key: Scored -> Key, i: nat, j: nat)
    requires Distinct(Ids(s)) && i < |s| && j < |s| && i != j
    ensures Ahead(Ids(SortDesc(s, key)), s[i].id, s[j].id)
            <==> Less(key(s[j]), key(s[i])) || (key(s[i]) == key(s[j]) && i < j)
  {
    var ids := Ids(SortDesc(s, key));
    DifferentIds(s, i, j);
    if Ahead(ids, s[i].id, s[j].id) {
      var p, q :| 0 <= p < q < |ids| && ids[p] == s[i].id && ids[q] == s[j].id;
      SortedById(s, key, i, p);
      SortedById(s, key, j, q);
      SortOrderIff(s, key, i, j, p, q);
    } else {
      var p := PlaceInSorted(s, key, i);
      var q := PlaceInSorted(s, key, j);
      SortOrderIff(s, key, i, j, p, q);
      assert ids[p] == s[i].id && ids[q] == s[j].id;
    }
  }

  /** What a candidate's cosine counts for: an absent one, like one of zero, counts as -1. */
  predicate CountsFor(c: Scored, cosine: real) {
    match c.embedding
    case Some(x) => if x == 0.0 then cosine == -1.0 else cosine == x
    case None => cosine == -1.0
  }

  /** Which signals the rankings order by: the text score in the first, amount and date score together in the second,
      and the cosine in the third, which is there exactly when some candidate has one. The larger signal comes first,
      and of two equal ones the candidate listed first. */
  lemma WhatRankingsOrderBy(s: seq<Scored>, i: nat, j: nat, x: real, y: real)
    requires Distinct(Ids(s)) && i < |s| && j < |s| && i != j && CountsFor(s[i], x) && CountsFor(s[j], y)
    ensures |Rankings(s)| == if exists c :: c in s && c.embedding.Some? then 3 else 2
    ensures Ahead(Rankings(s)[0], s[i].id, s[j].id)
            <==> s[i].fuzzy > s[j].fuzzy || (s[i].fuzzy == s[j].fuzzy && i < j)
    ensures var a, b := s[i].amountScore + s[i].dateScore, s[j].amountScore + s[j].dateScore;
            Ahead(Rankings(s)[1], s[i].id, s[j].id) <==> a > b || (a == b && i < j)
    ensures |Rankings(s)| == 3 ==> (Ahead(Rankings(s)[2], s[i].id, s[j].id) <==> x > y || (x == y && i < j))
  {
    AheadIff(s, FuzzyKey, i, j);
    AheadIff(s, AmountDateKey, i, j);
    AheadIff(s, EmbeddingKey, i, j);
    if c :| c in s && c.embedding.Some? {
      var k :| 0 <= k < |s| && s[k] == c;
      assert AnyEmbedding(s);
    }
  }

  /** Better on every signal. Without any cosine that is text, and amount with date. */
  ghost predicate BetterSignals(s: seq<Scored>, c: Scored, d: Scored) {
    && c.fuzzy > d.fuzzy && c.amountScore + c.dateScore > d.amountScore + d.dateScore
    && ((exists e :: e in s && e.embedding.Some?) ==>
          exists x, y :: CountsFor(c, x) && CountsFor(d, y) && x > y)
  }

  lemma Counting(c: Scored) returns (x: real)
    ensures forall y :: CountsFor(c, y) <==> y == x
  {
    x := if c.embedding.None? || c.embedding.value == 0.0 then -1.0 else c.embedding.value;
  }

  lemma BetterIsAhead(s: seq<Scored>, i: nat, j: nat)
    requires Distinct(Ids(s)) && i < |s| && j < |s| && i != j && BetterSignals(s, s[i], s[j])
    ensures AheadEverywhere(Rankings(s), s[i].id, s[j].id)
  {
    var x := Counting(s[i]);
    var y := Counting(s[j]);
    WhatRankingsOrderBy(s, i, j, x, y);
    forall n | 0 <= n < |Rankings(s)| ensures Ahead(Rankings(s)[n], s[i].id, s[j].id) {
      assert n == 0 || n == 1 || n == 2;
    }
  }

  /** Pareto order on the signals themselves: a candidate better than another on every signal has strictly larger
      confidence and stands before it in the list. */
  lemma BetterSignalsRankFirst(s: seq<Scored>, settings: Settings, p: nat, q: nat)
    requires Distinct(Ids(s)) && p < |FullRanking(s, settings)| && q < |FullRanking(s, settings)|
    requires BetterSignals(s, FullRanking(s, settings)[p].candidate, FullRanking(s, settings)[q].candidate)
    ensures p < q && FullRanking(s, settings)[p].confidence > FullRanking(s, settings)[q].confidence
  {
    var i := RankedIsGraded(s, settings, p);
    var j := RankedIsGraded(s, settings, q);
    BetterIsAhead(s, i, j);
    AheadEverywhereRanksFirst(s, settings, i, j, p, q);
  }

  /** A candidate better than all the others on every signal heads the list, with confidence 1. */
  lemma BestSignalsWin(s: seq<Scored>, settings: Settings, i: nat)
    requires Distinct(Ids(s)) && i < |s| && forall j :: 0 <= j < |s| && j != i ==> BetterSignals(s, s[i], s[j])
    ensures FullRanking(s, settings) != [] && FullRanking(s, settings)[0].candidate == s[i]
    ensures FullRanking(s, settings)[0].confidence == 1.0
  {
    var full := FullRanking(s, settings);
    FullRankingIsPermutation(s, settings);
    var p := CandidateIsRanked(s, settings, i);
    var j := RankedIsGraded(s, settings, 0);
    if j != i { BetterSignalsRankFirst(s, settings, p, 0); }
    forall n | 0 <= n < |Rankings(s)| ensures Rankings(s)[n] != [] && Rankings(s)[n][0] == s[i].id {
      HeadOfRanking(s, i, n);
    }
    ConfidenceBounds(s, settings, i);
  }

  lemma HeadOfRanking(s: seq<Scored>, i: nat, n: nat)
    requires Distinct(Ids(s)) && i < |s| && n < |Rankings(s)|
    requires forall j :: 0 <= j < |s| && j != i ==> BetterSignals(s, s[i], s[j])
    ensures Rankings(s)[n] != [] && Rankings(s)[n][0] == s[i].id
  {
    RankingsArePermutations(s);
    var ranking := Rankings(s)[n];
    var j := PlaceOf(Ids(s), ranking, ranking[0]);
    NoneAheadOfTheHead(ranking, s[i].id);
    if j != i { BetterIsAhead(s, i, j); }
  }

  lemma NoneAheadOfTheHead(ranking: seq<int>, id: int)
    requires ranking != [] && Distinct(ranking)
    ensures !Ahead(ranking, id, ranking[0])
  {
  }

  lemma ScoreOfTwo(a: seq<int>, b: seq<int>, k: Smoothing, id: int)
    ensures Fusion.Score([a, b], k, id) == Share(a, k, id) + Share(b, k, id)
  {
    assert [a, b][..1] == [a] && [a][..0] == [];
    assert Fusion.Score([a], k, id) == Fusion.Score([], k, id) + Share(a, k, id);
  }

  lemma ScoreOfThree(a: seq<int>, b: seq<int>, c: seq<int>, k: Smoothing, id: int)
    ensures Fusion.Score([a, b, c], k, id) == Share(a, k, id) + Share(b, k, id) + Share(c, k, id)
  {
    ScoreOfTwo(a, b, k, id);
    assert [a, b, c][..2] == [a, b];
  }

  /** The candidate takes these places, counted from 0, in the rankings. */
  ghost predicate Takes(rankings: seq<seq<int>>, id: int, places: seq<nat>) {
    && |places| == |rankings|
    && forall n :: 0 <= n < |places| ==> places[n] < |rankings[n]| && rankings[n][places[n]] == id
  }

  lemma SharesOfPlaces(rankings: seq<seq<int>>, ids: seq<int>, k: Smoothing, id: int, places: seq<nat>)
    requires Permutations(rankings, ids) && Takes(rankings, id, places)
    ensures forall n :: 0 <= n < |places| ==> Share(rankings[n], k, id) == Weight(k, places[n] + 1)
  {
    forall n | 0 <= n < |places| ensures Share(rankings[n], k, id) == Weight(k, places[n] + 1) {
      ShareIsWeight(rankings[n], k, places[n]);
    }
  }

  lemma ScoreOfWeights(rankings: seq<seq<int>>, ids: seq<int>, k: Smoothing, id: int, places: seq<nat>)
    requires Permutations(rankings, ids) && Takes(rankings, id, places) && 2 <= |rankings| <= 3
    ensures Fusion.Score(rankings, k, id)
            == if |places| == 2 then Weight(k, places[0] + 1) + Weight(k, places[1] + 1)
               else Weight(k, places[0] + 1) + Weight(k, places[1] + 1) + Weight(k, places[2] + 1)
  {
    SharesOfPlaces(rankings, ids, k, id, places);
    if |rankings| == 3 {
      ScoreOfThree(rankings[0], rankings[1], rankings[2], k, id);
      assert rankings == [rankings[0], rankings[1], rankings[2]];
    } else {
      ScoreOfTwo(rankings[0], rankings[1], k, id);
      assert rankings == [rankings[0], rankings[1]];
    }
  }

  /** A candidate's score is what its places in the rankings are worth. */
  lemma ScoreOfPlaces(s: seq<Scored>, settings: Settings, i: nat, places: seq<nat>)
    requires Distinct(Ids(s)) && i < |s| && Takes(Rankings(s), s[i].id, places)
    ensures 2 <= |places| <= 3
    ensures var k, rrf := settings.k, Grade(Rankings(s), settings, s[i]).rrf;
            rrf == if |places| == 2 then Weight(k, places[0] + 1) + Weight(k, places[1] + 1)
                   else Weight(k, places[0] + 1) + Weight(k, places[1] + 1) + Weight(k, places[2] + 1)
  {
    RankingsArePermutations(s);
    ScoreOfWeights(Rankings(s), Ids(s), settings.k, s[i].id, places);
  }

  /** And its confidence is that score over what first places everywhere would be worth. */
  lemma ConfidenceOfScore(s: seq<Scored>, settings: Settings, i: nat)
    requires Distinct(Ids(s)) && i < |s|
    ensures var g := Grade(Rankings(s), settings, s[i]);
            g.confidence * (|Rankings(s)| as real / (settings.k + 1) as real) == g.rrf
  {
    ConfidenceBounds(s, settings, i);
    var g, best := Grade(Rankings(s), settings, s[i]), BestPossible(|Rankings(s)|, settings.k);
    assert |Rankings(s)| >= 2;
    assert g.rrf == (g.rrf / best) * best;
  }

  lemma RankedAreDifferent(s: seq<Scored>, settings: Settings)
    requires Distinct(Ids(s))
    ensures AllDifferent(Each(SortDesc(s, FuzzyKey), Graded(s, settings)))
  {
    var order := SortDesc(s, FuzzyKey);
    RankingIsPermutation(s, FuzzyKey);
    forall p, q | 0 <= p < q < |order| ensures Graded(s, settings)(order[p]) != Graded(s, settings)(order[q]) {
      assert Ids(order)[p] != Ids(order)[q];
    }
  }

  /** The whole order of the list: more confident candidates first, of equally confident ones the better text, and of
      those the one listed first. */
  lemma ListOrderIff(s: seq<Scored>, settings: Settings, i: nat, j: nat, p: nat, q: nat)
    requires Distinct(Ids(s)) && i < |s| && j < |s| && i != j
    requires p < |FullRanking(s, settings)| && q < |FullRanking(s, settings)|
    requires FullRanking(s, settings)[p].candidate == s[i] && FullRanking(s, settings)[q].candidate == s[j]
    ensures var x, y := FullRanking(s, settings)[p], FullRanking(s, settings)[q];
            p < q <==> (|| x.confidence > y.confidence
                        || (x.confidence == y.confidence && s[i].fuzzy > s[j].fuzzy)
                        || (x.confidence == y.confidence && s[i].fuzzy == s[j].fuzzy && i < j))
  {
    var order, graded := SortDesc(s, FuzzyKey), Each(SortDesc(s, FuzzyKey), Graded(s, settings));
    DifferentIds(s, i, j);
    RankedAreDifferent(s, settings);
    var i' := RankedIsGraded(s, settings, p);
    var j' := RankedIsGraded(s, settings, q);
    var a := PlaceInSorted(s, FuzzyKey, i);
    var b := PlaceInSorted(s, FuzzyKey, j);
    assert graded[a] == FullRanking(s, settings)[p] && graded[b] == FullRanking(s, settings)[q];
    SortOrderIff(graded, RankKey, a, b, p, q);
    SortOrderIff(s, FuzzyKey, i, j, a, b);
  }

  /** A smaller non-negative limit cuts the list of a larger one. */
  lemma SmallerLimitIsPrefix<T>(s: seq<T>, limit: nat, larger: nat)
    requires limit <= larger
    ensures Cut(s, limit) <= Cut(s, larger) <= s
    ensures |Cut(s, limit)| == if limit <= |s| then limit else |s|
  {
  }

  /** A negative limit drops that many from the end. */
  lemma NegativeLimitDrops<T>(s: seq<T>, dropped: int)
    requires dropped > 0
    ensures Cut(s, -dropped) == if dropped <= |s| then s[..|s| - dropped] else []
  {
  }

  // ---------------------------------------------------------------- the code

  lemma {:induction false} FirstSeenOfDistinct(seen: seq<int>, ids: seq<int>)
    requires Distinct(ids) && forall i :: 0 <= i < |ids| ==> ids[i] !in seen
    ensures FirstSeen(seen, ids) == seen + ids
  {
    if ids != [] {
      var n := |ids| - 1;
      FirstSeenOfDistinct(seen, ids[..n]);
      assert ids[..n] + [ids[n]] == ids;
    }
  }

  lemma {:induction false} FirstSeenAddsNothing(seen: seq<int>, ids: seq<int>)
    requires forall i :: 0 <= i < |ids| ==> ids[i] in seen
    ensures FirstSeen(seen, ids) == seen
  {
    if ids != [] { FirstSeenAddsNothing(seen, ids[..|ids| - 1]); }
  }

  lemma OnlyRankingGivesTheOrder(ranking: seq<int>)
    requires Distinct(ranking)
    ensures FirstSeenAll([ranking]) == ranking
  {
    FirstSeenOfDistinct([], ranking);
    assert [ranking][..0] == [] && [] + ranking == ranking;
    assert FirstSeenAll([]) == [];
  }

  lemma SameMembers(xs: seq<int>, ys: seq<int>)
    requires multiset(xs) == multiset(ys)
    ensures forall i :: 0 <= i < |xs| ==> xs[i] in ys
  {
    forall i | 0 <= i < |xs| ensures xs[i] in ys {
      assert xs[i] in multiset(ys);
    }
  }

  /** The dict keeps the order of the first ranking, which already names every candidate. */
  lemma {:induction false} FirstRankingGivesTheOrder(rankings: seq<seq<int>>, ids: seq<int>)
    requires rankings != [] && Permutations(rankings, ids)
    ensures FirstSeenAll(rankings) == rankings[0]
  {
    var n := |rankings| - 1;
    if n == 0 {
      OnlyRankingGivesTheOrder(rankings[0]);
      assert rankings == [rankings[0]];
    } else {
      FirstRankingGivesTheOrder(rankings[..n], ids);
      SameMembers(rankings[n], rankings[0]);
      FirstSeenAddsNothing(rankings[0], rankings[n]);
    }
  }

  method ById(s: seq<Scored>) returns (byId: map<int, Scored>)
    requires Distinct(Ids(s))
    ensures forall i :: 0 <= i < |s| ==> s[i].id in byId && byId[s[i].id] == s[i]
  {
    byId := map[];
    for n := 0 to |s|
      invariant forall i :: 0 <= i < n ==> s[i].id in byId && byId[s[i].id] == s[i]
    {
      assert forall i :: 0 <= i < n ==> Ids(s)[i] != Ids(s)[n];
      byId := byId[s[n].id := s[n]];
    }
  }

  /** The result loop over the fused dict. */
  method GateFused(fused: Fused, byId: map<int, Scored>, best: real, threshold: real, minFuzzy: real)
    returns (results: seq<Ranked>)
    requires best > 0.0 && forall n :: 0 <= n < |fused.order| ==>
        fused.order[n] in fused.score && fused.order[n] in byId
    ensures |results| == |fused.order|
    ensures forall n :: 0 <= n < |results| ==>
              results[n] == Gate(byId[fused.order[n]], fused.score[fused.order[n]], best, threshold, minFuzzy)
  {
    results := [];
    for n := 0 to |fused.order|
      invariant |results| == n
      invariant forall m :: 0 <= m < n ==>
                  results[m] == Gate(byId[fused.order[m]], fused.score[fused.order[m]], best, threshold, minFuzzy)
    {
      var id := fused.order[n];
      results := results + [Gate(byId[id], fused.score[id], best, threshold, minFuzzy)];
    }
  }

  /** `_fuse`; None is the ValueError of a non-positive k. */
  method Fuse(scored: seq<Scored>, k: int, threshold: real, minFuzzy: real, limit: int)
    returns (r: Option<seq<Ranked>>)
    requires Distinct(Ids(scored)) // primary keys
    ensures r == if k <= 0 then None else Some(Cut(FullRanking(scored, Settings(k, threshold, minFuzzy)), limit))
  {
    var byId := ById(scored);
    var byFuzzy := SortDesc(scored, FuzzyKey);
    var rankings := [Ids(byFuzzy), Ids(SortDesc(scored, AmountDateKey))];
    if AnyEmbedding(scored) {
      rankings := rankings + [Ids(SortDesc(scored, EmbeddingKey))];
    }
    assert rankings == Rankings(scored);
    var fused := ReciprocalRankFusion(rankings, k);
    if fused.None? {
      return None;
    }
    OrderIsByFuzzy(scored);
    LookedUp(scored, byId);
    var results := GateFused(fused.value, byId, BestPossible(|rankings|, k), threshold, minFuzzy);
    GatedIsGraded(scored, Settings(k, threshold, minFuzzy), results);
    return Some(Cut(SortDesc(results, RankKey), limit));
  }

  /** The dict finds every candidate of the first ranking. */
  lemma LookedUp(s: seq<Scored>, byId: map<int, Scored>)
    requires forall i :: 0 <= i < |s| ==> s[i].id in byId && byId[s[i].id] == s[i]
    ensures var order := SortDesc(s, FuzzyKey);
            forall n :: 0 <= n < |order| ==> order[n].id in byId && byId[order[n].id] == order[n]
  {
    SortDescSorts(s, FuzzyKey);
    var order := SortDesc(s, FuzzyKey);
    forall n | 0 <= n < |order| ensures order[n].id in byId && byId[order[n].id] == order[n] {
      var i := Looked(s, order, n);
    }
  }

  /** Gating the candidates in the first ranking's order is grading them. */
  lemma GatedIsGraded(s: seq<Scored>, settings: Settings, results: seq<Ranked>)
    requires var order, rankings := SortDesc(s, FuzzyKey), Rankings(s);
             && |results| == |order|
             && forall n :: 0 <= n < |results| ==> results[n] == Grade(rankings, settings, order[n])
    ensures results == Each(SortDesc(s, FuzzyKey), Graded(s, settings))
  {
  }

  lemma OrderIsByFuzzy(s: seq<Scored>)
    requires Distinct(Ids(s))
    ensures FirstSeenAll(Rankings(s)) == Ids(SortDesc(s, FuzzyKey))
  {
    RankingsArePermutations(s);
    FirstRankingGivesTheOrder(Rankings(s), Ids(s));
  }

  lemma Looked(s: seq<Scored>, sorted: seq<Scored>, n: nat) returns (i: nat)
    requires multiset(sorted) == multiset(s) && n < |sorted|
    ensures i < |s| && s[i] == sorted[n]
  {
    assert sorted[n] in multiset(s);
    i :| 0 <= i < |s| && s[i] == sorted[n];
  }
}
