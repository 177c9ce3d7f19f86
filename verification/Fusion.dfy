/** Reciprocal rank fusion: the accumulation loop and what its scores mean. */
module Fusion {
  import opened Core

  /** The constant k of the RRF paper; anything below 1 is refused before use. */
  type Smoothing = k: int | k >= 1 witness 60

  /** What one place in a ranking is worth; places count from 1. */
  function Weight(k: Smoothing, place: nat): real {
    1.0 / ((k + place) as real)
  }

  /** What one ranking gives a candidate: the weight of every place it takes there. */
  function Share(ranking: seq<int>, k: Smoothing, id: int): real {
    if ranking == [] then 0.0
    else Share(ranking[..|ranking| - 1], k, id) + if ranking[|ranking| - 1] == id then Weight(k, |ranking|) else 0.0
  }

  /** score(d) = sum over rankings of 1 / (k + rank(d)). */
  function Score(rankings: seq<seq<int>>, k: Smoothing, id: int): real {
    if rankings == [] then 0.0
    else Score(rankings[..|rankings| - 1], k, id) + Share(rankings[|rankings| - 1], k, id)
  }

  ghost predicate Occurs(rankings: seq<seq<int>>, id: int) {
    exists i :: 0 <= i < |rankings| && id in rankings[i]
  }

  /** Distinct members in the order they are first met: the order of a dict's keys. */
  function FirstSeen(seen: seq<int>, ids: seq<int>): seq<int> {
    if ids == [] then seen
    else
      var front := FirstSeen(seen, ids[..|ids| - 1]);
      if ids[|ids| - 1] in front then front else front + [ids[|ids| - 1]]
  }

  function FirstSeenAll(rankings: seq<seq<int>>): seq<int> {
    if rankings == [] then [] else FirstSeen(FirstSeenAll(rankings[..|rankings| - 1]), rankings[|rankings| - 1])
  }

  /** A dict: its values, and its keys in insertion order. */
  datatype Fused = Fused(order: seq<int>, score: map<int, real>)

  method ReciprocalRankFusion(rankings: seq<seq<int>>, k: int) returns (r: Option<Fused>)
    ensures r.None? <==> k <= 0 // ValueError
    ensures r.Some? ==>
              && r.value.order == FirstSeenAll(rankings)
              && (forall id :: id in r.value.score <==> Occurs(rankings, id))
              && (forall id :: id in r.value.score <==> id in r.value.order)
              && (forall id :: id in r.value.score ==> r.value.score[id] == Score(rankings, k, id))
  {
    if k <= 0 {
      return None;
    }
    var order: seq<int>, score: map<int, real> := [], map[];
    for i := 0 to |rankings|
      invariant order == FirstSeenAll(rankings[..i])
      invariant forall id :: id in score <==> Occurs(rankings[..i], id)
      invariant forall id :: id in score <==> id in order
      invariant forall id :: (if id in score then score[id] else 0.0) == Score(rankings[..i], k, id)
    {
      assert rankings[..i + 1][..i] == rankings[..i];
      ghost var before := order;
      for p := 0 to |rankings[i]|
        invariant order == FirstSeen(before, rankings[i][..p])
        invariant forall id :: id in score <==> Occurs(rankings[..i], id) || id in rankings[i][..p]
        invariant forall id :: id in score <==> id in order
        invariant forall id ::
                    (if id in score then score[id] else 0.0)
                        == Score(rankings[..i], k, id) + Share(rankings[i][..p], k, id)
      {
        assert rankings[i][..p + 1][..p] == rankings[i][..p];
        var id := rankings[i][p];
        var held := if id in score then score[id] else 0.0;
        order := if id in score then order else order + [id];
        score := score[id := held + 1.0 / ((k + p + 1) as real)];
      }
      assert rankings[i][..|rankings[i]|] == rankings[i];
      OccursSnoc(rankings[..i], rankings[i]);
      assert rankings[..i + 1] == rankings[..i] + [rankings[i]];
    }
    assert rankings[..|rankings|] == rankings;
    return Some(Fused(order, score));
  }

  lemma OccursSnoc(rankings: seq<seq<int>>, last: seq<int>)
    ensures forall id :: Occurs(rankings + [last], id) <==> Occurs(rankings, id) || id in last
  {
    forall id ensures Occurs(rankings + [last], id) <==> Occurs(rankings, id) || id in last {
      var all := rankings + [last];
      if Occurs(rankings, id) {
        var i :| 0 <= i < |rankings| && id in rankings[i];
        assert id in all[i];
      }
      if id in last { assert id in all[|rankings|]; }
    }
  }

  // ---------------------------------------------------------------- order of rankings

  lemma {:induction false} ScoreSplits(xs: seq<seq<int>>, ys: seq<seq<int>>, k: Smoothing, id: int)
    ensures Score(xs + ys, k, id) == Score(xs, k, id) + Score(ys, k, id)
  {
    if ys == [] {
      assert xs + ys == xs;
    } else {
      var n := |ys| - 1;
      ScoreSplits(xs, ys[..n], k, id);
      assert (xs + ys)[..|xs| + n] == xs + ys[..n];
    }
  }

  lemma ScoreWithout(ys: seq<seq<int>>, j: nat, k: Smoothing, id: int)
    requires j < |ys|
    ensures Score(ys, k, id) == Score(ys[..j] + ys[j + 1..], k, id) + Share(ys[j], k, id)
  {
    assert ys == ys[..j] + [ys[j]] + ys[j + 1..];
    ScoreSplits(ys[..j] + [ys[j]], ys[j + 1..], k, id);
    ScoreSplits(ys[..j], ys[j + 1..], k, id);
    assert (ys[..j] + [ys[j]])[..j] == ys[..j];
  }

  lemma MultisetWithout(ys: seq<seq<int>>, j: nat)
    requires j < |ys|
    ensures multiset(ys[..j] + ys[j + 1..]) == multiset(ys) - multiset{ys[j]}
  {
    assert ys == ys[..j] + [ys[j]] + ys[j + 1..];
  }

  /** Fusion does not depend on the order of the rankings. */
  lemma {:induction false} ScoreIgnoresOrder(xs: seq<seq<int>>, ys: seq<seq<int>>, k: Smoothing, id: int)
    requires multiset(xs) == multiset(ys)
    ensures Score(xs, k, id) == Score(ys, k, id)
    decreases |xs|
  {
    if xs == [] {
      assert |multiset(ys)| == 0;
    } else {
      var n := |xs| - 1;
      assert xs[n] in multiset(ys);
      var j :| 0 <= j < |ys| && ys[j] == xs[n];
      MultisetWithout(xs, n);
      MultisetWithout(ys, j);
      assert xs[..n] + xs[n + 1..] == xs[..n];
      ScoreIgnoresOrder(xs[..n], ys[..j] + ys[j + 1..], k, id);
      ScoreWithout(ys, j, k, id);
    }
  }

  // ---------------------------------------------------------------- total mass

  ghost predicate Distinct(ids: seq<int>) {
    forall i, j :: 0 <= i < j < |ids| ==> ids[i] != ids[j]
  }

  function ScoreMass(ids: seq<int>, rankings: seq<seq<int>>, k: Smoothing): real {
    if ids == [] then 0.0 else ScoreMass(ids[..|ids| - 1], rankings, k) + Score(rankings, k, ids[|ids| - 1])
  }

  function ShareMass(ids: seq<int>, ranking: seq<int>, k: Smoothing): real {
    if ids == [] then 0.0 else ShareMass(ids[..|ids| - 1], ranking, k) + Share(ranking, k, ids[|ids| - 1])
  }

  /** 1/(k+1) + ... + 1/(k+n). */
  function Harmonic(k: Smoothing, n: nat): real {
    if n == 0 then 0.0 else Harmonic(k, n - 1) + Weight(k, n)
  }

  function HarmonicSum(rankings: seq<seq<int>>, k: Smoothing): real {
    if rankings == [] then 0.0 else HarmonicSum(rankings[..|rankings| - 1], k) + Harmonic(k, |rankings[|rankings| - 1]|)
  }

  /** One more place in a ranking goes to exactly one of the ids. */
  lemma {:induction false} OnePlaceOneId(ids: seq<int>, ranking: seq<int>, last: int, k: Smoothing)
    requires Distinct(ids)
    ensures ShareMass(ids, ranking + [last], k) == ShareMass(ids, ranking, k)
        + if last in ids then Weight(k, |ranking| + 1) else 0.0
  {
    if ids != [] {
      var n := |ids| - 1;
      OnePlaceOneId(ids[..n], ranking, last, k);
      assert (ranking + [last])[..|ranking|] == ranking;
      assert last in ids <==> last in ids[..n] || last == ids[n];
    }
  }

  lemma {:induction false} ShareMassIsHarmonic(ids: seq<int>, ranking: seq<int>, k: Smoothing)
    requires Distinct(ids) && forall i :: 0 <= i < |ranking| ==> ranking[i] in ids
    ensures ShareMass(ids, ranking, k) == Harmonic(k, |ranking|)
  {
    if ranking == [] {
      EmptyShareMass(ids, k);
    } else {
      var n := |ranking| - 1;
      ShareMassIsHarmonic(ids, ranking[..n], k);
      OnePlaceOneId(ids, ranking[..n], ranking[n], k);
      assert ranking[..n] + [ranking[n]] == ranking;
    }
  }

  lemma {:induction false} EmptyShareMass(ids: seq<int>, k: Smoothing)
    ensures ShareMass(ids, [], k) == 0.0
  {
    if ids != [] { EmptyShareMass(ids[..|ids| - 1], k); }
  }

  lemma {:induction false} ScoreMassSplits(ids: seq<int>, front: seq<seq<int>>, last: seq<int>, k: Smoothing)
    ensures ScoreMass(ids, front + [last], k) == ScoreMass(ids, front, k) + ShareMass(ids, last, k)
  {
    if ids != [] {
      ScoreMassSplits(ids[..|ids| - 1], front, last, k);
      assert (front + [last])[..|front|] == front;
    }
  }

  /** Nothing is lost or invented: the scores of all ids add up to the reciprocals of all places. */
  lemma {:induction false} TotalMass(ids: seq<int>, rankings: seq<seq<int>>, k: Smoothing)
    requires Distinct(ids)
    requires forall i :: 0 <= i < |rankings| ==> forall p :: 0 <= p < |rankings[i]| ==> rankings[i][p] in ids
    ensures ScoreMass(ids, rankings, k) == HarmonicSum(rankings, k)
  {
    if rankings == [] {
      EmptyScoreMass(ids, k);
    } else {
      var n := |rankings| - 1;
      TotalMass(ids, rankings[..n], k);
      ScoreMassSplits(ids, rankings[..n], rankings[n], k);
      ShareMassIsHarmonic(ids, rankings[n], k);
      assert rankings[..n] + [rankings[n]] == rankings;
    }
  }

  lemma {:induction false} EmptyScoreMass(ids: seq<int>, k: Smoothing)
    ensures ScoreMass(ids, [], k) == 0.0
  {
    if ids != [] { EmptyScoreMass(ids[..|ids| - 1], k); }
  }

  // ---------------------------------------------------------------- places

  lemma WeightFalls(k: Smoothing, p: nat, q: nat)
    requires p < q
    ensures Weight(k, p) > Weight(k, q) > 0.0
  {
    var a, b := (k + p) as real, (k + q) as real;
    assert a > 0.0 && b > a;
    assert 1.0 / a - 1.0 / b == (b - a) / (a * b);
  }

  /** In a ranking without repetition a candidate gets the weight of its one place. */
  lemma {:induction false} ShareIsWeight(ranking: seq<int>, k: Smoothing, p: nat)
    requires Distinct(ranking) && p < |ranking|
    ensures Share(ranking, k, ranking[p]) == Weight(k, p + 1)
  {
    var n := |ranking| - 1;
    if p < n {
      ShareIsWeight(ranking[..n], k, p);
    } else {
      NoShare(ranking[..n], k, ranking[n]);
    }
  }

  lemma {:induction false} NoShare(ranking: seq<int>, k: Smoothing, id: int)
    requires id !in ranking
    ensures Share(ranking, k, id) == 0.0
  {
    if ranking != [] { NoShare(ranking[..|ranking| - 1], k, id); }
  }

  /** `a` stands before `b`. */
  ghost predicate Ahead(ranking: seq<int>, a: int, b: int) {
    exists p, q :: 0 <= p < q < |ranking| && ranking[p] == a && ranking[q] == b
  }

  lemma AheadHasMore(ranking: seq<int>, k: Smoothing, a: int, b: int)
    requires Distinct(ranking) && Ahead(ranking, a, b)
    ensures Share(ranking, k, a) > Share(ranking, k, b)
  {
    var p, q :| 0 <= p < q < |ranking| && ranking[p] == a && ranking[q] == b;
    ShareIsWeight(ranking, k, p);
    ShareIsWeight(ranking, k, q);
    WeightFalls(k, p + 1, q + 1);
  }

  /** Pareto order: ahead in every ranking means a strictly larger score. */
  lemma {:induction false} AheadEverywhereScoresMore(rankings: seq<seq<int>>, k: Smoothing, a: int, b: int)
    requires forall i :: 0 <= i < |rankings| ==> Distinct(rankings[i]) && Ahead(rankings[i], a, b)
    ensures if rankings == [] then Score(rankings, k, a) == Score(rankings, k, b)
        else Score(rankings, k, a) > Score(rankings, k, b)
  {
    if rankings != [] {
      var n := |rankings| - 1;
      AheadEverywhereScoresMore(rankings[..n], k, a, b);
      AheadHasMore(rankings[n], k, a, b);
    }
  }
}
