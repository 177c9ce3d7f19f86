/**
 The embedding ranking of real survivors: where missing embeddings and zero cosines end up.
 */
module Embeddings {
  import opened Core
  import opened Sorting
  import opened Ranking
  import opened Reconcile
  import Matching
  import Reals
  import Signals

  /** The cosines that the sort key `or -1.0` puts on a level with a missing embedding. */
  predicate LikeMissing(cosine: real) { cosine == -1.0 || cosine == 0.0 }

  /** Scored embeddings are cosines of real vectors, and no survivor is scored twice. */
  lemma ScoresAreCosines(o: Oracles, config: Config, d: Matching.Desk, e: Matching.Expense, rows: seq<nat>)
    requires Signals.IsSqrt(o.sqrt) && IsPrefilter(d, e, config, rows)
    ensures var s := Scores(o, config, d, e, rows);
            && AllDifferent(s)
            && forall i :: 0 <= i < |s| && s[i].embedding.Some? ==> -1.0 <= s[i].embedding.value <= 1.0
  {
    var s := Scores(o, config, d, e, rows);
    forall i | 0 <= i < |s| && s[i].embedding.Some? ensures -1.0 <= s[i].embedding.value <= 1.0 {
      var row := d.banks[rows[i]];
      assert s[i] == ScoreRow(o, e, rows[i], row, config.window);
      Signals.CosineIsBounded(e.embedding.value, row.embedding.value, o.sqrt);
    }
    forall i, j | 0 <= i < j < |s| ensures s[i] != s[j] {
      assert s[i].id == rows[i] && s[j].id == rows[j];
    }
  }

  /** The places of two survivors in the embedding ranking. */
  ghost predicate Placed(s: seq<Scored>, i: nat, j: nat, p: nat, q: nat) {
    var r := SortDesc(s, EmbeddingKey);
    i < |s| && j < |s| && i != j && p < |r| && q < |r| && r[p] == s[i] && r[q] == s[j]
  }

  /** A survivor with a cosine ranks before one without exactly when its cosine is neither -1 nor 0, or the query
      listed it first. */
  lemma KnownBeforeMissingIff(o: Oracles, config: Config, d: Matching.Desk, e: Matching.Expense, rows: seq<nat>,
                              i: nat, j: nat, p: nat, q: nat)
    requires Signals.IsSqrt(o.sqrt) && IsPrefilter(d, e, config, rows)
    requires var s := Scores(o, config, d, e, rows);
             Placed(s, i, j, p, q) && s[i].embedding.Some? && s[j].embedding.None?
    ensures var s := Scores(o, config, d, e, rows);
            p < q <==> !LikeMissing(s[i].embedding.value) || i < j
  {
    var s := Scores(o, config, d, e, rows);
    ScoresAreCosines(o, config, d, e, rows);
    SortOrderIff(s, EmbeddingKey, i, j, p, q);
    Signals.MissingEmbeddingNeverWins(s[i], s[j]);
  }

  /** Of two survivors with cosines the larger one ranks first, except that a zero ranks behind every negative
      cosine above -1, and on a level with -1. */
  lemma LargerCosineFirstIff(o: Oracles, config: Config, d: Matching.Desk, e: Matching.Expense, rows: seq<nat>,
                             i: nat, j: nat, p: nat, q: nat)
    requires Signals.IsSqrt(o.sqrt) && IsPrefilter(d, e, config, rows)
    requires var s := Scores(o, config, d, e, rows);
             && Placed(s, i, j, p, q) && s[i].embedding.Some? && s[j].embedding.Some?
             && s[i].embedding.value > s[j].embedding.value
    ensures var s := Scores(o, config, d, e, rows);
            p < q <==> s[i].embedding.value != 0.0 || (s[j].embedding.value == -1.0 && i < j)
  {
    var s := Scores(o, config, d, e, rows);
    ScoresAreCosines(o, config, d, e, rows);
    SortOrderIff(s, EmbeddingKey, i, j, p, q);
    Signals.EmbeddingOrderIff(s[i], s[j]);
  }

  lemma PlaceOfScore(s: seq<Scored>, i: nat) returns (p: nat)
    requires i < |s|
    ensures p < |SortDesc(s, EmbeddingKey)| && SortDesc(s, EmbeddingKey)[p] == s[i]
  {
    SortDescSorts(s, EmbeddingKey);
    assert s[i] in multiset(SortDesc(s, EmbeddingKey));
    p :| 0 <= p < |SortDesc(s, EmbeddingKey)| && SortDesc(s, EmbeddingKey)[p] == s[i];
  }

  lemma SourceOf(s: seq<Scored>, p: nat) returns (i: nat)
    requires p < |SortDesc(s, EmbeddingKey)|
    ensures i < |s| && s[i] == SortDesc(s, EmbeddingKey)[p]
  {
    SortDescSorts(s, EmbeddingKey);
    assert SortDesc(s, EmbeddingKey)[p] in multiset(s);
    i :| 0 <= i < |s| && s[i] == SortDesc(s, EmbeddingKey)[p];
  }

  /** Nobody without an embedding stands before somebody with one. */
  ghost predicate MissingLast(ranking: seq<Scored>) {
    forall p: nat, q: nat :: p < q < |ranking| && ranking[q].embedding.Some? ==> ranking[p].embedding.Some?
  }

  /** Nobody without an embedding was listed before somebody with a cosine of -1 or 0. */
  ghost predicate LikeMissingFirst(s: seq<Scored>) {
    forall j: nat, i: nat :: j < i < |s| && s[i].embedding.Some? && LikeMissing(s[i].embedding.value) ==>
      s[j].embedding.Some?
  }

  lemma MissingLastOnlyIf(o: Oracles, config: Config, d: Matching.Desk, e: Matching.Expense, rows: seq<nat>)
    requires Signals.IsSqrt(o.sqrt) && IsPrefilter(d, e, config, rows)
    requires MissingLast(SortDesc(Scores(o, config, d, e, rows), EmbeddingKey))
    ensures LikeMissingFirst(Scores(o, config, d, e, rows))
  {
    var s := Scores(o, config, d, e, rows);
    forall j: nat, i: nat | j < i < |s| && s[i].embedding.Some? && LikeMissing(s[i].embedding.value)
      ensures s[j].embedding.Some?
    {
      var p := PlaceOfScore(s, i);
      var q := PlaceOfScore(s, j);
      if s[j].embedding.None? { KnownBeforeMissingIff(o, config, d, e, rows, i, j, p, q); }
    }
  }

  lemma MissingLastIf(o: Oracles, config: Config, d: Matching.Desk, e: Matching.Expense, rows: seq<nat>)
    requires Signals.IsSqrt(o.sqrt) && IsPrefilter(d, e, config, rows)
    requires LikeMissingFirst(Scores(o, config, d, e, rows))
    ensures MissingLast(SortDesc(Scores(o, config, d, e, rows), EmbeddingKey))
  {
    var s := Scores(o, config, d, e, rows);
    var r := SortDesc(s, EmbeddingKey);
    forall q: nat, p: nat | q < p < |r| && r[p].embedding.Some? ensures r[q].embedding.Some? {
      var i := SourceOf(s, p);
      var j := SourceOf(s, q);
      if r[q].embedding.None? { KnownBeforeMissingIff(o, config, d, e, rows, i, j, p, q); }
    }
  }

  /** The survivors without an embedding all rank behind every survivor with one exactly when each cosine of -1
      or 0 was listed before all of them. */
  lemma MissingRankLastIff(o: Oracles, config: Config, d: Matching.Desk, e: Matching.Expense, rows: seq<nat>)
    requires Signals.IsSqrt(o.sqrt) && IsPrefilter(d, e, config, rows)
    ensures var s := Scores(o, config, d, e, rows);
            MissingLast(SortDesc(s, EmbeddingKey)) <==> LikeMissingFirst(s)
  {
    var s := Scores(o, config, d, e, rows);
    if MissingLast(SortDesc(s, EmbeddingKey)) { MissingLastOnlyIf(o, config, d, e, rows); }
    if LikeMissingFirst(s) { MissingLastIf(o, config, d, e, rows); }
  }

  // ---------------------------------------------------------------- an orthogonal row behind an opposed one

  lemma RootOf(sqrt: real -> real, x: real, root: real)
    requires Signals.IsSqrt(sqrt) && root >= 0.0 && root * root == x
    ensures sqrt(x) == root
  {
    Reals.SquareIsNonNegative(root);
    var y := sqrt(x);
    assert y * y == x;
    if y > root { Reals.SquareGrows(y, root); }
    if root > y { Reals.SquareGrows(root, y); }
  }

  lemma DotOfTwo(a: real, b: real, c: real, d: real)
    ensures Signals.Dot([a, b], [c, d]) == a * c + b * d
  {
    assert [a, b][..1] == [a] && [c, d][..1] == [c];
    assert Signals.Dot([a], [c]) == a * c by {
      assert [a][..0] == [] && [c][..0] == [];
    }
  }

  /** The cosines of (0, 1) and of (-3, 4) with (1, 0). */
  lemma TwoCosines(sqrt: real -> real)
    requires Signals.IsSqrt(sqrt)
    ensures Signals.CosineSimilarity([1.0, 0.0], [0.0, 1.0], sqrt) == 0.0
    ensures Signals.CosineSimilarity([1.0, 0.0], [-3.0, 4.0], sqrt) == -0.6
  {
    DotOfTwo(1.0, 0.0, 1.0, 0.0);
    DotOfTwo(0.0, 1.0, 0.0, 1.0);
    DotOfTwo(-3.0, 4.0, -3.0, 4.0);
    DotOfTwo(1.0, 0.0, 0.0, 1.0);
    DotOfTwo(1.0, 0.0, -3.0, 4.0);
    RootOf(sqrt, 1.0, 1.0);
    RootOf(sqrt, 25.0, 5.0);
  }

  /** An expense and three candidates alike but for their vectors: none, orthogonal, and opposed. */
  function Trio(): (Matching.Desk, Matching.Expense) {
    var e := Matching.Expense(10000, 0, "EUR", "taxi", Some([1.0, 0.0]), Matching.Unmatched);
    var missing := Matching.BankRow(10000, 0, "EUR", "taxi", None, Matching.Unmatched, None);
    var orthogonal := missing.(embedding := Some([0.0, 1.0]));
    var opposed := missing.(embedding := Some([-3.0, 4.0]));
    (Matching.Desk(map[0 := e], map[0 := missing, 1 := orthogonal, 2 := opposed]), e)
  }

  /** The opposed row, with cosine -0.6, ranks first; the orthogonal row, with cosine 0, ranks last, behind even
      the row without a vector, which the query listed before it. */
  lemma OrthogonalRanksLast(o: Oracles, config: Config)
    requires Signals.IsSqrt(o.sqrt) && config.window >= 0
    ensures var (d, e) := Trio();
            && IsPrefilter(d, e, config, [0, 1, 2])
            && var r := SortDesc(Scores(o, config, d, e, [0, 1, 2]), EmbeddingKey);
               && |r| == 3
               && r[0].id == 2 && r[0].embedding == Some(-0.6)
               && r[1].id == 0 && r[1].embedding == None
               && r[2].id == 1 && r[2].embedding == Some(0.0)
  {
    TrioSurvives(config);
    TrioScores(o, config);
    var (d, e) := Trio();
    var s := Scores(o, config, d, e, [0, 1, 2]);
    assert s == [s[0], s[1], s[2]];
    ThreeSorted(s[0], s[1], s[2]);
  }

  lemma TrioSurvives(config: Config)
    requires config.window >= 0
    ensures var (d, e) := Trio(); IsPrefilter(d, e, config, [0, 1, 2])
  {
    var (d, e) := Trio();
    Signals.NearMeans(10000, 0, 10000, 0, config.window, config.tolerance);
    assert Survives(e, d.banks[0], config.window, config.tolerance);
    assert Survives(e, d.banks[1], config.window, config.tolerance);
    assert Survives(e, d.banks[2], config.window, config.tolerance);
  }

  lemma TrioScores(o: Oracles, config: Config)
    requires Signals.IsSqrt(o.sqrt)
    ensures var (d, e) := Trio();
            var s := Scores(o, config, d, e, [0, 1, 2]);
            && |s| == 3 && s[0].id == 0 && s[1].id == 1 && s[2].id == 2
            && s[0].embedding == None && s[1].embedding == Some(0.0) && s[2].embedding == Some(-0.6)
  {
    var (d, e) := Trio();
    TwoCosines(o.sqrt);
    assert ScoreRow(o, e, 0, d.banks[0], config.window).embedding == None;
    assert ScoreRow(o, e, 1, d.banks[1], config.window).embedding == Some(0.0);
    assert ScoreRow(o, e, 2, d.banks[2], config.window).embedding == Some(-0.6);
  }

  lemma SortSnoc(s: seq<Scored>, x: Scored)
    ensures SortDesc(s + [x], EmbeddingKey) == Insert(SortDesc(s, EmbeddingKey), x, EmbeddingKey)
  {
    assert (s + [x])[..|s|] == s;
  }

  lemma InsertPast(s: seq<Scored>, y: Scored, x: Scored)
    requires Less(EmbeddingKey(y), EmbeddingKey(x))
    ensures Insert(s + [y], x, EmbeddingKey) == Insert(s, x, EmbeddingKey) + [y]
  {
    assert (s + [y])[..|s|] == s;
  }

  lemma ThreeSorted(a: Scored, b: Scored, c: Scored)
    requires a.embedding == None && b.embedding == Some(0.0) && c.embedding == Some(-0.6)
    ensures SortDesc([a, b, c], EmbeddingKey) == [c, a, b]
  {
    SortSnoc([], a);
    assert [] + [a] == [a];
    SortSnoc([a], b);
    assert [a] + [b] == [a, b];
    SortSnoc([a, b], c);
    assert [a, b] + [c] == [a, b, c];
    InsertPast([a], b, c);
    InsertPast([], a, c);
  }
}
