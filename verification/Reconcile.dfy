/**
 `ReconciliationService` run without interference: prefilter, score, fuse, and the
 decision to link or to park, against the tables of `Matching`.
 */
module Reconcile {
  import opened Core
  import opened Sorting
  import opened Ranking
  import opened Matching
  import Signals

  /** RapidFuzz and the square root, of which only bounds are ever used. */
  datatype Oracles = Oracles(fuzz: (string, string) -> real, sqrt: real -> real)

  datatype Config = Config(window: int, tolerance: real, k: int, threshold: real, minFuzzy: real)

  predicate OpenStatus(s: Matching.Status) { s in {Unmatched, Suggested, PendingReview} }

  /** The SQL conditions of `_prefilter`. */
  predicate Survives(e: Expense, row: BankRow, window: int, tolerance: real) {
    && row.link == None
    && OpenStatus(row.status)
    && row.currency == e.currency
    && Signals.ServiceNear(e.amount, e.date, row.amount, row.date, window, tolerance)
  }

  /** In a sound state the status condition follows from the link condition: no unlinked row is ever hidden. */
  lemma UnlinkedRowsSurvive(d: Desk, e: Expense, b: nat, window: int, tolerance: real)
    requires Sound(d) && b in d.banks
    ensures Survives(e, d.banks[b], window, tolerance) <==>
              && d.banks[b].link == None && d.banks[b].currency == e.currency
              && Signals.ServiceNear(e.amount, e.date, d.banks[b].amount, d.banks[b].date, window, tolerance)
  {
    assert BankSound(d, b);
  }

  /** What the query may return: exactly the surviving rows, once each, oldest first; the order of
      equal dates is the database's. */
  ghost predicate IsPrefilter(d: Desk, e: Expense, config: Config, rows: seq<nat>) {
    && (forall i :: 0 <= i < |rows| ==>
        rows[i] in d.banks && Survives(e, d.banks[rows[i]], config.window, config.tolerance))
    && (forall b :: b in d.banks && Survives(e, d.banks[b], config.window, config.tolerance) ==> b in rows)
    && (forall i, j :: 0 <= i < j < |rows| ==> rows[i] != rows[j])
    && (forall i, j :: 0 <= i < j < |rows| ==> d.banks[rows[i]].date <= d.banks[rows[j]].date)
  }

  predicate HasVector(v: Option<seq<real>>) { v.Some? && v.value != [] }

  function ScoreRow(o: Oracles, e: Expense, id: nat, row: BankRow, window: int): Scored {
    Scored(id,
           o.fuzz(e.text, row.description),
           Signals.AmountSimilarity(e.amount, row.amount),
           Signals.DateSimilarity(e.date, row.date, window),
           if HasVector(e.embedding) && HasVector(row.embedding)
           then Some(Signals.CosineSimilarity(e.embedding.value, row.embedding.value, o.sqrt)) else None)
  }

  function ScoreRows(o: Oracles, d: Desk, e: Expense, rows: seq<nat>, window: int): seq<Scored>
    requires forall i :: 0 <= i < |rows| ==> rows[i] in d.banks
  {
    seq(|rows|, i requires 0 <= i < |rows| => ScoreRow(o, e, rows[i], d.banks[rows[i]], window))
  }

  /** The signals of all survivors. */
  function Scores(o: Oracles, config: Config, d: Desk, e: Expense, rows: seq<nat>): seq<Scored>
    requires forall i :: 0 <= i < |rows| ==> rows[i] in d.banks
  {
    ScoreRows(o, d, e, rows, config.window)
  }

  /** The row to link, if the evidence singles one out. */
  function Chosen(ranked: seq<Ranked>): Option<nat> {
    if ranked == [] then None
    else if !ranked[0].autoMatchable then None
    else if |ranked| > 1 && ranked[1].autoMatchable then None
    else Some(ranked[0].candidate.id)
  }

  function SettingsOf(config: Config): Settings
    requires config.k >= 1
  {
    Settings(config.k, config.threshold, config.minFuzzy)
  }

  /** All survivors in ranked order. */
  function Standing(o: Oracles, config: Config, d: Desk, e: Expense, rows: seq<nat>): seq<Ranked>
    requires config.k >= 1 && forall i :: 0 <= i < |rows| ==> rows[i] in d.banks
  {
    FullRanking(Scores(o, config, d, e, rows), SettingsOf(config))
  }

  /** The specification of `auto_reconcile` once the query has returned `rows`. */
  function AutoReconciled(o: Oracles, config: Config, d: Desk, expense: nat, rows: seq<nat>)
    : Result<(Desk, Option<nat>), Error>
    requires expense in d.expenses && forall i :: 0 <= i < |rows| ==> rows[i] in d.banks
  {
    if rows == [] then Ok((Flagged(d, expense), None))
    else if config.k <= 0 then Err(BadSmoothing)
    else
      var chosen := Chosen(Standing(o, config, d, d.expenses[expense], rows));
      if chosen.None? then Ok((Flagged(d, expense), None))
      else
        match Confirm(d, expense, chosen.value)
        case Ok(d') => Ok((d', Some(chosen.value)))
        case Err(e) => Err(e)
  }

  // ---------------------------------------------------------------- soundness

  lemma RowsScoreDistinctly(o: Oracles, config: Config, d: Desk, e: Expense, rows: seq<nat>)
    requires IsPrefilter(d, e, config, rows)
    ensures Fusion.Distinct(Ids(Scores(o, config, d, e, rows)))
  {
    var ids := Ids(Scores(o, config, d, e, rows));
    forall i | 0 <= i < |rows| ensures ids[i] == rows[i] { assert Scores(o, config, d, e, rows)[i].id == rows[i]; }
  }

  /** The grade a surviving row gets among all survivors. */
  function GradeOf(o: Oracles, config: Config, d: Desk, e: Expense, rows: seq<nat>, id: nat): Ranked
    requires config.k >= 1 && id in d.banks && forall i :: 0 <= i < |rows| ==> rows[i] in d.banks
  {
    Grade(Rankings(Scores(o, config, d, e, rows)), SettingsOf(config),
          ScoreRow(o, e, id, d.banks[id], config.window))
  }

  /** No survivor beats `b`, both gates are cleared, and no other survivor ranked second clears them. */
  ghost predicate Singled(o: Oracles, config: Config, d: Desk, e: Expense, rows: seq<nat>, b: nat)
    requires config.k >= 1 && b in d.banks && forall i :: 0 <= i < |rows| ==> rows[i] in d.banks
  {
    var best := GradeOf(o, config, d, e, rows, b);
    && best.confidence >= config.threshold && best.candidate.fuzzy >= config.minFuzzy
    && (forall i :: 0 <= i < |rows| ==> !Less(RankKey(best), RankKey(GradeOf(o, config, d, e, rows, rows[i]))))
    && (|rows| > 1 ==>
          exists j :: 0 <= j < |rows| && rows[j] != b
                   && !GradeOf(o, config, d, e, rows, rows[j]).autoMatchable
                   && forall i :: 0 <= i < |rows| && rows[i] != b ==>
                        !Less(RankKey(GradeOf(o, config, d, e, rows, rows[j])),
                            RankKey(GradeOf(o, config, d, e, rows, rows[i]))))
  }

  lemma PlacedRow(o: Oracles, config: Config, d: Desk, e: Expense, rows: seq<nat>, p: nat) returns (i: nat)
    requires config.k >= 1 && IsPrefilter(d, e, config, rows) && p < |rows|
    ensures var full := Standing(o, config, d, e, rows);
            |full| == |rows| && i < |rows| && full[p] == GradeOf(o, config, d, e, rows, rows[i])
                && full[p].candidate.id == rows[i]
  {
    var scored := Scores(o, config, d, e, rows);
    var settings := SettingsOf(config);
    FullRankingIsPermutation(scored, settings);
    i := RankedIsGraded(scored, settings, p);
    assert scored[i] == ScoreRow(o, e, rows[i], d.banks[rows[i]], config.window);
  }

  lemma RowPlaced(o: Oracles, config: Config, d: Desk, e: Expense, rows: seq<nat>, i: nat) returns (p: nat)
    requires config.k >= 1 && IsPrefilter(d, e, config, rows) && i < |rows|
    ensures var full := Standing(o, config, d, e, rows);
            |full| == |rows| && p < |rows| && full[p] == GradeOf(o, config, d, e, rows, rows[i])
  {
    var scored := Scores(o, config, d, e, rows);
    var settings := SettingsOf(config);
    FullRankingIsPermutation(scored, settings);
    p := CandidateIsRanked(scored, settings, i);
    assert scored[i] == ScoreRow(o, e, rows[i], d.banks[rows[i]], config.window);
  }

  lemma ChosenIsSingled(o: Oracles, config: Config, d: Desk, e: Expense, rows: seq<nat>, chosen: nat)
    requires config.k >= 1 && IsPrefilter(d, e, config, rows)
    requires Chosen(Standing(o, config, d, e, rows)) == Some(chosen)
    ensures chosen in rows && Singled(o, config, d, e, rows, chosen)
  {
    var full := Standing(o, config, d, e, rows);
    FullRankingIsPermutation(Scores(o, config, d, e, rows), SettingsOf(config));
    var first := PlacedRow(o, config, d, e, rows, 0);
    forall i | 0 <= i < |rows| ensures !Less(RankKey(full[0]), RankKey(GradeOf(o, config, d, e, rows, rows[i]))) {
      var p := RowPlaced(o, config, d, e, rows, i);
      assert p > 0 ==> !Less(RankKey(full[0]), RankKey(full[p]));
    }
    if |rows| > 1 {
      var j := PlacedRow(o, config, d, e, rows, 1);
      RowsScoreDistinctly(o, config, d, e, rows);
      RankedOnce(Scores(o, config, d, e, rows), SettingsOf(config), 0, 1);
      forall i | 0 <= i < |rows| && rows[i] != chosen
        ensures !Less(RankKey(full[1]), RankKey(GradeOf(o, config, d, e, rows, rows[i])))
      {
        var p := RowPlaced(o, config, d, e, rows, i);
        assert p > 1 ==> !Less(RankKey(full[1]), RankKey(full[p]));
      }
    }
  }

  /** The runner-up of a singled row ranks strictly below it. */
  lemma RunnerUpIsBelow(o: Oracles, config: Config, d: Desk, e: Expense, rows: seq<nat>, b: nat) returns (j: nat)
    requires config.k >= 1 && IsPrefilter(d, e, config, rows) && b in rows && Singled(o, config, d, e, rows, b)
        && |rows| > 1
    ensures j < |rows| && rows[j] != b && !GradeOf(o, config, d, e, rows, rows[j]).autoMatchable
    ensures Less(RankKey(GradeOf(o, config, d, e, rows, rows[j])), RankKey(GradeOf(o, config, d, e, rows, b)))
    ensures forall i :: 0 <= i < |rows| && rows[i] != b ==>
              !Less(RankKey(GradeOf(o, config, d, e, rows, rows[j])), RankKey(GradeOf(o, config, d, e, rows, rows[i])))
  {
    var best := GradeOf(o, config, d, e, rows, b);
    j :| 0 <= j < |rows| && rows[j] != b
         && !GradeOf(o, config, d, e, rows, rows[j]).autoMatchable
         && forall i :: 0 <= i < |rows| && rows[i] != b ==>
              !Less(RankKey(GradeOf(o, config, d, e, rows, rows[j])), RankKey(GradeOf(o, config, d, e, rows, rows[i])));
    var second := GradeOf(o, config, d, e, rows, rows[j]);
    assert !Less(RankKey(best), RankKey(second));
    assert best.autoMatchable;
    assert RankKey(second) != RankKey(best);
  }

  /** A singled row stands at the top of the list. */
  lemma SingledIsFirst(o: Oracles, config: Config, d: Desk, e: Expense, rows: seq<nat>, b: nat)
    requires config.k >= 1 && IsPrefilter(d, e, config, rows) && b in rows && Singled(o, config, d, e, rows, b)
    ensures var full := Standing(o, config, d, e, rows);
            |full| == |rows| && full[0] == GradeOf(o, config, d, e, rows, b) && full[0].candidate.id == b
  {
    var full := Standing(o, config, d, e, rows);
    FullRankingIsPermutation(Scores(o, config, d, e, rows), SettingsOf(config));
    var best := GradeOf(o, config, d, e, rows, b);
    var first := PlacedRow(o, config, d, e, rows, 0);
    var ib :| 0 <= ib < |rows| && rows[ib] == b;
    var p := RowPlaced(o, config, d, e, rows, ib);
    assert p > 0 ==> !Less(RankKey(full[0]), RankKey(full[p]));
    assert !Less(RankKey(best), RankKey(full[0]));
    assert RankKey(best) == RankKey(full[0]);
    if |rows| > 1 {
      var j := RunnerUpIsBelow(o, config, d, e, rows, b);
      assert rows[first] == b;
    }
  }

  /** So the row chosen is the one singled out, and there is none exactly when no row is. */
  lemma ChosenIffSingled(o: Oracles, config: Config, d: Desk, e: Expense, rows: seq<nat>, b: nat)
    requires config.k >= 1 && IsPrefilter(d, e, config, rows) && b in rows
    ensures Chosen(Standing(o, config, d, e, rows)) == Some(b)
            <==> Singled(o, config, d, e, rows, b)
  {
    var full := Standing(o, config, d, e, rows);
    if Chosen(full) == Some(b) {
      ChosenIsSingled(o, config, d, e, rows, b);
    }
    if Singled(o, config, d, e, rows, b) {
      SingledIsFirst(o, config, d, e, rows, b);
      if |rows| > 1 { SecondIsRunnerUp(o, config, d, e, rows, b); }
    }
  }

  lemma SecondIsRunnerUp(o: Oracles, config: Config, d: Desk, e: Expense, rows: seq<nat>, b: nat)
    requires config.k >= 1 && IsPrefilter(d, e, config, rows) && b in rows && Singled(o, config, d, e, rows, b)
        && |rows| > 1
    ensures var full := Standing(o, config, d, e, rows);
            |full| == |rows| && !full[1].autoMatchable
  {
    var scored := Scores(o, config, d, e, rows);
    var full := Standing(o, config, d, e, rows);
    FullRankingIsPermutation(scored, SettingsOf(config));
    SingledIsFirst(o, config, d, e, rows, b);
    RowsScoreDistinctly(o, config, d, e, rows);
    RankedOnce(scored, SettingsOf(config), 0, 1);
    var second := PlacedRow(o, config, d, e, rows, 1);
    var j := RunnerUpIsBelow(o, config, d, e, rows, b);
    var q := RowPlaced(o, config, d, e, rows, j);
    assert q != 0;
    assert q > 1 ==> !Less(RankKey(full[1]), RankKey(full[q]));
    assert RankKey(full[1]) == RankKey(full[q]);
  }

  lemma RowsSurvive(d: Desk, e: Expense, config: Config, rows: seq<nat>, b: nat)
    requires IsPrefilter(d, e, config, rows) && b in rows
    ensures b in d.banks && Survives(e, d.banks[b], config.window, config.tolerance)
  {
    var i :| 0 <= i < |rows| && rows[i] == b;
  }

  lemma NoneChosenNoneSingled(o: Oracles, config: Config, d: Desk, e: Expense, rows: seq<nat>)
    requires config.k >= 1 && IsPrefilter(d, e, config, rows) && Chosen(Standing(o, config, d, e, rows)) == None
    ensures forall b :: b in rows ==> !Singled(o, config, d, e, rows, b)
  {
    forall b | b in rows ensures !Singled(o, config, d, e, rows, b) {
      ChosenIffSingled(o, config, d, e, rows, b);
    }
  }

  /** End-to-end soundness. A returned row was open, unclaimed, near enough and best of all survivors, it
      cleared both gates and the runner-up failed one, and exactly that pair is now linked. Without a
      row no survivor was like that, and nothing but the expense's status changes, to pending review. A failure
      changes nothing, and means that a row was singled out for an expense that is matched already, or linked
      and flagged since. */
  lemma AutoReconcileIsSound(o: Oracles, config: Config, d: Desk, expense: nat, rows: seq<nat>)
    requires config.k >= 1 && expense in d.expenses && IsPrefilter(d, d.expenses[expense], config, rows)
    ensures match AutoReconciled(o, config, d, expense, rows)
            case Ok((d', Some(b))) =>
              && b in d.banks && Survives(d.expenses[expense], d.banks[b], config.window, config.tolerance)
              && b in rows && Singled(o, config, d, d.expenses[expense], rows, b)
              && d.expenses[expense].status != Matched && !LinkTaken(d, expense, b)
              && d' == Linked(d, expense, b)
            case Ok((d', None)) =>
              && d' == Flagged(d, expense)
              && forall b :: b in rows ==> !Singled(o, config, d, d.expenses[expense], rows, b)
            case Err(e) =>
              && (exists b :: b in rows && Singled(o, config, d, d.expenses[expense], rows, b))
              && (|| (e == AlreadyMatched && d.expenses[expense].status == Matched)
                  || (e == Integrity && d.expenses[expense].status != Matched && HasLink(d, expense)))
  {
    var e := d.expenses[expense];
    if rows != [] {
      var chosen := Chosen(Standing(o, config, d, e, rows));
      if chosen.Some? {
        ChosenIsSingled(o, config, d, e, rows, chosen.value);
        RowsSurvive(d, e, config, rows, chosen.value);
      } else {
        NoneChosenNoneSingled(o, config, d, e, rows);
      }
    }
  }

  // ---------------------------------------------------------------- the better row comes first

  /** Row `b` beats row `c`: a better text, amount and date together closer, and, when the expense has a vector to
      compare with, one the cosine is larger for. */
  ghost predicate Beats(o: Oracles, e: Expense, window: int, b: BankRow, c: BankRow) {
    && o.fuzz(e.text, b.description) > o.fuzz(e.text, c.description)
    && Signals.AmountSimilarity(e.amount, b.amount) + Signals.DateSimilarity(e.date, b.date, window)
       > Signals.AmountSimilarity(e.amount, c.amount) + Signals.DateSimilarity(e.date, c.date, window)
    && (e.embedding.Some? && e.embedding.value != [] ==>
          && b.embedding.Some? && b.embedding.value != [] && c.embedding.Some? && c.embedding.value != []
          && var x := Signals.CosineSimilarity(e.embedding.value, b.embedding.value, o.sqrt);
             var y := Signals.CosineSimilarity(e.embedding.value, c.embedding.value, o.sqrt);
             x > y && x != 0.0 && y != 0.0)
  }

  lemma BeatingIsBetter(o: Oracles, config: Config, d: Desk, e: Expense, rows: seq<nat>, b: nat, c: nat)
    requires b in d.banks && c in d.banks && forall i :: 0 <= i < |rows| ==> rows[i] in d.banks
    requires Beats(o, e, config.window, d.banks[b], d.banks[c])
    ensures BetterSignals(Scores(o, config, d, e, rows), ScoreRow(o, e, b, d.banks[b], config.window),
                          ScoreRow(o, e, c, d.banks[c], config.window))
  {
    var s := Scores(o, config, d, e, rows);
    var x, y := ScoreRow(o, e, b, d.banks[b], config.window), ScoreRow(o, e, c, d.banks[c], config.window);
    if r :| r in s && r.embedding.Some? {
      assert CountsFor(x, x.embedding.value) && CountsFor(y, y.embedding.value);
    }
  }

  /** Of two survivors one of which beats the other, that one stands first and is the more confident, whatever the
      other survivors are. */
  lemma BetterRowRanksFirst(o: Oracles, config: Config, d: Desk, e: Expense, rows: seq<nat>, p: nat, q: nat)
    requires config.k >= 1 && IsPrefilter(d, e, config, rows)
    requires p < |Standing(o, config, d, e, rows)| && q < |Standing(o, config, d, e, rows)|
    requires var full := Standing(o, config, d, e, rows);
             && full[p].candidate.id in d.banks && full[q].candidate.id in d.banks
             && Beats(o, e, config.window, d.banks[full[p].candidate.id], d.banks[full[q].candidate.id])
    ensures var full := Standing(o, config, d, e, rows);
            p < q && full[p].confidence > full[q].confidence
  {
    var scored := Scores(o, config, d, e, rows);
    FullRankingIsPermutation(scored, SettingsOf(config));
    var i := PlacedRow(o, config, d, e, rows, p);
    var j := PlacedRow(o, config, d, e, rows, q);
    RowsScoreDistinctly(o, config, d, e, rows);
    BeatingIsBetter(o, config, d, e, rows, rows[i], rows[j]);
    BetterSignalsRankFirst(scored, SettingsOf(config), p, q);
  }

  /** A row that beats every other survivor is linked exactly when it clears the fuzzy floor, the runner-up
      fails a gate, and no confidence above 1 is asked for. */
  lemma BestRowIsChosenIff(o: Oracles, config: Config, d: Desk, e: Expense, rows: seq<nat>, b: nat)
    requires config.k >= 1 && IsPrefilter(d, e, config, rows) && b in rows && b in d.banks
    requires forall c :: c in rows && c != b ==> c in d.banks && Beats(o, e, config.window, d.banks[b], d.banks[c])
    ensures var full := Standing(o, config, d, e, rows);
            && full != [] && full[0].candidate.id == b && full[0].confidence == 1.0
            && (Chosen(full) == Some(b) <==>
                  && config.threshold <= 1.0 && o.fuzz(e.text, d.banks[b].description) >= config.minFuzzy
                  && (|full| > 1 ==> full[1].confidence < config.threshold
                                     || full[1].candidate.fuzzy < config.minFuzzy))
  {
    var scored, settings := Scores(o, config, d, e, rows), SettingsOf(config);
    RowsScoreDistinctly(o, config, d, e, rows);
    var i :| 0 <= i < |rows| && rows[i] == b;
    forall j | 0 <= j < |scored| && j != i ensures BetterSignals(scored, scored[i], scored[j]) {
      assert rows[j] in rows && rows[j] != b;
      BeatingIsBetter(o, config, d, e, rows, b, rows[j]);
    }
    BestSignalsWin(scored, settings, i);
    var first := PlacedRow(o, config, d, e, rows, 0);
    if |rows| > 1 { var second := PlacedRow(o, config, d, e, rows, 1); }
  }

  // ---------------------------------------------------------------- auto-matching what is matched already

  /** The tables after the call; a failure leaves them as they were. */
  function DeskAfter(o: Oracles, config: Config, d: Desk, expense: nat, rows: seq<nat>): Desk
    requires expense in d.expenses && forall i :: 0 <= i < |rows| ==> rows[i] in d.banks
  {
    match AutoReconciled(o, config, d, expense, rows)
    case Ok((d', _)) => d'
    case Err(_) => d
  }

  /** `auto_reconcile` does not ask whether the expense is matched already. It leaves a MATCHED expense matched
      exactly when some survivor is singled out, because then the confirmation refuses, or when there are survivors
      and the fusion constant is not positive, because then the fusion refuses. */
  lemma AutoKeepsMatchedIff(o: Oracles, config: Config, d: Desk, expense: nat, rows: seq<nat>)
    requires expense in d.expenses && d.expenses[expense].status == Matched
    requires IsPrefilter(d, d.expenses[expense], config, rows)
    ensures var d' := DeskAfter(o, config, d, expense, rows);
            && d'.banks == d.banks && expense in d'.expenses
            && (d'.expenses[expense].status == Matched <==>
                  rows != []
                  && (config.k <= 0 || exists b :: b in rows && Singled(o, config, d, d.expenses[expense], rows, b)))
  {
    if config.k >= 1 {
      AutoReconcileIsSound(o, config, d, expense, rows);
    }
  }

  /** Linking takes the row out of the running and leaves every other row where it was. */
  lemma LinkingUsesUpTheRow(config: Config, d: Desk, expense: nat, b: nat)
    requires expense in d.expenses && b in d.banks && IsPrefilter(d, d.expenses[expense], config, [b])
    ensures var d' := Linked(d, expense, b); IsPrefilter(d', d'.expenses[expense], config, [])
  {
    var e, d' := d.expenses[expense], Linked(d, expense, b);
    forall c | c in d'.banks ensures !Survives(d'.expenses[expense], d'.banks[c], config.window, config.tolerance) {
      if c != b {
        assert d'.banks[c] == d.banks[c];
        assert Survives(e, d.banks[c], config.window, config.tolerance) ==> c in [b];
      }
    }
  }

  /** A lone survivor is first in every ranking, so its confidence is 1. */
  lemma LoneStanding(o: Oracles, config: Config, d: Desk, e: Expense, b: nat)
    requires config.k >= 1 && b in d.banks
    ensures GradeOf(o, config, d, e, [b], b).confidence == 1.0
    ensures Standing(o, config, d, e, [b]) == [GradeOf(o, config, d, e, [b], b)]
  {
    var c := ScoreRow(o, e, b, d.banks[b], config.window);
    assert Scores(o, config, d, e, [b]) == [c];
    LoneConfidence(c, SettingsOf(config));
    LoneRanking(c, SettingsOf(config));
  }

  /** So it is chosen exactly when it clears the fuzzy floor, unless no confidence at all would do. */
  lemma LoneSurvivorIff(o: Oracles, config: Config, d: Desk, e: Expense, b: nat)
    requires config.k >= 1 && b in d.banks
    ensures Chosen(Standing(o, config, d, e, [b])) == Some(b)
            <==> config.threshold <= 1.0 && o.fuzz(e.text, d.banks[b].description) >= config.minFuzzy
  {
    LoneStanding(o, config, d, e, b);
  }

  /** And the first run links it exactly when, besides, the expense is neither matched nor linked. */
  lemma FirstRunLinksIff(o: Oracles, config: Config, d: Desk, expense: nat, b: nat)
    requires config.k >= 1 && expense in d.expenses && b in d.banks
    requires IsPrefilter(d, d.expenses[expense], config, [b])
    ensures AutoReconciled(o, config, d, expense, [b]) == Ok((Linked(d, expense, b), Some(b)))
            <==> (&& config.threshold <= 1.0
                  && o.fuzz(d.expenses[expense].text, d.banks[b].description) >= config.minFuzzy
                  && d.expenses[expense].status != Matched && !LinkTaken(d, expense, b))
  {
    var e := d.expenses[expense];
    LoneSurvivorIff(o, config, d, e, b);
    RowsSurvive(d, e, config, [b], b);
    LoneStanding(o, config, d, e, b);
  }

  /** So auto-matching twice is not the same as once: when the row it links was the only survivor, a second run
      takes MATCHED away again and parks the expense, while the link stays. */
  lemma SecondRunUnmatches(o: Oracles, config: Config, d: Desk, expense: nat, b: nat)
    requires expense in d.expenses && b in d.banks && IsPrefilter(d, d.expenses[expense], config, [b])
    requires AutoReconciled(o, config, d, expense, [b]) == Ok((Linked(d, expense, b), Some(b)))
    ensures var d1 := DeskAfter(o, config, d, expense, [b]);
            var d2 := DeskAfter(o, config, d1, expense, []);
            && d1.expenses[expense].status == Matched && IsPrefilter(d1, d1.expenses[expense], config, [])
            && d2.expenses[expense].status == PendingReview && d2.banks == d1.banks && d2.banks[b].link == Some(expense)
  {
    LinkingUsesUpTheRow(config, d, expense, b);
  }

  /** An open expense and one bank row of the same amount, day and text. */
  function Pair(): Desk {
    Desk(map[0 := Expense(10000, 0, "EUR", "taxi", None, Unmatched)],
         map[0 := BankRow(10000, 0, "EUR", "taxi", None, Unmatched, None)])
  }

  /** That is all it takes: whenever the texts clear the fuzzy floor, the first run links the pair and the second
      takes MATCHED away. */
  lemma PairIsUnmatched(o: Oracles, config: Config)
    requires config.k >= 1 && config.window >= 0 && config.threshold <= 1.0
    requires o.fuzz("taxi", "taxi") >= config.minFuzzy
    ensures IsPrefilter(Pair(), Pair().expenses[0], config, [0])
    ensures var d1 := DeskAfter(o, config, Pair(), 0, [0]);
            var d2 := DeskAfter(o, config, d1, 0, []);
            && d1.expenses[0].status == Matched && IsPrefilter(d1, d1.expenses[0], config, [])
            && d2.expenses[0].status == PendingReview && d2.banks[0].link == Some(0)
  {
    var d := Pair();
    Signals.NearMeans(10000, 0, 10000, 0, config.window, config.tolerance);
    assert Survives(d.expenses[0], d.banks[0], config.window, config.tolerance);
    FirstRunLinksIff(o, config, d, 0, 0);
    SecondRunUnmatches(o, config, d, 0, 0);
  }

  // ---------------------------------------------------------------- the code

  /** The sort key of ORDER BY booking_date, for a descending sort. */
  function DateKey(d: Desk): nat -> Key {
    id => (if id in d.banks then -(d.banks[id].date as real) else 0.0, 0.0)
  }

  lemma DescendingIsByDate(d: Desk, rows: seq<nat>)
    requires Descending(rows, DateKey(d)) && forall i :: 0 <= i < |rows| ==> rows[i] in d.banks
    ensures forall i, j :: 0 <= i < j < |rows| ==> d.banks[rows[i]].date <= d.banks[rows[j]].date
  {
    forall i, j | 0 <= i < j < |rows| ensures d.banks[rows[i]].date <= d.banks[rows[j]].date {
      assert !Less(DateKey(d)(rows[i]), DateKey(d)(rows[j]));
    }
  }

  /** The query's rows among the bank rows looked at. */
  ghost predicate Gathered(d: Desk, e: Expense, config: Config, rows: seq<nat>, left: set<nat>) {
    && Descending(rows, DateKey(d))
    && forall b :: multiset(rows)[b] ==
                   if b in d.banks && b !in left && Survives(e, d.banks[b], config.window, config.tolerance)
                   then 1 else 0
  }

  lemma GatherOne(d: Desk, e: Expense, config: Config, rows: seq<nat>, left: set<nat>, b: nat)
    requires Gathered(d, e, config, rows, left) && b in left && b in d.banks
    ensures Survives(e, d.banks[b], config.window, config.tolerance) ==>
              Gathered(d, e, config, Insert(rows, b, DateKey(d)), left - {b})
    ensures !Survives(e, d.banks[b], config.window, config.tolerance) ==> Gathered(d, e, config, rows, left - {b})
  {
    InsertSorts(rows, b, DateKey(d));
    InsertAdds(rows, b, DateKey(d));
  }

  lemma AllGathered(d: Desk, e: Expense, config: Config, rows: seq<nat>)
    requires Gathered(d, e, config, rows, {})
    ensures IsPrefilter(d, e, config, rows)
  {
    forall i | 0 <= i < |rows|
      ensures rows[i] in d.banks && Survives(e, d.banks[rows[i]], config.window, config.tolerance)
    {
      assert multiset(rows)[rows[i]] >= 1;
    }
    forall b | b in d.banks && Survives(e, d.banks[b], config.window, config.tolerance) ensures b in rows {
      assert multiset(rows)[b] == 1;
    }
    OnceEach(rows);
    DescendingIsByDate(d, rows);
  }

  class ReconciliationService {
    const oracles: Oracles
    const config: Config
    var desk: Desk

    constructor (oracles: Oracles, config: Config, desk: Desk)
      ensures this.oracles == oracles && this.config == config && this.desk == desk
    {
      this.oracles := oracles;
      this.config := config;
      this.desk := desk;
    }

    /** The query: filter in any order, ORDER BY booking_date. */
    method Prefilter(e: Expense) returns (rows: seq<nat>)
      ensures IsPrefilter(desk, e, config, rows)
    {
      rows := [];
      var left := desk.banks.Keys;
      while left != {}
        invariant left <= desk.banks.Keys && Gathered(desk, e, config, rows, left)
        decreases |left|
      {
        var b :| b in left;
        GatherOne(desk, e, config, rows, left, b);
        left := left - {b};
        if Survives(e, desk.banks[b], config.window, config.tolerance) {
          rows := Insert(rows, b, DateKey(desk));
        }
      }
      AllGathered(desk, e, config, rows);
    }

    /** The scoring loop. */
    method Score(e: Expense, rows: seq<nat>) returns (scored: seq<Scored>)
      requires forall i :: 0 <= i < |rows| ==> rows[i] in desk.banks
      ensures scored == ScoreRows(oracles, desk, e, rows, config.window)
    {
      scored := [];
      for i := 0 to |rows|
        invariant scored == ScoreRows(oracles, desk, e, rows[..i], config.window)
      {
        var row := desk.banks[rows[i]];
        var embedding: Option<real> := None;
        if HasVector(e.embedding) && HasVector(row.embedding) {
          embedding := Some(Signals.CosineSimilarity(e.embedding.value, row.embedding.value, oracles.sqrt));
        }
        scored := scored + [Scored(rows[i], oracles.fuzz(e.text, row.description),
                                   Signals.AmountSimilarity(e.amount, row.amount),
                                   Signals.DateSimilarity(e.date, row.date, config.window), embedding)];
      }
      assert rows[..|rows|] == rows;
    }

    method SuggestMatches(expense: nat, limit: int) returns (ranked: Result<seq<Ranked>, Error>, ghost rows: seq<nat>)
      ensures expense !in desk.expenses ==> ranked == Err(NotFound)
      ensures expense in desk.expenses ==>
                && IsPrefilter(desk, desk.expenses[expense], config, rows)
                && ranked == (if rows == [] then Ok([])
                              else if config.k <= 0 then Err(BadSmoothing)
                              else Ok(Cut(Standing(oracles, config, desk, desk.expenses[expense], rows), limit)))
    {
      if expense !in desk.expenses {
        return Err(NotFound), [];
      }
      var e := desk.expenses[expense];
      var candidates := Prefilter(e);
      rows := candidates;
      if candidates == [] {
        return Ok([]), rows;
      }
      var scored := Score(e, candidates);
      RowsScoreDistinctly(oracles, config, desk, e, candidates);
      var fused := Fuse(scored, config.k, config.threshold, config.minFuzzy, limit);
      if fused.None? {
        return Err(BadSmoothing), rows;
      }
      return Ok(fused.value), rows;
    }

    method ConfirmMatch(expense: nat, bank: nat) returns (r: Result<(), Error>)
      modifies this
      ensures match Confirm(old(desk), expense, bank)
              case Ok(d) => r == Ok(()) && desk == d
              case Err(e) => r == Err(e) && desk == old(desk)
    {
      if expense !in desk.expenses || bank !in desk.banks {
        return Err(NotFound);
      }
      var row := desk.banks[bank];
      if row.link != None && row.link != Some(expense) {
        return Err(AlreadyMatched);
      }
      if desk.expenses[expense].status == Matched {
        return Err(AlreadyMatched);
      }
      if LinkTaken(desk, expense, bank) {
        return Err(Integrity);
      }
      row := row.(link := Some(expense));
      row := row.(status := Matched);
      desk := Desk(desk.expenses[expense := desk.expenses[expense].(status := Matched)], desk.banks[bank := row]);
      return Ok(());
    }

    method FlagForReview(expense: nat) returns (r: Result<(), Error>)
      modifies this
      ensures match Flag(old(desk), expense)
              case Ok(d) => r == Ok(()) && desk == d
              case Err(e) => r == Err(e) && desk == old(desk)
    {
      if expense !in desk.expenses {
        return Err(NotFound);
      }
      desk := desk.(expenses := desk.expenses[expense := desk.expenses[expense].(status := PendingReview)]);
      return Ok(());
    }

    /** `auto_reconcile`: the claimed bank row, or None when parked for a human. */
    method AutoReconcile(expense: nat) returns (r: Result<Option<nat>, Error>, ghost rows: seq<nat>)
      modifies this
      ensures expense !in old(desk).expenses ==> r == Err(NotFound) && desk == old(desk)
      ensures expense in old(desk).expenses ==>
                && IsPrefilter(old(desk), old(desk).expenses[expense], config, rows)
                && match AutoReconciled(oracles, config, old(desk), expense, rows)
                   case Ok((d, claimed)) => r == Ok(claimed) && desk == d
                   case Err(e) => r == Err(e) && desk == old(desk)
    {
      var ranked;
      ranked, rows := SuggestMatches(expense, 2);
      if ranked.Err? {
        return Err(ranked.error), rows;
      }
      if ranked.value == [] {
        var parked := FlagForReview(expense);
        return Ok(None), rows;
      }
      var best := ranked.value[0];
      if !best.autoMatchable {
        var parked := FlagForReview(expense);
        return Ok(None), rows;
      }
      if |ranked.value| > 1 && ranked.value[1].autoMatchable {
        var parked := FlagForReview(expense);
        return Ok(None), rows;
      }
      var confirmed := ConfirmMatch(expense, best.candidate.id);
      if confirmed.Err? {
        return Err(confirmed.error), rows;
      }
      return Ok(Some(best.candidate.id)), rows;
    }
  }

  lemma OnceEach(rows: seq<nat>)
    requires forall b :: multiset(rows)[b] <= 1
    ensures forall i, j :: 0 <= i < j < |rows| ==> rows[i] != rows[j]
  {
    DistinctIffOnce(rows);
  }
}
