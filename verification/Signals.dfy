/**
 The signals behind a suggestion: amount, date and embedding similarity, and the
 prefilter that decides which bank rows are compared at all. Money is counted in
 units of 0.0001, dates in days; scores are exact reals.
 */
module Signals {
  import opened Core
  import opened Reals
  import opened Sorting
  import opened Ranking

  function Abs(x: int): nat { if x < 0 then -x else x }

  function Max(x: real, y: real): real { if x >= y then x else y }

  // ---------------------------------------------------------------- amounts and dates

  function AmountSimilarity(left: int, right: int): real {
    var a: int, b: int := Abs(left), Abs(right);
    var largest := if a >= b then a else b;
    if largest == 0 then 1.0 else 1.0 - Abs(a - b) as real / largest as real
  }

  function DateSimilarity(left: int, right: int, window: int): real {
    if window <= 0 then if left == right then 1.0 else 0.0
    else Max(0.0, 1.0 - Abs(left - right) as real / window as real)
  }

  /** An absolute floor of 0.01 for tiny amounts, a proportion of larger ones. */
  function Slack(amount: nat, tolerance: real): real {
    Max(100.0, amount as real * tolerance)
  }

  predicate Between(x: real, low: real, high: real) { low <= x <= high }

  /** The service's SQL conditions on amount and date: two signed intervals. */
  predicate ServiceNear(expenseAmount: int, expenseDate: int, amount: int, date: int, window: int, tolerance: real) {
    var magnitude := Abs(expenseAmount);
    var slack := Slack(magnitude, tolerance);
    var low, high := magnitude as real - slack, magnitude as real + slack;
    && expenseDate - window <= date <= expenseDate + window
    && (Between(amount as real, low, high) || Between(amount as real, -high, -low))
  }

  /** The eval script's conditions: one interval for the magnitude. */
  predicate EvalNear(expenseAmount: int, expenseDate: int, amount: int, date: int, window: int, tolerance: real) {
    var magnitude := Abs(expenseAmount);
    var slack := Slack(magnitude, tolerance);
    && !(Abs(date - expenseDate) > window)
    && magnitude as real - slack <= Abs(amount) as real <= magnitude as real + slack
  }

  /** "The SQL prefilter is the same rules": for every amount, date, window and tolerance, including a
      slack larger than the amount, where the two signed intervals overlap. */
  lemma PrefiltersAgree(expenseAmount: int, expenseDate: int, amount: int, date: int, window: int, tolerance: real)
    ensures ServiceNear(expenseAmount, expenseDate, amount, date, window, tolerance)
            <==> EvalNear(expenseAmount, expenseDate, amount, date, window, tolerance)
  {
    if amount < 0 { assert Abs(amount) as real == -(amount as real); }
  }

  /** Which rows are near: whatever their sign, at most a cent or the tolerated share of the expense apart, and
      within the window on either side; so a row of the same magnitude on the same day always is. */
  lemma NearMeans(expenseAmount: int, expenseDate: int, amount: int, date: int, window: int, tolerance: real)
    ensures var apart := Abs(Abs(expenseAmount) - Abs(amount));
            ServiceNear(expenseAmount, expenseDate, amount, date, window, tolerance)
            <==> (&& Abs(expenseDate - date) <= window
                  && (apart <= 100 || apart as real <= Abs(expenseAmount) as real * tolerance))
    ensures window >= 0 && expenseDate == date && Abs(expenseAmount) == Abs(amount) ==>
              ServiceNear(expenseAmount, expenseDate, amount, date, window, tolerance)
  {
    PrefiltersAgree(expenseAmount, expenseDate, amount, date, window, tolerance);
  }

  datatype Candidate = Candidate(id: int, amount: int, date: int)

  function Kept(expenseAmount: int, expenseDate: int, rows: seq<Candidate>, window: int, tolerance: real)
    : seq<Candidate>
  {
    if rows == [] then []
    else
      var row := rows[|rows| - 1];
      Kept(expenseAmount, expenseDate, rows[..|rows| - 1], window, tolerance)
      + if ServiceNear(expenseAmount, expenseDate, row.amount, row.date, window, tolerance) then [row] else []
  }

  /** The eval script's `_prefilter` loop keeps exactly the rows the service's conditions keep. */
  method EvalPrefilter(expenseAmount: int, expenseDate: int, rows: seq<Candidate>, window: int, tolerance: real)
    returns (kept: seq<Candidate>)
    ensures kept == Kept(expenseAmount, expenseDate, rows, window, tolerance)
  {
    var amount := Abs(expenseAmount);
    var slack := Slack(amount, tolerance);
    var low, high := amount as real - slack, amount as real + slack;
    kept := [];
    for i := 0 to |rows|
      invariant kept == Kept(expenseAmount, expenseDate, rows[..i], window, tolerance)
    {
      assert rows[..i + 1][..i] == rows[..i];
      var row := rows[i];
      PrefiltersAgree(expenseAmount, expenseDate, row.amount, row.date, window, tolerance);
      if Abs(row.date - expenseDate) > window {
        continue;
      }
      var magnitude := Abs(row.amount) as real;
      if !(low <= magnitude <= high) {
        continue;
      }
      kept := kept + [row];
    }
    assert rows[..|rows|] == rows;
  }

  /** A row on its own is kept exactly when it is near, and rows that come one after the other are kept one after the
      other. */
  lemma {:induction false} KeptRowByRow(expenseAmount: int, expenseDate: int, xs: seq<Candidate>, ys: seq<Candidate>,
                                        window: int, tolerance: real)
    ensures Kept(expenseAmount, expenseDate, xs + ys, window, tolerance)
            == Kept(expenseAmount, expenseDate, xs, window, tolerance)
             + Kept(expenseAmount, expenseDate, ys, window, tolerance)
    ensures |ys| == 1 ==>
              var apart := Abs(Abs(expenseAmount) - Abs(ys[0].amount));
              Kept(expenseAmount, expenseDate, ys, window, tolerance)
              == if && Abs(expenseDate - ys[0].date) <= window
                    && (apart <= 100 || apart as real <= Abs(expenseAmount) as real * tolerance)
                 then ys else []
  {
    if ys == [] {
      assert xs + ys == xs;
    } else {
      var n := |ys| - 1;
      KeptRowByRow(expenseAmount, expenseDate, xs, ys[..n], window, tolerance);
      assert (xs + ys)[..|xs + ys| - 1] == xs + ys[..n];
      NearMeans(expenseAmount, expenseDate, ys[n].amount, ys[n].date, window, tolerance);
    }
  }

  /** The amount score compares magnitudes: signs and order do not matter, it falls from 1 by the share of the larger
      magnitude that the two are apart, 1 means equal magnitudes, 0 that exactly one amount is zero. */
  lemma AmountScoreMeaning(left: int, right: int)
    ensures AmountSimilarity(left, right) == AmountSimilarity(right, left) == AmountSimilarity(-left, right)
    ensures AmountSimilarity(left, right) == 1.0 <==> Abs(left) == Abs(right)
    ensures AmountSimilarity(left, right) == 0.0 <==> (left == 0) != (right == 0)
    ensures Abs(left) >= Abs(right) ==>
              (1.0 - AmountSimilarity(left, right)) * Abs(left) as real == (Abs(left) - Abs(right)) as real
  {
    var a: int, b: int := Abs(left), Abs(right);
    var largest: int := if a >= b then a else b;
    if largest > 0 {
      var q := Abs(a - b) as real / largest as real;
      Quotient(Abs(a - b) as real, largest as real);
      assert Abs(a - b) as real == q * largest as real;
      assert q == 1.0 <==> Abs(a - b) == largest;
    }
  }

  /** The date score is 1 on the same day only, falls in equal steps, and is 0 from the edge of the window on. */
  lemma DateScoreMeaning(left: int, right: int, window: int)
    ensures DateSimilarity(left, right, window) == DateSimilarity(right, left, window)
    ensures DateSimilarity(left, right, window) == 1.0 <==> left == right
    ensures window > 0 ==> (DateSimilarity(left, right, window) == 0.0 <==> Abs(left - right) >= window)
    ensures window > 0 && Abs(left - right) <= window ==>
              (1.0 - DateSimilarity(left, right, window)) * window as real == Abs(left - right) as real
  {
    if window > 0 {
      var q := Abs(left - right) as real / window as real;
      assert Abs(left - right) as real == q * window as real;
      if Abs(left - right) <= window { Proportion(Abs(left - right) as real, window as real); }
    }
  }

  /** What surviving the prefilter is worth: a floor under the amount score, and a date score that
      needs no clamp. */
  lemma SurvivorScores(expenseAmount: int, expenseDate: int, amount: int, date: int, window: int, tolerance: real)
    requires ServiceNear(expenseAmount, expenseDate, amount, date, window, tolerance)
    ensures expenseAmount != 0 ==>
              AmountSimilarity(expenseAmount, amount)
              >= 1.0 - Slack(Abs(expenseAmount), tolerance) / Abs(expenseAmount) as real
    ensures window > 0 ==>
        DateSimilarity(expenseDate, date, window) == 1.0 - Abs(expenseDate - date) as real / window as real
    ensures 0.0 <= AmountSimilarity(expenseAmount, amount) <= 1.0
        && 0.0 <= DateSimilarity(expenseDate, date, window) <= 1.0
  {
    PrefiltersAgree(expenseAmount, expenseDate, amount, date, window, tolerance);
    var a: int, b: int := Abs(expenseAmount), Abs(amount);
    var largest: int := if a >= b then a else b;
    if a > 0 {
      SmallerFraction(Abs(a - b) as real, Slack(a, tolerance), largest as real, a as real);
    }
    if largest > 0 { Proportion(Abs(a - b) as real, largest as real); }
    if window > 0 { Proportion(Abs(expenseDate - date) as real, window as real); }
  }

  lemma SmallerFraction(x: real, x': real, y: real, y': real)
    requires 0.0 <= x <= x' && y >= y' > 0.0
    ensures x / y <= x' / y'
  {
    var q := x' / y';
    assert x' == q * y' && q >= 0.0;
    Stretch(q, y', y);
    QuotientAtMost(x, y, q);
  }

  lemma Stretch(q: real, y': real, y: real)
    requires q >= 0.0 && y >= y'
    ensures y * q >= q * y'
  {
    assert y * q - q * y' == q * (y - y');
  }

  lemma Proportion(x: real, y: real)
    requires 0.0 <= x <= y && y > 0.0
    ensures 0.0 <= x / y <= 1.0
  {
    Quotient(x, y);
  }

  // ---------------------------------------------------------------- cosine similarity

  function Dot(xs: seq<real>, ys: seq<real>): real
    requires |xs| == |ys|
  {
    if xs == [] then 0.0 else Dot(xs[..|xs| - 1], ys[..|ys| - 1]) + Product(xs[|xs| - 1], ys[|ys| - 1])
  }

  /** Nothing but its defining property is assumed of the square root. */
  ghost predicate IsSqrt(sqrt: real -> real) {
    forall x :: x >= 0.0 ==> sqrt(x) >= 0.0 && sqrt(x) * sqrt(x) == x
  }

  function CosineSimilarity(left: seq<real>, right: seq<real>, sqrt: real -> real): real {
    if left == [] || right == [] || |left| != |right| then 0.0
    else
      var normLeft, normRight := sqrt(Dot(left, left)), sqrt(Dot(right, right));
      if normLeft == 0.0 || normRight == 0.0 then 0.0
      else
        NonZeroProduct(normLeft, normRight);
        Dot(left, right) / Product(normLeft, normRight)
  }

  lemma NonZeroProduct(x: real, y: real)
    requires x != 0.0 && y != 0.0
    ensures Product(x, y) != 0.0
  {
  }

  function Quadratic(p: real, q: real, r: real, t: real): real { t * t * p + 2.0 * t * q + r }

  ghost predicate NeverNegative(p: real, q: real, r: real) { forall t :: Quadratic(p, q, r, t) >= 0.0 }

  lemma OneMoreSquare(a: real, b: real, p: real, q: real, r: real)
    requires NeverNegative(p, q, r)
    ensures NeverNegative(p + Product(a, a), q + Product(a, b), r + Product(b, b))
  {
    var p', q', r' := p + Product(a, a), q + Product(a, b), r + Product(b, b);
    forall t ensures Quadratic(p', q', r', t) >= 0.0 {
      assert Quadratic(p, q, r, t) >= 0.0;
      SquareIsNonNegative(t * a + b);
      assert (t * a + b) * (t * a + b) == t * t * (a * a) + 2.0 * t * (a * b) + b * b;
    }
  }

  /** |t * xs + ys|^2 is never negative. */
  lemma {:induction false} SquareOfSum(xs: seq<real>, ys: seq<real>)
    requires |xs| == |ys|
    ensures NeverNegative(Dot(xs, xs), Dot(xs, ys), Dot(ys, ys))
  {
    if xs != [] {
      var n := |xs| - 1;
      SquareOfSum(xs[..n], ys[..n]);
      OneMoreSquare(xs[n], ys[n], Dot(xs[..n], xs[..n]), Dot(xs[..n], ys[..n]), Dot(ys[..n], ys[..n]));
    }
  }

  lemma {:induction false} SquaresAddUp(xs: seq<real>)
    ensures Dot(xs, xs) >= 0.0
  {
    if xs != [] {
      SquaresAddUp(xs[..|xs| - 1]);
      SquareIsNonNegative(xs[|xs| - 1]);
    }
  }

  lemma {:induction false} ZeroVector(xs: seq<real>, ys: seq<real>)
    requires |xs| == |ys| && Dot(xs, xs) == 0.0
    ensures Dot(xs, ys) == 0.0
  {
    if xs != [] {
      var n := |xs| - 1;
      SquaresAddUp(xs[..n]);
      SquareIsNonNegative(xs[n]);
      assert Product(xs[n], xs[n]) == 0.0;
      assert Product(xs[n], ys[n]) == 0.0;
      ZeroVector(xs[..n], ys[..n]);
    }
  }

  /** Cauchy-Schwarz. */
  lemma CauchySchwarz(xs: seq<real>, ys: seq<real>)
    requires |xs| == |ys|
    ensures Product(Dot(xs, ys), Dot(xs, ys)) <= Product(Dot(xs, xs), Dot(ys, ys))
  {
    SquaresAddUp(xs);
    if Dot(xs, xs) == 0.0 { ZeroVector(xs, ys); }
    SquareOfSum(xs, ys);
    Discriminant(Dot(xs, xs), Dot(xs, ys), Dot(ys, ys));
  }

  /** The quadratic at its lowest point. */
  lemma Discriminant(p: real, q: real, r: real)
    requires p >= 0.0 && (p == 0.0 ==> q == 0.0) && NeverNegative(p, q, r)
    ensures Product(q, q) <= Product(p, r)
  {
    if p > 0.0 {
      var t := -q / p;
      assert Quadratic(p, q, r, t) >= 0.0;
      assert t * p == -q;
      assert t * t * p == t * (t * p) == -(t * q);
      assert t * q + r >= 0.0;
      assert p * (t * q + r) == (t * p) * q + p * r;
    }
  }

  /** Cosine scores lie between -1 and 1 for all vectors, of equal length or not. */
  lemma CosineIsBounded(left: seq<real>, right: seq<real>, sqrt: real -> real)
    requires IsSqrt(sqrt)
    ensures -1.0 <= CosineSimilarity(left, right, sqrt) <= 1.0
  {
    if left != [] && |left| == |right| {
      SquaresAddUp(left);
      SquaresAddUp(right);
      CauchySchwarz(left, right);
      var m, n := sqrt(Dot(left, left)), sqrt(Dot(right, right));
      if m != 0.0 && n != 0.0 {
        BoundedQuotient(Dot(left, right), m, n, Dot(left, left), Dot(right, right));
        assert CosineSimilarity(left, right, sqrt) == Dot(left, right) / (m * n);
      }
    }
  }

  lemma RootOfZero(m: real, p: real)
    requires m * m == p
    ensures m == 0.0 <==> p == 0.0
  {
    SquareIsNonNegative(m);
  }

  lemma DivideByNorms(dot: real, m: real, n: real)
    requires m != 0.0 && n != 0.0
    ensures Product(m, n) != 0.0 && Product(dot / Product(m, n), Product(m, n)) == dot
  {
    NonZeroProduct(m, n);
    TimesDivisor(dot, Product(m, n));
  }

  lemma TimesDivisor(x: real, y: real)
    requires y != 0.0
    ensures Product(x / y, y) == x
  {
  }

  /** A vector without length has no direction: its score is 0, and so is its dot product with any other. */
  lemma ZeroScores(left: seq<real>, right: seq<real>, sqrt: real -> real)
    requires IsSqrt(sqrt) && |left| == |right| && (Dot(left, left) == 0.0 || Dot(right, right) == 0.0)
    ensures CosineSimilarity(left, right, sqrt) == 0.0 && Dot(left, right) == 0.0
  {
    if Dot(left, left) == 0.0 {
      ZeroVector(left, right);
      RootOfZero(sqrt(Dot(left, left)), Dot(left, left));
    } else {
      ZeroVector(right, left);
      DotIsSymmetric(left, right);
      RootOfZero(sqrt(Dot(right, right)), Dot(right, right));
    }
  }

  lemma NormIsZeroIff(xs: seq<real>, sqrt: real -> real)
    requires IsSqrt(sqrt)
    ensures sqrt(Dot(xs, xs)) == 0.0 <==> Dot(xs, xs) == 0.0
  {
    SquaresAddUp(xs);
    RootOfZero(sqrt(Dot(xs, xs)), Dot(xs, xs));
  }

  /** The score times both norms is the dot product; vectors of different length score 0. */
  lemma CosineMeans(left: seq<real>, right: seq<real>, sqrt: real -> real)
    requires IsSqrt(sqrt)
    ensures if |left| != |right| then CosineSimilarity(left, right, sqrt) == 0.0
            else Product(CosineSimilarity(left, right, sqrt), Product(sqrt(Dot(left, left)), sqrt(Dot(right, right))))
                 == Dot(left, right)
  {
    if |left| == |right| {
      if Dot(left, left) == 0.0 || Dot(right, right) == 0.0 {
        ZeroScores(left, right, sqrt);
      } else {
        NormIsZeroIff(left, sqrt);
        NormIsZeroIff(right, sqrt);
        DivideByNorms(Dot(left, right), sqrt(Dot(left, left)), sqrt(Dot(right, right)));
      }
    }
  }

  /** The dot product of two vectors is the sum of the products of their components. */
  lemma {:induction false} DotByParts(xs: seq<real>, ys: seq<real>, xs': seq<real>, ys': seq<real>)
    requires |xs| == |ys| && |xs'| == |ys'|
    ensures Dot(xs + xs', ys + ys') == Dot(xs, ys) + Dot(xs', ys')
    ensures |xs'| == 1 ==> Dot(xs', ys') == xs'[0] * ys'[0]
  {
    if xs' == [] {
      assert xs + xs' == xs && ys + ys' == ys;
    } else {
      var n := |xs'| - 1;
      DotByParts(xs, ys, xs'[..n], ys'[..n]);
      assert (xs + xs')[..|xs + xs'| - 1] == xs + xs'[..n];
      assert (ys + ys')[..|ys + ys'| - 1] == ys + ys'[..n];
    }
  }

  /** A vector that is not zero is fully similar to itself, and similarity is symmetric. */
  lemma CosineOfItself(xs: seq<real>, ys: seq<real>, sqrt: real -> real)
    requires IsSqrt(sqrt)
    ensures xs != [] && Dot(xs, xs) != 0.0 ==> CosineSimilarity(xs, xs, sqrt) == 1.0
    ensures CosineSimilarity(xs, ys, sqrt) == CosineSimilarity(ys, xs, sqrt)
  {
    SquaresAddUp(xs);
    SquaresAddUp(ys);
    if |xs| == |ys| { DotIsSymmetric(xs, ys); }
    var m, n := sqrt(Dot(xs, xs)), sqrt(Dot(ys, ys));
    assert m * n == n * m;
    if m != 0.0 { SelfQuotient(m, Dot(xs, xs)); }
  }

  lemma SelfQuotient(m: real, p: real)
    requires m != 0.0 && m * m == p
    ensures m * m != 0.0 && p / (m * m) == 1.0
  {
    NonZeroProduct(m, m);
    SquareIsNonNegative(m);
    Quotient(p, m * m);
  }

  lemma {:induction false} DotIsSymmetric(xs: seq<real>, ys: seq<real>)
    requires |xs| == |ys|
    ensures Dot(xs, ys) == Dot(ys, xs)
  {
    if xs != [] { DotIsSymmetric(xs[..|xs| - 1], ys[..|ys| - 1]); }
  }

  lemma BoundedQuotient(q: real, m: real, n: real, p: real, r: real)
    requires m > 0.0 && n > 0.0 && m * m == p && n * n == r && Product(q, q) <= Product(p, r)
    ensures m * n > 0.0 && -1.0 <= q / (m * n) <= 1.0
  {
    var y := m * n;
    assert y > 0.0 && y * y == p * r;
    SquareOrder(q, y);
    Quotient(q, y);
    Quotient(-q, y);
    assert q == (q / y) * y && -q == (-q / y) * y;
  }

  /** The `or -1.0` sort key never ranks a candidate without an embedding strictly above one whose
      cosine is known; they tie exactly at a cosine of -1 or of 0. */
  lemma MissingEmbeddingNeverWins(c: Scored, missing: Scored)
    requires c.embedding.Some? && -1.0 <= c.embedding.value <= 1.0 && missing.embedding.None?
    ensures !Less(EmbeddingKey(c), EmbeddingKey(missing))
    ensures EmbeddingKey(c) == EmbeddingKey(missing) <==> c.embedding.value == -1.0 || c.embedding.value == 0.0
  {
  }

  /** Two known cosines are ranked by their values, both ways round, unless one is exactly zero and
      the other negative: zero is then taken for absent. */
  lemma EmbeddingOrderIff(c: Scored, d: Scored)
    requires c.embedding.Some? && -1.0 <= c.embedding.value <= 1.0
    requires d.embedding.Some? && -1.0 <= d.embedding.value <= 1.0
    ensures var x, y := c.embedding.value, d.embedding.value;
            ((x < y <==> Less(EmbeddingKey(c), EmbeddingKey(d))) && (y < x <==> Less(EmbeddingKey(d), EmbeddingKey(c))))
            <==> !(x == 0.0 && y < 0.0) && !(y == 0.0 && x < 0.0)
  {
  }
}
