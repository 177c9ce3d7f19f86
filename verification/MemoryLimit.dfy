/**
 The in-process sliding window of the rate limiter: a deque per client that is
 trimmed and extended in place, and the history of admitted requests it stands for.
 */
module MemoryLimit {

  ghost predicate Ascending(h: seq<real>) {
    forall i, j :: 0 <= i <= j < |h| ==> h[i] <= h[j]
  }

  lemma AscendingAppend(h: seq<real>, now: real)
    requires Ascending(h) && (h != [] ==> h[|h| - 1] <= now)
    ensures Ascending(h + [now])
  {
  }

  /** The members of a history that are not older than `cutoff`. */
  function NotOlder(h: seq<real>, cutoff: real): seq<real> {
    if h == [] then []
    else if h[0] < cutoff then NotOlder(h[1..], cutoff)
    else [h[0]] + NotOlder(h[1..], cutoff)
  }

  /** How many members of a history lie in the closed interval from `a` to `b`. */
  function CountIn(h: seq<real>, a: real, b: real): nat {
    if h == [] then 0
    else CountIn(h[..|h| - 1], a, b) + if a <= h[|h| - 1] <= b then 1 else 0
  }

  /** More than a minute passes between any admission and the `limit`-th one after it. */
  ghost predicate Spaced(h: seq<real>, limit: int) {
    if limit <= 0 then h == []
    else forall i, j :: 0 <= i && j < |h| && j == i + limit ==> h[j] - h[i] > 60.0
  }

  /** `m` separates the members older than `cutoff` from the others. */
  ghost predicate Cut(h: seq<real>, cutoff: real, m: nat) {
    && m <= |h|
    && (forall i :: 0 <= i < m ==> h[i] < cutoff)
    && (forall i :: m <= i < |h| ==> h[i] >= cutoff)
  }

  lemma CutIsUnique(h: seq<real>, cutoff: real, m: nat, m': nat)
    requires Cut(h, cutoff, m) && Cut(h, cutoff, m')
    ensures m == m'
  {
    if m < |h| { assert h[m] >= cutoff; }
    if m' < |h| { assert h[m'] >= cutoff; }
  }

  lemma {:induction false} NotOlderIsASuffix(h: seq<real>, cutoff: real) returns (m: nat)
    requires Ascending(h)
    ensures Cut(h, cutoff, m) && NotOlder(h, cutoff) == h[m..]
  {
    m := 0;
    if h != [] {
      var rest := NotOlderIsASuffix(h[1..], cutoff);
      if h[0] < cutoff {
        m := rest + 1;
        assert h[1..][rest..] == h[m..];
        forall i | 0 < i < |h| ensures h[i] < cutoff <==> i < m { assert h[i] == h[1..][i - 1]; }
      } else {
        CutIsUnique(h[1..], cutoff, 0, rest);
        assert h == [h[0]] + h[1..];
      }
    }
  }

  lemma {:induction false} CountIsNotOlder(h: seq<real>, a: real, b: real)
    requires Ascending(h) && forall i :: 0 <= i < |h| ==> h[i] <= b
    ensures CountIn(h, a, b) == |NotOlder(h, a)|
  {
    if h != [] {
      var n := |h| - 1;
      CountIsNotOlder(h[..n], a, b);
      var m := NotOlderIsASuffix(h, a);
      var m' := NotOlderIsASuffix(h[..n], a);
      CutIsUnique(h[..n], a, m', if m <= n then m else n);
    }
  }

  /** Whatever minute one looks at, it holds at most `limit` admissions. */
  lemma {:induction false} SpacedMinutesHoldTheLimit(h: seq<real>, limit: int, a: real)
    requires Ascending(h) && Spaced(h, limit)
    ensures CountIn(h, a, a + 60.0) <= if limit > 0 then limit else 0
  {
    if h != [] {
      var n := |h| - 1;
      if h[n] > a + 60.0 {
        SpacedMinutesHoldTheLimit(h[..n], limit, a);
      } else {
        CountIsNotOlder(h, a, a + 60.0);
        var m := NotOlderIsASuffix(h, a);
        if n >= limit { assert h[n] - h[n - limit] > 60.0; }
      }
    }
  }

  /** The specification of one check: the history grows iff the last closed minute is not full. */
  function Admit(h: seq<real>, now: real, limit: int): seq<real> {
    if CountIn(h, now - 60.0, now) < limit then h + [now] else h
  }

  /** If the last minute has room, the `limit`-th last admission is older than a minute. */
  lemma RoomMeansOlder(h: seq<real>, now: real, limit: int)
    requires Ascending(h) && forall i :: 0 <= i < |h| ==> h[i] <= now
    requires CountIn(h, now - 60.0, now) < limit <= |h|
    ensures now - h[|h| - limit] > 60.0
  {
    CountIsNotOlder(h, now - 60.0, now);
    var m := NotOlderIsASuffix(h, now - 60.0);
    assert |h| - limit < m;
  }

  lemma AdmitKeepsSpacing(h: seq<real>, now: real, limit: int)
    requires Ascending(h) && Spaced(h, limit) && (h != [] ==> h[|h| - 1] <= now)
    ensures Ascending(Admit(h, now, limit)) && Spaced(Admit(h, now, limit), limit)
  {
    AscendingAppend(h, now);
    if CountIn(h, now - 60.0, now) < limit {
      var h' := h + [now];
      if limit <= |h| {
        forall i | 0 <= i < |h| ensures h[i] <= now { assert h[i] <= h[|h| - 1]; }
        RoomMeansOlder(h, now, limit);
      }
      forall i, j | 0 <= i && j < |h'| && j == i + limit ensures h'[j] - h'[i] > 60.0 {
        if j < |h| { assert h[j] - h[i] > 60.0; }
      }
    }
  }

  /** The admissions of a whole run of checks at the given times. */
  function Admissions(times: seq<real>, limit: int): seq<real> {
    if times == [] then []
    else Admit(Admissions(times[..|times| - 1], limit), times[|times| - 1], limit)
  }

  lemma {:induction false} RunsAreSpaced(times: seq<real>, limit: int)
    requires Ascending(times)
    ensures var h := Admissions(times, limit);
            Ascending(h) && Spaced(h, limit) && (h != [] ==> times != [] && h[|h| - 1] <= times[|times| - 1])
  {
    if times != [] {
      var front := times[..|times| - 1];
      RunsAreSpaced(front, limit);
      AdmitKeepsSpacing(Admissions(front, limit), times[|times| - 1], limit);
    }
  }

  /** Over every run with a monotone clock, every closed minute admits at most the limit. */
  lemma EveryMinuteHoldsTheLimit(times: seq<real>, limit: int, a: real)
    requires Ascending(times)
    ensures CountIn(Admissions(times, limit), a, a + 60.0) <= if limit > 0 then limit else 0
  {
    RunsAreSpaced(times, limit);
    SpacedMinutesHoldTheLimit(Admissions(times, limit), limit, a);
  }

  /** Trimming to an earlier minute first changes nothing. */
  lemma TrimmedTwice(h: seq<real>, before: real, now: real)
    requires Ascending(h) && before <= now
    ensures var window := NotOlder(h, before - 60.0);
            NotOlder(window, now - 60.0) == NotOlder(h, now - 60.0) && Ascending(window)
  {
    var window := NotOlder(h, before - 60.0);
    var m := NotOlderIsASuffix(h, before - 60.0);
    var p := NotOlderIsASuffix(h, now - 60.0);
    var q := NotOlderIsASuffix(window, now - 60.0);
    assert Cut(h, now - 60.0, m + q) by {
      forall i | m <= i < |h| ensures h[i] < now - 60.0 <==> i < m + q { assert h[i] == window[i - m]; }
    }
    CutIsUnique(h, now - 60.0, p, m + q);
  }

  lemma {:induction false} NotOlderAppend(h: seq<real>, now: real, cutoff: real)
    requires now >= cutoff
    ensures NotOlder(h + [now], cutoff) == NotOlder(h, cutoff) + [now]
  {
    if h == [] {
      assert h + [now] == [now];
    } else {
      NotOlderAppend(h[1..], now, cutoff);
      assert (h + [now])[1..] == h[1..] + [now];
    }
  }

  function Last(s: seq<real>): real
    requires s != []
  {
    s[|s| - 1]
  }

  function Of<T>(m: map<string, seq<T>>, client: string): seq<T> {
    if client in m then m[client] else []
  }

  /** A deque stands for the checks made so far: it is their admissions, cut at the last check. */
  ghost predicate StandsFor(window: seq<real>, times: seq<real>, limit: int) {
    Ascending(times)
        && (if times == [] then window == [] else window == NotOlder(Admissions(times, limit), Last(times) - 60.0))
  }

  /** The popleft loop. */
  method Trim(hits: seq<real>, cutoff: real) returns (window: seq<real>)
    requires Ascending(hits)
    ensures window == NotOlder(hits, cutoff)
  {
    window := hits;
    while window != [] && window[0] < cutoff
      invariant NotOlder(window, cutoff) == NotOlder(hits, cutoff) && Ascending(window)
      decreases |window|
    {
      window := window[1..];
    }
    ghost var m := NotOlderIsASuffix(window, cutoff);
  }

  lemma AdmissionsSnoc(times: seq<real>, limit: int, now: real)
    ensures Admissions(times + [now], limit) == Admit(Admissions(times, limit), now, limit)
  {
    assert (times + [now])[..|times|] == times;
  }

  /** The history of a run with a monotone clock ascends up to now. */
  lemma HistoryAscends(times: seq<real>, limit: int, now: real)
    requires Ascending(times) && (times != [] ==> Last(times) <= now)
    ensures var h := Admissions(times, limit); Ascending(h) && forall i :: 0 <= i < |h| ==> h[i] <= now
  {
    RunsAreSpaced(times, limit);
    var h := Admissions(times, limit);
    forall i | 0 <= i < |h| ensures h[i] <= now {
      assert h[i] <= h[|h| - 1];
    }
  }

  /** Trimming the deque now is cutting the history now. */
  lemma TrimmedIsCut(hits: seq<real>, times: seq<real>, limit: int, now: real)
    requires StandsFor(hits, times, limit) && (times != [] ==> Last(times) <= now)
    ensures Ascending(hits)
    ensures NotOlder(hits, now - 60.0) == NotOlder(Admissions(times, limit), now - 60.0)
  {
    if times != [] {
      RunsAreSpaced(times, limit);
      TrimmedTwice(Admissions(times, limit), Last(times), now);
    }
  }

  /** The history cut now holds the admissions of the last closed minute. */
  lemma CutIsTheLastMinute(times: seq<real>, limit: int, now: real)
    requires Ascending(times) && (times != [] ==> Last(times) <= now)
    ensures var h := Admissions(times, limit); |NotOlder(h, now - 60.0)| == CountIn(h, now - 60.0, now)
  {
    HistoryAscends(times, limit, now);
    CountIsNotOlder(Admissions(times, limit), now - 60.0, now);
  }

  /** The deque, trimmed now, is the last closed minute of the history. */
  lemma TrimmedDeque(hits: seq<real>, times: seq<real>, limit: int, now: real)
    requires StandsFor(hits, times, limit) && (times != [] ==> Last(times) <= now)
    ensures Ascending(hits)
    ensures NotOlder(hits, now - 60.0) == NotOlder(Admissions(times, limit), now - 60.0)
    ensures |NotOlder(hits, now - 60.0)| == CountIn(Admissions(times, limit), now - 60.0, now)
  {
    TrimmedIsCut(hits, times, limit, now);
    CutIsTheLastMinute(times, limit, now);
  }

  /** One more check, on the history and on its last minute. */
  lemma AdmitCut(h: seq<real>, now: real, limit: int)
    ensures var window := NotOlder(h, now - 60.0);
            NotOlder(Admit(h, now, limit), now - 60.0)
            == if CountIn(h, now - 60.0, now) < limit then window + [now] else window
  {
    NotOlderAppend(h, now, now - 60.0);
  }

  lemma StandsForItsCut(more: seq<real>, limit: int, now: real)
    requires Ascending(more) && more != [] && Last(more) == now
    ensures StandsFor(NotOlder(Admissions(more, limit), now - 60.0), more, limit)
  {
  }

  /** So the cut history, with the check if it was admitted, stands for the longer run. */
  lemma OneMoreCheck(times: seq<real>, limit: int, now: real)
    requires Ascending(times) && (times != [] ==> Last(times) <= now)
    ensures var h := Admissions(times, limit);
            var window := NotOlder(h, now - 60.0);
            var more := if CountIn(h, now - 60.0, now) < limit then window + [now] else window;
            && Admissions(times + [now], limit) == Admit(h, now, limit)
            && more == NotOlder(Admissions(times + [now], limit), now - 60.0)
            && StandsFor(more, times + [now], limit)
  {
    AscendingAppend(times, now);
    AdmissionsSnoc(times, limit, now);
    AdmitCut(Admissions(times, limit), now, limit);
    StandsForItsCut(times + [now], limit, now);
  }

  /** `_check_memory` on one deque: trim the left end, refuse if full, otherwise append. */
  method CheckWindow(hits: seq<real>, ghost times: seq<real>, limit: int, now: real)
    returns (window: seq<real>, allowed: bool)
    requires StandsFor(hits, times, limit) && (times != [] ==> Last(times) <= now)
    ensures StandsFor(window, times + [now], limit)
    ensures window == NotOlder(Admissions(times + [now], limit), now - 60.0)
    ensures allowed <==> CountIn(Admissions(times, limit), now - 60.0, now) < limit
    ensures Admissions(times + [now], limit) == Admissions(times, limit) + if allowed then [now] else []
  {
    TrimmedDeque(hits, times, limit, now);
    OneMoreCheck(times, limit, now);
    window := Trim(hits, now - 60.0);
    if |window| >= limit {
      return window, false;
    }
    window := window + [now];
    return window, true;
  }

  // ---------------------------------------------------------------- the promised retry

  /** Past the end of a history an interval holds nothing more. */
  lemma {:induction false} CountUpTo(h: seq<real>, a: real, b: real, b': real)
    requires b <= b' && forall i :: 0 <= i < |h| ==> h[i] <= b
    ensures CountIn(h, a, b) == CountIn(h, a, b')
  {
    if h != [] { CountUpTo(h[..|h| - 1], a, b, b'); }
  }

  /** The refusal tells the client to retry after a minute. The next check, exactly a minute after a refused one, is
      admitted exactly when fewer than the limit were admitted at the very moment of the refusal. */
  lemma RetryAfterIff(times: seq<real>, limit: int, now: real)
    requires Ascending(times) && (times != [] ==> Last(times) <= now)
    requires CountIn(Admissions(times, limit), now - 60.0, now) >= limit // refused
    ensures var h, later := Admissions(times, limit), now + 60.0;
            && Admissions(times + [now], limit) == h
            && Admissions(times + [now] + [later], limit) == if CountIn(h, now, now) < limit then h + [later] else h
  {
    var h, later := Admissions(times, limit), now + 60.0;
    AdmissionsSnoc(times, limit, now);
    AdmissionsSnoc(times + [now], limit, later);
    HistoryAscends(times, limit, now);
    CountUpTo(h, now, now, later);
    assert later - 60.0 == now;
  }

  /** That many checks at one moment. */
  function Together(now: real, n: nat): seq<real> { seq(n, _ => now) }

  lemma {:induction false} TogetherAreAdmitted(now: real, n: nat, limit: int)
    requires n <= limit
    ensures Admissions(Together(now, n), limit) == Together(now, n)
    ensures CountIn(Together(now, n), now - 60.0, now) == n && CountIn(Together(now, n), now, now) == n
  {
    if n > 0 {
      TogetherAreAdmitted(now, n - 1, limit);
      assert Together(now, n)[..n - 1] == Together(now, n - 1);
      assert Together(now, n) == Together(now, n - 1) + [now];
    }
  }

  lemma FullMomentRefuses(h: seq<real>, limit: int, now: real)
    requires Ascending(h) && (h != [] ==> Last(h) <= now) && Admissions(h, limit) == h
    requires CountIn(h, now - 60.0, now) >= limit && CountIn(h, now, now) >= limit
    ensures Admissions(h + [now], limit) == h && Admissions(h + [now] + [now + 60.0], limit) == h
  {
    RetryAfterIff(h, limit, now);
  }

  /** For every positive limit the retry can fail: the limit is used up and a check refused at one moment, and the
      next check a minute later is refused too. */
  lemma RetryCanFail(limit: int, now: real)
    requires limit >= 1
    ensures var h := Together(now, limit);
            && Ascending(h) && Admissions(h, limit) == h
            && Admissions(h + [now], limit) == h && Admissions(h + [now] + [now + 60.0], limit) == h
  {
    var h := Together(now, limit);
    TogetherAreAdmitted(now, limit, limit);
    FullMomentRefuses(h, limit, now);
  }

  class RateLimiter {
    const limit: int
    var hits: map<string, seq<real>>
    ghost var checks: map<string, seq<real>> // when each client was checked, admitted or not

    ghost predicate Valid()
      reads this
    {
      hits.Keys == checks.Keys && forall c :: c in hits ==> StandsFor(hits[c], checks[c], limit)
    }

    constructor (limit: int)
      ensures Valid() && this.limit == limit && hits == map[] && checks == map[]
    {
      this.limit := limit;
      hits := map[];
      checks := map[];
    }

    method CheckMemory(client: string, now: real) returns (allowed: bool)
      requires Valid()
      requires client in checks && checks[client] != [] ==> Last(checks[client]) <= now // a monotonic clock
      modifies this
      ensures Valid()
      ensures checks == old(checks)[client := Of(old(checks), client) + [now]]
      ensures allowed <==> CountIn(Admissions(Of(old(checks), client), limit), now - 60.0, now) < limit
      ensures Admissions(checks[client], limit)
              == Admissions(Of(old(checks), client), limit) + if allowed then [now] else []
      ensures client in hits && hits == old(hits)[client := hits[client]]
      ensures hits[client] == NotOlder(Admissions(checks[client], limit), now - 60.0)
    {
      ghost var times := Of(checks, client);
      var window;
      window, allowed := CheckWindow(Of(hits, client), times, limit, now);
      hits := hits[client := window];
      checks := checks[client := times + [now]];
      forall c | c in hits ensures StandsFor(hits[c], checks[c], limit) {
        if c != client { assert StandsFor(old(hits)[c], old(checks)[c], limit); }
      }
    }

    /** For every client, every closed minute of the whole history holds at most the limit. */
    lemma MinuteBound(client: string, a: real)
      requires Valid()
      ensures CountIn(Admissions(Of(checks, client), limit), a, a + 60.0) <= if limit > 0 then limit else 0
    {
      EveryMinuteHoldsTheLimit(Of(checks, client), limit, a);
    }
  }
}
