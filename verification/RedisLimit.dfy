/**
 The shared fixed window of the rate limiter, for one client: INCR and EXPIRE are
 separate Redis calls, any number of checks interleave, and each call may raise before
 or after it took effect. A key whose deadline has passed is gone; at its deadline it
 still answers, as Redis documents expiry ("now > when").
 */
module RedisLimit {
  import opened Core

  /** One life of the Redis key; the last one is current. */
  datatype Window = Window(start: real, count: nat, deadline: Deadline)
  datatype Deadline = Never | Until(time: real)

  /** A check that never reached the counter, or its ticket and what became of it. */
  datatype Check =
    | Lost
    | Counted(at: real, window: nat, count: nat, verdict: Verdict)
  datatype Verdict = Expiring | Allowed | Refused | Fallback

  datatype State = State(now: real, windows: seq<Window>, checks: map<nat, Check>)

  datatype Fault = Answered | LostBefore | LostAfter

  datatype Action = Tick(to: real) | Incr(id: nat, fault: Fault) | Expire(id: nat, fault: Fault)

  function Start(): State { State(0.0, [], map[]) }

  predicate Dead(w: Window, now: real) { w.deadline.Until? && now > w.deadline.time }

  function Current(s: State): Window
    requires s.windows != []
  {
    s.windows[|s.windows| - 1]
  }

  function Verdict1(limit: int, count: nat): Verdict { if count <= limit then Allowed else Refused }

  /** INCR creates the key with no time to live when it is gone. */
  function Bump(s: State): seq<Window>
    ensures Bump(s) != []
  {
    if s.windows == [] || Dead(Current(s), s.now) then s.windows + [Window(s.now, 1, Never)]
    else s.windows[|s.windows| - 1 := Current(s).(count := Current(s).count + 1)]
  }

  function Increment(s: State, limit: int, id: nat, fault: Fault): State {
    if fault == LostBefore then s.(checks := s.checks[id := Lost])
    else
      var windows := Bump(s);
      var count := windows[|windows| - 1].count;
      var verdict := if fault == LostAfter then Fallback
                     else if count == 1 then Expiring
                     else Verdict1(limit, count);
      s.(windows := windows, checks := s.checks[id := Counted(s.now, |windows| - 1, count, verdict)])
  }

  function SetExpiry(s: State, limit: int, id: nat, fault: Fault): State
    requires id in s.checks && s.checks[id].Counted?
  {
    var windows := if fault == LostBefore || s.windows == [] || Dead(Current(s), s.now) then s.windows
                   else s.windows[|s.windows| - 1 := Current(s).(deadline := Until(s.now + 60.0))];
    var c := s.checks[id];
    s.(windows := windows,
       checks := s.checks[id := c.(verdict := if fault == Answered then Verdict1(limit, c.count) else Fallback)])
  }

  predicate Enabled(s: State, a: Action) {
    match a
    case Tick(to) => s.now <= to
    case Incr(id, _) => id !in s.checks
    case Expire(id, _) => id in s.checks && s.checks[id].Counted? && s.checks[id].verdict == Expiring
  }

  function Next(s: State, limit: int, a: Action): State {
    if !Enabled(s, a) then s
    else
      match a
      case Tick(to) => s.(now := to)
      case Incr(id, fault) => Increment(s, limit, id, fault)
      case Expire(id, fault) => SetExpiry(s, limit, id, fault)
  }

  function Run(s: State, limit: int, acts: seq<Action>): State {
    if acts == [] then s else Next(Run(s, limit, acts[..|acts| - 1]), limit, acts[|acts| - 1])
  }

  // ---------------------------------------------------------------- what every step keeps

  /** Windows follow one another; only the last may lack a deadline, which gives a full minute. */
  ghost predicate WindowsOrdered(s: State) {
    && (forall g :: 0 <= g < |s.windows| ==>
          1 <= s.windows[g].count && s.windows[g].start <= s.now
              && (s.windows[g].deadline.Until? ==> s.windows[g].start + 60.0 <= s.windows[g].deadline.time))
    && (forall g :: 0 <= g < |s.windows| - 1 ==>
        s.windows[g].deadline.Until? && Follows(s.windows[g], s.windows[g + 1]))
  }

  predicate Follows(w: Window, next: Window) {
    w.deadline.Until? && w.deadline.time < next.start
  }

  /** A ticket was drawn while its window was alive, and the first one when it was created. */
  ghost predicate TicketIn(s: State, c: Check)
    requires c.Counted?
  {
    && c.window < |s.windows|
    && 1 <= c.count <= s.windows[c.window].count
    && s.windows[c.window].start <= c.at <= s.now
    && (s.windows[c.window].deadline.Until? ==> c.at <= s.windows[c.window].deadline.time)
    && (c.count == 1 ==> c.at == s.windows[c.window].start)
  }

  /** Whoever still owes the EXPIRE drew the first ticket of the current window, which lacks a deadline. */
  ghost predicate VerdictIn(s: State, limit: int, c: Check)
    requires c.Counted?
  {
    && (c.verdict == Allowed ==> c.count <= limit)
    && (c.verdict == Refused ==> c.count > limit)
    && (c.verdict == Expiring ==>
        c.count == 1 && s.windows != [] && c.window == |s.windows| - 1 && Current(s).deadline == Never)
  }

  ghost predicate Tickets(s: State, limit: int) {
    forall id :: id in s.checks && s.checks[id].Counted? ==>
        TicketIn(s, s.checks[id]) && VerdictIn(s, limit, s.checks[id])
  }

  /** No two checks hold the same ticket. */
  ghost predicate TicketsDistinct(s: State) {
    forall i, j :: i in s.checks && j in s.checks && i != j && s.checks[i].Counted? && s.checks[j].Counted? ==>
      s.checks[i].window != s.checks[j].window || s.checks[i].count != s.checks[j].count
  }

  ghost predicate Inv(s: State, limit: int) {
    WindowsOrdered(s) && Tickets(s, limit) && TicketsDistinct(s)
  }

  lemma BumpKeepsOrder(s: State)
    requires WindowsOrdered(s)
    ensures WindowsOrdered(s.(windows := Bump(s)))
    ensures |s.windows| <= |Bump(s)|
    ensures forall g :: 0 <= g < |s.windows| ==>
              var w, w' := s.windows[g], Bump(s)[g];
              w.start == w'.start && w.deadline == w'.deadline && w.count <= w'.count
    ensures |Bump(s)| > |s.windows| ==> s.windows == [] || Dead(Current(s), s.now)
  {
  }

  lemma IncrementKeepsTickets(s: State, limit: int, id: nat, fault: Fault)
    requires Inv(s, limit) && id !in s.checks
    ensures Tickets(Increment(s, limit, id, fault), limit)
  {
    var s' := Increment(s, limit, id, fault);
    BumpKeepsOrder(s);
    forall i | i in s'.checks && s'.checks[i].Counted?
      ensures TicketIn(s', s'.checks[i]) && VerdictIn(s', limit, s'.checks[i])
    {
      if i != id { assert TicketIn(s, s.checks[i]) && VerdictIn(s, limit, s.checks[i]); }
    }
  }

  lemma IncrementKeepsDistinct(s: State, limit: int, id: nat, fault: Fault)
    requires Inv(s, limit) && id !in s.checks
    ensures TicketsDistinct(Increment(s, limit, id, fault))
  {
    forall i | i in s.checks && s.checks[i].Counted? ensures TicketIn(s, s.checks[i]) {}
  }

  lemma SetExpiryKeepsOrder(s: State, limit: int, id: nat, fault: Fault)
    requires Inv(s, limit) && Enabled(s, Expire(id, fault))
    ensures WindowsOrdered(SetExpiry(s, limit, id, fault))
  {
    assert TicketIn(s, s.checks[id]) && VerdictIn(s, limit, s.checks[id]);
  }

  lemma SetExpiryKeepsTickets(s: State, limit: int, id: nat, fault: Fault)
    requires Inv(s, limit) && Enabled(s, Expire(id, fault))
    ensures Tickets(SetExpiry(s, limit, id, fault), limit)
  {
    var s' := SetExpiry(s, limit, id, fault);
    assert TicketIn(s, s.checks[id]) && VerdictIn(s, limit, s.checks[id]);
    forall i | i in s'.checks && s'.checks[i].Counted?
      ensures TicketIn(s', s'.checks[i]) && VerdictIn(s', limit, s'.checks[i])
    {
      assert TicketIn(s, s.checks[i]) && VerdictIn(s, limit, s.checks[i]);
      if i != id { assert s.checks[i].window != s.checks[id].window || s.checks[i].count != s.checks[id].count; }
    }
  }

  lemma SetExpiryKeepsInv(s: State, limit: int, id: nat, fault: Fault)
    requires Inv(s, limit) && Enabled(s, Expire(id, fault))
    ensures Inv(SetExpiry(s, limit, id, fault), limit)
  {
    SetExpiryKeepsOrder(s, limit, id, fault);
    SetExpiryKeepsTickets(s, limit, id, fault);
  }

  lemma TickKeepsInv(s: State, limit: int, to: real)
    requires Inv(s, limit) && s.now <= to
    ensures Inv(s.(now := to), limit)
  {
    var s' := s.(now := to);
    forall i | i in s.checks && s.checks[i].Counted?
      ensures TicketIn(s', s.checks[i]) && VerdictIn(s', limit, s.checks[i])
    {
      assert TicketIn(s, s.checks[i]) && VerdictIn(s, limit, s.checks[i]);
    }
  }

  lemma NextKeepsInv(s: State, limit: int, a: Action)
    requires Inv(s, limit)
    ensures Inv(Next(s, limit, a), limit)
  {
    if Enabled(s, a) {
      match a
      case Tick(to) => TickKeepsInv(s, limit, to);
      case Incr(id, fault) =>
        BumpKeepsOrder(s);
        IncrementKeepsTickets(s, limit, id, fault);
        IncrementKeepsDistinct(s, limit, id, fault);
      case Expire(id, fault) => SetExpiryKeepsInv(s, limit, id, fault);
    }
  }

  lemma {:induction false} RunKeepsInv(s: State, limit: int, acts: seq<Action>)
    requires Inv(s, limit)
    ensures Inv(Run(s, limit, acts), limit)
  {
    if acts != [] {
      var front := acts[..|acts| - 1];
      RunKeepsInv(s, limit, front);
      NextKeepsInv(Run(s, limit, front), limit, acts[|acts| - 1]);
    }
  }

  // ---------------------------------------------------------------- the burst bound

  /** The checks the Redis path admitted with a counter increment in the closed minute from `a`. */
  ghost function Admitted(s: State, a: real): set<nat> {
    set id | id in s.checks && s.checks[id].Counted? && s.checks[id].verdict == Allowed
        && a <= s.checks[id].at <= a + 60.0
  }

  /** A set that maps one-to-one into 0..n has at most n members. */
  lemma {:induction false} InjectionBound(ids: set<nat>, f: map<nat, nat>, n: nat)
    requires ids <= f.Keys
    requires forall i :: i in ids ==> f[i] < n
    requires forall i, j :: i in ids && j in ids && i != j ==> f[i] != f[j]
    ensures |ids| <= n
  {
    if ids != {} {
      var k :| k in ids;
      assert f[k] < n;
      if i :| i in ids && f[i] == n - 1 {
        InjectionBound(ids - {i}, f, n - 1);
      } else {
        InjectionBound(ids, f, n - 1);
      }
    }
  }

  /** Two windows with another between them are more than a minute apart. */
  lemma WindowsApart(s: State, limit: int, i: nat, j: nat)
    requires Inv(s, limit)
    requires i in s.checks && j in s.checks && s.checks[i].Counted? && s.checks[j].Counted?
    requires s.checks[i].window + 2 <= s.checks[j].window
    ensures s.checks[j].at > s.checks[i].at + 60.0
  {
    assert TicketIn(s, s.checks[i]) && TicketIn(s, s.checks[j]);
    var g := s.checks[i].window;
    assert Follows(s.windows[g], s.windows[g + 1]);
    StartsAscend(s, g + 2, s.checks[j].window);
    assert Follows(s.windows[g + 1], s.windows[g + 2]);
  }

  lemma {:induction false} StartsAscend(s: State, g: nat, h: nat)
    requires WindowsOrdered(s) && g <= h < |s.windows|
    ensures s.windows[g].start <= s.windows[h].start
    decreases h
  {
    if g < h {
      StartsAscend(s, g, h - 1);
      assert Follows(s.windows[h - 1], s.windows[h]);
    }
  }

  /** A ticket of the next window is more than a minute after the first ticket of this one. */
  lemma FirstTicketApart(s: State, limit: int, i: nat, j: nat)
    requires Inv(s, limit)
    requires i in s.checks && j in s.checks && s.checks[i].Counted? && s.checks[j].Counted?
    requires s.checks[i].window < s.checks[j].window && s.checks[i].count == 1
    ensures s.checks[j].at > s.checks[i].at + 60.0
  {
    assert TicketIn(s, s.checks[i]) && TicketIn(s, s.checks[j]);
    var g := s.checks[i].window;
    assert Follows(s.windows[g], s.windows[g + 1]);
    StartsAscend(s, g + 1, s.checks[j].window);
  }

  /** The checks of one minute lie in two neighbouring windows, and if in both, the first ticket
      of the earlier one is not among them. */
  lemma NeighbouringWindows(s: State, limit: int, a: real, first: nat)
    requires Inv(s, limit) && first in Admitted(s, a)
    requires forall i :: i in Admitted(s, a) ==> s.checks[first].window <= s.checks[i].window
    ensures forall i :: i in Admitted(s, a) ==>
        1 <= s.checks[i].count <= limit && s.checks[i].window <= s.checks[first].window + 1
    ensures forall i, j :: i in Admitted(s, a) && j in Admitted(s, a) && s.checks[i].count == 1 ==>
        s.checks[j].window <= s.checks[i].window
  {
    forall i | i in Admitted(s, a)
      ensures 1 <= s.checks[i].count <= limit && s.checks[i].window <= s.checks[first].window + 1
    {
      assert TicketIn(s, s.checks[i]) && VerdictIn(s, limit, s.checks[i]);
      if s.checks[i].window >= s.checks[first].window + 2 { WindowsApart(s, limit, first, i); }
    }
    forall i, j | i in Admitted(s, a) && j in Admitted(s, a) && s.checks[i].count == 1
      ensures s.checks[j].window <= s.checks[i].window
    {
      if s.checks[j].window > s.checks[i].window { FirstTicketApart(s, limit, i, j); }
    }
  }

  /** The tickets of one window are numbered by their counts. */
  lemma OneWindowBound(s: State, ids: set<nat>, g: nat, limit: nat)
    requires ids <= s.checks.Keys && forall i :: i in ids ==> s.checks[i].Counted?
    requires forall i :: i in ids ==> 1 <= s.checks[i].count <= limit && s.checks[i].window == g
    requires TicketsDistinct(s)
    ensures |ids| <= limit
  {
    var f := map i | i in ids :: (s.checks[i].count - 1) as nat;
    forall i | i in ids ensures f[i] < limit {
      assert s.checks[i].count <= limit;
    }
    forall i, j | i in ids && j in ids && i != j ensures f[i] != f[j] {
      assert s.checks[i].window == s.checks[j].window;
    }
    InjectionBound(ids, f, limit);
  }

  /** The number of a ticket of window `g` or the next, the very first ticket of `g` left out. */
  function Rank(c: Check, g: nat, limit: nat): int
    requires c.Counted?
  {
    if c.window == g then c.count - 2 else limit + c.count - 2
  }

  lemma RanksApart(s: State, i: nat, j: nat, g: nat, limit: nat)
    requires i in s.checks && j in s.checks && i != j && s.checks[i].Counted? && s.checks[j].Counted?
    requires 1 <= s.checks[i].count <= limit && g <= s.checks[i].window <= g + 1
    requires 1 <= s.checks[j].count <= limit && g <= s.checks[j].window <= g + 1
    requires TicketsDistinct(s)
    ensures Rank(s.checks[i], g, limit) != Rank(s.checks[j], g, limit)
  {
    assert s.checks[i].window != s.checks[j].window || s.checks[i].count != s.checks[j].count;
  }

  /** The tickets of two neighbouring windows are numbered one window after the other. */
  lemma TwoWindowsBound(s: State, ids: set<nat>, g: nat, limit: nat)
    requires limit >= 1
    requires ids <= s.checks.Keys && forall i :: i in ids ==> s.checks[i].Counted?
    requires forall i :: i in ids ==> 1 <= s.checks[i].count <= limit && g <= s.checks[i].window <= g + 1
    requires forall i :: i in ids && s.checks[i].window == g ==> s.checks[i].count >= 2
    requires TicketsDistinct(s)
    ensures |ids| <= 2 * limit - 1
  {
    forall i | i in ids ensures 0 <= Rank(s.checks[i], g, limit) < 2 * limit - 1 {
      assert 1 <= s.checks[i].count <= limit;
    }
    var f := map i | i in ids :: Rank(s.checks[i], g, limit) as nat;
    forall i, j | i in ids && j in ids && i != j ensures f[i] != f[j] {
      RanksApart(s, i, j, g, limit);
    }
    InjectionBound(ids, f, 2 * limit - 1);
  }

  /** Tickets of two neighbouring windows, the first one of the earlier window only if all are of that window. */
  lemma RankBound(s: State, ids: set<nat>, g: nat, limit: nat)
    requires limit >= 1
    requires ids <= s.checks.Keys && forall i :: i in ids ==> s.checks[i].Counted?
    requires forall i :: i in ids ==> 1 <= s.checks[i].count <= limit && g <= s.checks[i].window <= g + 1
    requires forall i, j :: i in ids && j in ids && s.checks[i].count == 1 ==>
               s.checks[j].window <= s.checks[i].window
    requires TicketsDistinct(s)
    ensures |ids| <= 2 * limit - 1
  {
    if j :| j in ids && s.checks[j].window == g + 1 {
      forall i | i in ids && s.checks[i].window == g ensures s.checks[i].count >= 2 {
        assert s.checks[i].window < s.checks[j].window;
      }
      TwoWindowsBound(s, ids, g, limit);
    } else {
      OneWindowBound(s, ids, g, limit);
    }
  }

  /** However INCR and EXPIRE interleave, are delayed or lost, any closed minute admits at most
      2 * limit - 1 requests through Redis. */
  lemma BurstBound(limit: int, acts: seq<Action>, a: real)
    ensures |Admitted(Run(Start(), limit, acts), a)| <= if limit <= 0 then 0 else 2 * limit - 1
  {
    var s := Run(Start(), limit, acts);
    RunKeepsInv(Start(), limit, acts);
    var ids := Admitted(s, a);
    if ids != {} {
      var first := Earliest(s, ids);
      var g := s.checks[first].window;
      NeighbouringWindows(s, limit, a, first);
      RankBound(s, ids, g, limit);
    }
  }

  /** A check of the oldest window among some. */
  lemma {:induction false} Earliest(s: State, ids: set<nat>) returns (first: nat)
    requires ids != {} && forall i :: i in ids ==> i in s.checks && s.checks[i].Counted?
    ensures first in ids && forall i :: i in ids ==> s.checks[first].window <= s.checks[i].window
    decreases |ids|
  {
    var one :| one in ids;
    var rest := ids - {one};
    first := one;
    if rest != {} {
      var other := Earliest(s, rest);
      if s.checks[other].window < s.checks[one].window { first := other; }
    }
    forall i | i in ids ensures s.checks[first].window <= s.checks[i].window {
      assert i == one || i in rest;
    }
  }

  // ---------------------------------------------------------------- the bound is reached

  lemma RunSnoc(from: State, limit: int, acts: seq<Action>, a: Action)
    ensures Run(from, limit, acts + [a]) == Next(Run(from, limit, acts), limit, a)
  {
    assert (acts + [a])[..|acts|] == acts;
  }

  /** A check drawing a ticket of a live window with room for it is admitted. */
  lemma DrawOne(s: State, limit: int, id: nat)
    requires s.windows != [] && !Dead(Current(s), s.now) && id !in s.checks
    requires 1 <= Current(s).count < limit
    ensures var s' := Next(s, limit, Incr(id, Answered));
            && s'.now == s.now && s'.windows != []
            && Current(s') == Current(s).(count := Current(s).count + 1)
            && s'.checks == s.checks[id := Counted(s.now, |s.windows| - 1, Current(s).count + 1, Allowed)]
  {
  }

  /** Every Redis call of the run answers. */
  predicate Faultless(acts: seq<Action>) {
    forall i :: 0 <= i < |acts| ==> acts[i].Tick? || acts[i].fault == Answered
  }

  /** `n` tickets drawn at once from a live window with room for them are all admitted. */
  lemma {:induction false} Burst(from: State, limit: int, acts: seq<Action>, base: nat, n: nat)
    returns (longer: seq<Action>)
    requires var s := Run(from, limit, acts);
             && s.windows != [] && !Dead(Current(s), s.now)
             && 1 <= Current(s).count && Current(s).count + n <= limit
             && forall id :: id in s.checks ==> id < base
    ensures var s, s' := Run(from, limit, acts), Run(from, limit, longer);
            && s'.now == s.now && s'.windows != [] && Current(s').deadline == Current(s).deadline
            && Current(s').count == Current(s).count + n
            && (forall id :: id in s.checks ==> id in s'.checks && s'.checks[id] == s.checks[id])
            && (forall id :: id in s'.checks ==> id < base + n)
            && (forall id :: base <= id < base + n ==> AdmittedAt(s', id, s.now))
            && (forall id :: id in s'.checks && id !in s.checks ==> base <= id)
            && (Faultless(acts) ==> Faultless(longer))
  {
    longer := acts;
    if n > 0 {
      var shorter := Burst(from, limit, acts, base, n - 1);
      var id := base + n - 1;
      longer := shorter + [Incr(id, Answered)];
      RunSnoc(from, limit, shorter, Incr(id, Answered));
      var s, s' := Run(from, limit, shorter), Run(from, limit, longer);
      DrawOne(s, limit, id);
      forall i | base <= i < base + n ensures AdmittedAt(s', i, s.now) {
        if i < id { assert AdmittedAt(s, i, s.now); }
      }
    }
  }

  predicate AdmittedAt(s: State, id: nat, at: real) {
    id in s.checks && s.checks[id].Counted? && s.checks[id].verdict == Allowed && s.checks[id].at == at
  }

  /** The INCR that creates the key. */
  lemma OpenFirst(s: State, limit: int, id: nat)
    requires (s.windows == [] || Dead(Current(s), s.now)) && id !in s.checks
    ensures Next(s, limit, Incr(id, Answered))
            == State(s.now, s.windows + [Window(s.now, 1, Never)],
                     s.checks[id := Counted(s.now, |s.windows|, 1, Expiring)])
  {
  }

  /** The EXPIRE that answers. */
  lemma ExpireAnswers(s: State, limit: int, id: nat)
    requires s.windows != [] && !Dead(Current(s), s.now)
    requires id in s.checks && s.checks[id].Counted? && s.checks[id].verdict == Expiring
    ensures var n := |s.windows| - 1;
            Next(s, limit, Expire(id, Answered))
            == State(s.now, s.windows[n := s.windows[n].(deadline := Until(s.now + 60.0))],
                     s.checks[id := s.checks[id].(verdict := Verdict1(limit, s.checks[id].count))])
  {
  }

  /** Opening a window with a prompt EXPIRE. */
  lemma Open(from: State, limit: int, acts: seq<Action>, id: nat) returns (longer: seq<Action>)
    requires limit >= 1
    requires var s := Run(from, limit, acts);
             (s.windows == [] || Dead(Current(s), s.now)) && forall i :: i in s.checks ==> i < id
    ensures var s, s' := Run(from, limit, acts), Run(from, limit, longer);
            && s' == State(s.now, s.windows + [Window(s.now, 1, Until(s.now + 60.0))],
                           s.checks[id := Counted(s.now, |s.windows|, 1, Allowed)])
            && AdmittedAt(s', id, s.now)
            && (Faultless(acts) ==> Faultless(longer))
  {
    var s := Run(from, limit, acts);
    var half := acts + [Incr(id, Answered)];
    RunSnoc(from, limit, acts, Incr(id, Answered));
    OpenFirst(s, limit, id);
    var s1 := Run(from, limit, half);
    longer := half + [Expire(id, Answered)];
    RunSnoc(from, limit, half, Expire(id, Answered));
    ExpireAnswers(s1, limit, id);
    assert s1.checks[id := Counted(s.now, |s.windows|, 1, Allowed)]
        == s.checks[id := Counted(s.now, |s.windows|, 1, Allowed)];
    assert s1.windows[|s.windows| := Window(s.now, 1, Until(s.now + 60.0))]
        == s.windows + [Window(s.now, 1, Until(s.now + 60.0))];
  }

  lemma Wait(from: State, limit: int, acts: seq<Action>, to: real) returns (longer: seq<Action>)
    requires Run(from, limit, acts).now <= to
    ensures Run(from, limit, longer) == Run(from, limit, acts).(now := to)
  {
    longer := acts + [Tick(to)];
    RunSnoc(from, limit, acts, Tick(to));
  }

  function Range(n: nat): (r: set<nat>)
    ensures forall i :: i in r <==> 1 <= i <= n
    ensures |r| == n
  {
    if n == 0 then {} else Range(n - 1) + {n}
  }

  /** A full window spent at its deadline, and the next one a second later. */
  lemma BurstBoundIsReached(limit: int) returns (acts: seq<Action>, a: real)
    requires limit >= 1
    ensures |Admitted(Run(Start(), limit, acts), a)| == 2 * limit - 1
  {
    acts := Open(Start(), limit, [], 0);
    acts := Wait(Start(), limit, acts, 60.0);
    acts := Burst(Start(), limit, acts, 1, limit - 1);
    var s1 := Run(Start(), limit, acts);
    assert forall i :: 1 <= i < limit ==> AdmittedAt(s1, i, 60.0);
    acts := Wait(Start(), limit, acts, 61.0);
    acts := Open(Start(), limit, acts, limit);
    var s2 := Run(Start(), limit, acts);
    assert AdmittedAt(s2, limit, 61.0);
    acts := Burst(Start(), limit, acts, limit + 1, limit - 1);
    a := 60.0;
    var s := Run(Start(), limit, acts);
    assert forall i :: i in s1.checks ==> i in s.checks && s.checks[i] == s1.checks[i];
    var ids := Range(2 * limit - 1);
    assert ids <= Admitted(s, a) by {
      forall i | i in ids ensures i in Admitted(s, a) {
        if i < limit { assert AdmittedAt(s1, i, 60.0); }
        else if i == limit { assert AdmittedAt(s2, i, 61.0); }
        else { assert AdmittedAt(s, i, 61.0); }
      }
    }
    BurstBound(limit, acts, a);
    Sandwich(ids, Admitted(s, a));
  }

  lemma Sandwich(small: set<nat>, big: set<nat>)
    requires small <= big
    ensures |small| <= |big|
  {
    assert big == small + (big - small);
  }

  /** The refusal text promises `limit` requests per minute. The Redis path keeps that promise in
      every run and for every minute exactly when the limit is at most one. */
  lemma MinutePromiseIff(limit: int)
    ensures (forall acts, a :: |Admitted(Run(Start(), limit, acts), a)| <= if limit <= 0 then 0 else limit) <==>
        limit <= 1
  {
    if limit <= 1 {
      forall acts, a ensures |Admitted(Run(Start(), limit, acts), a)| <= if limit <= 0 then 0 else limit {
        BurstBound(limit, acts, a);
      }
    } else {
      var acts, a := BurstBoundIsReached(limit);
    }
  }

  // ---------------------------------------------------------------- a lost EXPIRE

  /** The current window has no deadline and nobody is left to give it one. */
  ghost predicate Stranded(s: State) {
    && s.windows != [] && Current(s).deadline == Never
    && forall id :: id in s.checks && s.checks[id].Counted? ==> s.checks[id].verdict != Expiring
  }

  /** Every check made since `s` drew a later ticket of the window that was current in `s`. */
  ghost predicate DrawnAfter(s: State, s': State)
    requires s.windows != []
  {
    forall id :: id in s'.checks && id !in s.checks && s'.checks[id].Counted? ==>
      s'.checks[id].window == |s.windows| - 1 && s'.checks[id].count > Current(s).count
  }

  /** Once the EXPIRE of a window is lost, the window never ends: every later ticket is drawn from it. */
  lemma {:induction false} StrandedForever(s: State, limit: int, acts: seq<Action>)
    requires Stranded(s) && Current(s).count >= 1
    ensures var s' := Run(s, limit, acts);
            && Stranded(s') && |s'.windows| == |s.windows| && Current(s').count >= Current(s).count
            && s.checks.Keys <= s'.checks.Keys && DrawnAfter(s, s')
  {
    if acts != [] {
      StrandedForever(s, limit, acts[..|acts| - 1]);
    }
  }

  /** From then on, a client whose counter has reached the limit is never admitted again through Redis. */
  lemma LostExpireLocksOut(limit: int, before: seq<Action>, acts: seq<Action>, id: nat)
    requires var s := Run(Start(), limit, before);
             Stranded(s) && Current(s).count >= limit && id !in s.checks && id in Run(s, limit, acts).checks
    ensures var c := Run(Run(Start(), limit, before), limit, acts).checks[id];
            c.Counted? ==> c.verdict != Allowed
  {
    var s := Run(Start(), limit, before);
    RunKeepsInv(Start(), limit, before);
    RunKeepsInv(s, limit, acts);
    StrandedForever(s, limit, acts);
    var c := Run(s, limit, acts).checks[id];
    if c.Counted? { assert VerdictIn(Run(s, limit, acts), limit, c); }
  }

  /** An INCR that took effect uses up a place although its reply was lost: the next check finds the limit reached.
      Had it not taken effect, that check would be admitted. */
  lemma LostReplyUsesAPlace(s: State, limit: int, lost: nat, next: nat, fault: Fault)
    requires s.windows != [] && !Dead(Current(s), s.now) && 1 <= Current(s).count == limit - 1
    requires lost !in s.checks && next !in s.checks && lost != next && fault != Answered
    ensures var s1 := Next(s, limit, Incr(lost, fault));
            var s2 := Next(s1, limit, Incr(next, Answered));
            && AnsweredWithout(s2, lost)
            && next in s2.checks && s2.checks[next].Counted?
            && s2.checks[next].verdict == if fault == LostAfter then Refused else Allowed
  {
    var s1 := Next(s, limit, Incr(lost, fault));
    assert lost in s1.checks && AnsweredWithout(s1, lost);
    assert s1.windows != [] && !Dead(Current(s1), s1.now);
  }

  /** Redis left this check to the fallback. */
  predicate AnsweredWithout(s: State, id: nat) {
    id in s.checks && (s.checks[id].Lost? || s.checks[id].verdict == Fallback)
  }

  /** An EXPIRE that took effect ends the window after its minute although its reply was lost; one that did not
      leaves it without an end. */
  lemma LostReplyStillExpires(s: State, limit: int, id: nat, fault: Fault)
    requires id in s.checks && s.checks[id].Counted? && s.checks[id].verdict == Expiring
    requires s.windows != [] && Current(s).deadline == Never && fault != Answered
    ensures var s' := Next(s, limit, Expire(id, fault));
            && AnsweredWithout(s', id) && |s'.windows| == |s.windows|
            && Current(s').count == Current(s).count
            && Current(s').deadline == if fault == LostAfter then Until(s.now + 60.0) else Never
  {
  }

  /** The first EXPIRE is lost before it takes effect and the window is then used up. */
  lemma LostExpireStrands(limit: int) returns (acts: seq<Action>)
    requires limit >= 1
    ensures var s := Run(Start(), limit, acts); Stranded(s) && Current(s).count >= limit
  {
    var first := [Incr(0, Answered)];
    RunSnoc(Start(), limit, [], Incr(0, Answered));
    OpenFirst(Start(), limit, 0);
    RunSnoc(Start(), limit, first, Expire(0, LostBefore));
    var lost := first + [Expire(0, LostBefore)];
    var s := Run(Start(), limit, lost);
    assert s == State(0.0, [Window(0.0, 1, Never)], map[0 := Counted(0.0, 0, 1, Fallback)]);
    acts := Burst(Start(), limit, lost, 1, limit - 1);
    var s' := Run(Start(), limit, acts);
    forall id | id in s'.checks && s'.checks[id].Counted? ensures s'.checks[id].verdict != Expiring {
      if id !in s.checks { assert AdmittedAt(s', id, s.now); }
    }
  }

  /** Some check made after `s` is admitted through Redis. */
  ghost predicate AdmittedLater(s: State, limit: int, more: seq<Action>, id: nat) {
    var s' := Run(s, limit, more);
    id !in s.checks && id in s'.checks && s'.checks[id].Counted? && s'.checks[id].verdict == Allowed
  }

  /** However the run goes on, the client is never admitted through Redis again. */
  ghost predicate LockedOut(s: State, limit: int) {
    forall more, id :: !AdmittedLater(s, limit, more, id)
  }

  lemma {:induction false} FreshId(ids: set<nat>) returns (id: nat)
    ensures forall i :: i in ids ==> i < id
  {
    if ids == {} {
      id := 0;
    } else {
      var one :| one in ids;
      var rest := FreshId(ids - {one});
      id := if one < rest then rest else one + 1;
      forall i | i in ids ensures i < id {
        assert i == one || i in ids - {one};
      }
    }
  }

  /** A window that is gone, or can still end, gives way to a new one. */
  lemma NewWindowAdmits(s: State, limit: int, acts: seq<Action>, id: nat) returns (more: seq<Action>)
    requires limit >= 1
    requires var s' := Run(s, limit, acts);
             && s'.checks.Keys == s.checks.Keys && (forall i :: i in s.checks ==> i < id)
             && (s'.windows == [] || Current(s').deadline.Until?)
    ensures AdmittedLater(s, limit, more, id)
  {
    more := acts;
    var s1 := Run(s, limit, acts);
    if s1.windows != [] && !Dead(Current(s1), s1.now) {
      more := Wait(s, limit, acts, Current(s1).deadline.time + 1.0);
    }
    more := Open(s, limit, more, id);
  }

  /** The first check of a window may still deliver its EXPIRE. */
  lemma PendingExpireAdmits(s: State, limit: int, owner: nat, id: nat) returns (more: seq<Action>)
    requires limit >= 1 && s.windows != [] && Current(s).deadline == Never
    requires owner in s.checks && s.checks[owner].Counted? && s.checks[owner].verdict == Expiring
    requires forall i :: i in s.checks ==> i < id
    ensures AdmittedLater(s, limit, more, id)
  {
    var one := [Expire(owner, Answered)];
    RunSnoc(s, limit, [], Expire(owner, Answered));
    assert [] + one == one;
    ExpireAnswers(s, limit, owner);
    var s1 := Run(s, limit, one);
    assert s1.checks.Keys == s.checks.Keys;
    more := NewWindowAdmits(s, limit, one, id);
  }

  /** A window without an end but with room left admits one more. */
  lemma RoomAdmits(s: State, limit: int, id: nat) returns (more: seq<Action>)
    requires s.windows != [] && Current(s).deadline == Never && 1 <= Current(s).count < limit
    requires id !in s.checks
    ensures AdmittedLater(s, limit, more, id)
  {
    more := [Incr(id, Answered)];
    RunSnoc(s, limit, [], Incr(id, Answered));
    assert [] + more == more;
    DrawOne(s, limit, id);
  }

  /** In a reachable state the client is locked out for good, whatever happens, exactly when the window lost its
      EXPIRE and is used up, or the limit admits nobody. */
  lemma LockedOutIff(limit: int, before: seq<Action>)
    ensures var s := Run(Start(), limit, before);
            LockedOut(s, limit) <==> limit <= 0 || (Stranded(s) && Current(s).count >= limit)
  {
    var s := Run(Start(), limit, before);
    RunKeepsInv(Start(), limit, before);
    if limit <= 0 {
      NobodyIsAdmitted(limit, before);
    } else if Stranded(s) && Current(s).count >= limit {
      forall more, id ensures !AdmittedLater(s, limit, more, id) {
        if id !in s.checks && id in Run(s, limit, more).checks { LostExpireLocksOut(limit, before, more, id); }
      }
    } else {
      var id := FreshId(s.checks.Keys);
      var more: seq<Action>;
      if s.windows == [] || Current(s).deadline.Until? {
        more := NewWindowAdmits(s, limit, [], id);
      } else if owner :| owner in s.checks && s.checks[owner].Counted? && s.checks[owner].verdict == Expiring {
        more := PendingExpireAdmits(s, limit, owner, id);
      } else {
        more := RoomAdmits(s, limit, id);
      }
      assert AdmittedLater(s, limit, more, id);
    }
  }

  lemma NobodyIsAdmitted(limit: int, before: seq<Action>)
    requires limit <= 0
    ensures LockedOut(Run(Start(), limit, before), limit)
  {
    var s := Run(Start(), limit, before);
    RunKeepsInv(Start(), limit, before);
    forall more, id ensures !AdmittedLater(s, limit, more, id) {
      RunKeepsInv(s, limit, more);
      var s' := Run(s, limit, more);
      if id in s'.checks && s'.checks[id].Counted? {
        assert TicketIn(s', s'.checks[id]) && VerdictIn(s', limit, s'.checks[id]);
      }
    }
  }

  // ---------------------------------------------------------------- the promised retry

  /** One check after `wait` seconds with nobody else about and Redis answering. */
  function LoneRetry(s: State, wait: real, id: nat): seq<Action> {
    [Tick(s.now + wait), Incr(id, Answered), Expire(id, Answered)]
  }

  /** The current window will have ended by then. */
  predicate EndsBefore(s: State, until: real) {
    s.windows == [] || (Current(s).deadline.Until? && Current(s).deadline.time < until)
  }

  lemma LoneRetryRuns(s: State, limit: int, wait: real, id: nat)
    ensures var s1 := Next(s, limit, Tick(s.now + wait));
            Run(s, limit, LoneRetry(s, wait, id))
            == Next(Next(s1, limit, Incr(id, Answered)), limit, Expire(id, Answered))
  {
    var acts := [Tick(s.now + wait)];
    RunSnoc(s, limit, [], Tick(s.now + wait));
    assert [] + acts == acts;
    RunSnoc(s, limit, acts, Incr(id, Answered));
    RunSnoc(s, limit, acts + [Incr(id, Answered)], Expire(id, Answered));
    assert LoneRetry(s, wait, id) == acts + [Incr(id, Answered)] + [Expire(id, Answered)];
  }

  /** A ticket of a used-up window is refused. */
  lemma DrawRefused(s: State, limit: int, id: nat)
    requires s.windows != [] && !Dead(Current(s), s.now) && id !in s.checks
    requires 1 <= Current(s).count && limit <= Current(s).count
    ensures var s', count := Next(s, limit, Incr(id, Answered)), Current(s).count + 1;
            && s' == State(s.now, s.windows[|s.windows| - 1 := Current(s).(count := count)],
                           s.checks[id := Counted(s.now, |s.windows| - 1, count, Refused)])
            && Next(s', limit, Expire(id, Answered)) == s'
  {
  }

  /** Once a window is used up, a lone retry is admitted exactly when the window has ended by then. */
  lemma LoneRetryIff(s: State, limit: int, wait: real, id: nat)
    requires limit >= 1 && wait >= 0.0 && id !in s.checks
    requires s.windows != [] && !Dead(Current(s), s.now) && Current(s).count >= limit
    ensures AdmittedLater(s, limit, LoneRetry(s, wait, id), id) <==> EndsBefore(s, s.now + wait)
  {
    var s1 := Next(s, limit, Tick(s.now + wait));
    LoneRetryRuns(s, limit, wait, id);
    if EndsBefore(s, s.now + wait) {
      OpenFirst(s1, limit, id);
      ExpireAnswers(Next(s1, limit, Incr(id, Answered)), limit, id);
    } else {
      DrawRefused(s1, limit, id);
    }
  }

  /** The current window is alive, used up, and will be there until that time. */
  predicate UsedUpUntil(s: State, limit: int, until: real) {
    && s.windows != [] && !Dead(Current(s), s.now) && Current(s).count >= limit
    && !EndsBefore(s, until)
  }

  lemma ClockAdvances(s: State, limit: int, a: Action)
    ensures Next(s, limit, a).now >= s.now
  {
  }

  lemma StepStaysUsedUp(s: State, limit: int, until: real, a: Action)
    requires limit >= 1 && UsedUpUntil(s, limit, until) && until <= s.now + 60.0 && Next(s, limit, a).now <= until
    ensures var s' := Next(s, limit, a);
            && UsedUpUntil(s', limit, until) && |s'.windows| == |s.windows| && Current(s').count >= Current(s).count
            && DrawnAfter(s, s') && s.checks.Keys <= s'.checks.Keys
  {
  }

  /** Up to that time, no more than a minute away, the window stays and every check draws from it. */
  lemma {:induction false} StaysUsedUp(s: State, limit: int, until: real, acts: seq<Action>)
    requires limit >= 1 && UsedUpUntil(s, limit, until) && until <= s.now + 60.0
    requires Run(s, limit, acts).now <= until
    ensures var s' := Run(s, limit, acts);
            && UsedUpUntil(s', limit, until) && |s'.windows| == |s.windows| && Current(s').count >= Current(s).count
            && DrawnAfter(s, s') && s.checks.Keys <= s'.checks.Keys && s.now <= s'.now
  {
    if acts != [] {
      var front, a := acts[..|acts| - 1], acts[|acts| - 1];
      ClockAdvances(Run(s, limit, front), limit, a);
      StaysUsedUp(s, limit, until, front);
      StepStaysUsedUp(Run(s, limit, front), limit, until, a);
    }
  }

  /** Some check made after `s` and no later than `until` is admitted through Redis. */
  ghost predicate AdmittedBy(s: State, limit: int, until: real, more: seq<Action>, id: nat) {
    Run(s, limit, more).now <= until && AdmittedLater(s, limit, more, id)
  }

  ghost predicate SomeoneAdmitted(s: State, limit: int, until: real) {
    exists more, id :: AdmittedBy(s, limit, until, more, id)
  }

  lemma UsedUpAdmitsNobody(limit: int, before: seq<Action>, until: real)
    requires var s := Run(Start(), limit, before);
             limit >= 1 && UsedUpUntil(s, limit, until) && until <= s.now + 60.0
    ensures !SomeoneAdmitted(Run(Start(), limit, before), limit, until)
  {
    var s := Run(Start(), limit, before);
    RunKeepsInv(Start(), limit, before);
    forall more, id ensures !AdmittedBy(s, limit, until, more, id) {
      var s' := Run(s, limit, more);
      if s'.now <= until && id !in s.checks && id in s'.checks && s'.checks[id].Counted? {
        StaysUsedUp(s, limit, until, more);
        RunKeepsInv(s, limit, more);
        assert VerdictIn(s', limit, s'.checks[id]);
        assert s'.checks[id].count > Current(s).count;
      }
    }
  }

  /** A check that was just now refused. */
  predicate RefusedNow(s: State, id: nat) {
    id in s.checks && s.checks[id].Counted? && s.checks[id].verdict == Refused && s.checks[id].at == s.now
  }

  lemma EarlierWindowsAreDead(s: State)
    requires WindowsOrdered(s)
    ensures forall g :: 0 <= g < |s.windows| - 1 ==> Dead(s.windows[g], s.now)
  {
    forall g | 0 <= g < |s.windows| - 1 ensures Dead(s.windows[g], s.now) {
      assert Follows(s.windows[g], s.windows[g + 1]);
      assert s.windows[g + 1].start <= s.now;
    }
  }

  /** It drew from the current window, which is alive and used up. */
  lemma RefusedFromUsedUp(limit: int, before: seq<Action>, refused: nat)
    requires RefusedNow(Run(Start(), limit, before), refused)
    ensures var s := Run(Start(), limit, before);
            s.windows != [] && !Dead(Current(s), s.now) && Current(s).count > limit
  {
    var s := Run(Start(), limit, before);
    RunKeepsInv(Start(), limit, before);
    var c := s.checks[refused];
    assert TicketIn(s, c) && VerdictIn(s, limit, c);
    EarlierWindowsAreDead(s);
    assert c.window == |s.windows| - 1;
  }

  /** The refusal tells the client to retry after a minute. A lone retry after exactly that minute is admitted
      through Redis exactly when the limit is positive and the window's EXPIRE took effect strictly before the
      refusal, so that the window ends in time. Otherwise nothing that can happen gets any check admitted within
      that minute. */
  lemma RetryAfterIff(limit: int, before: seq<Action>, refused: nat, id: nat)
    requires var s := Run(Start(), limit, before); RefusedNow(s, refused) && id !in s.checks
    ensures var s := Run(Start(), limit, before);
            && (AdmittedLater(s, limit, LoneRetry(s, 60.0, id), id) <==> limit >= 1 && EndsBefore(s, s.now + 60.0))
            && (SomeoneAdmitted(s, limit, s.now + 60.0) <==> limit >= 1 && EndsBefore(s, s.now + 60.0))
  {
    var s := Run(Start(), limit, before);
    RefusedFromUsedUp(limit, before, refused);
    if limit <= 0 {
      NobodyIsAdmitted(limit, before);
    } else {
      LoneRetryIff(s, limit, 60.0, id);
      if EndsBefore(s, s.now + 60.0) {
        LoneRetryRuns(s, limit, 60.0, id);
        assert AdmittedBy(s, limit, s.now + 60.0, LoneRetry(s, 60.0, id), id);
      } else {
        UsedUpAdmitsNobody(limit, before, s.now + 60.0);
      }
    }
  }

  /** For every positive limit the retry can fail with no fault at all: the window is opened and used up, and a check
      refused, at one moment; a minute later the key is still there. */
  lemma RetryCanFail(limit: int) returns (acts: seq<Action>, refused: nat)
    requires limit >= 1
    ensures Faultless(acts)
    ensures var s := Run(Start(), limit, acts);
            && RefusedNow(s, refused) && (forall id :: id in s.checks ==> id <= refused)
            && !AdmittedLater(s, limit, LoneRetry(s, 60.0, refused + 1), refused + 1)
  {
    acts := Open(Start(), limit, [], 0);
    acts := Burst(Start(), limit, acts, 1, limit - 1);
    refused := limit;
    var s := Run(Start(), limit, acts);
    DrawRefused(s, limit, refused);
    RunSnoc(Start(), limit, acts, Incr(refused, Answered));
    acts := acts + [Incr(refused, Answered)];
    RetryAfterIff(limit, acts, refused, refused + 1);
  }

  // ---------------------------------------------------------------- the code

  /** `_check_redis` for one client, between whose calls anyone else may act. */
  class FixedWindow {
    const limit: int
    var state: State
    ghost var trace: seq<Action>

    ghost predicate Valid()
      reads this
    {
      state == Run(Start(), limit, trace)
    }

    constructor (limit: int)
      ensures Valid() && this.limit == limit && state == Start()
    {
      this.limit := limit;
      state := Start();
      trace := [];
    }

    method Perform(a: Action)
      requires Valid()
      modifies this
      ensures Valid() && state == Next(old(state), limit, a) && trace == old(trace) + [a]
    {
      RunSnoc(Start(), limit, trace, a);
      state := Next(state, limit, a);
      trace := trace + [a];
    }

    /** Any number of steps of anyone but check `id`, and of the clock. */
    method Interfere(id: nat)
      requires Valid()
      modifies this
      ensures Valid() && old(trace) <= trace
      ensures id in state.checks <==> id in old(state).checks
      ensures id in state.checks ==> state.checks[id] == old(state).checks[id]
    {
      var others: seq<Action> := *;
      for i := 0 to |others|
        invariant Valid() && old(trace) <= trace
        invariant id in state.checks <==> id in old(state).checks
        invariant id in state.checks ==> state.checks[id] == old(state).checks[id]
      {
        var mine := (others[i].Incr? || others[i].Expire?) && others[i].id == id;
        if !mine { Perform(others[i]); }
      }
    }

    /** The verdict, or None when a call raised and the in-process limiter has to decide. */
    method CheckRedis(id: nat) returns (allowed: Option<bool>)
      requires Valid() && id !in state.checks
      modifies this
      ensures Valid() && old(trace) <= trace && id in state.checks
      ensures allowed == match state.checks[id]
                         case Lost => None
                         case Counted(_, _, _, Allowed) => Some(true)
                         case Counted(_, _, _, Refused) => Some(false)
                         case Counted(_, _, _, _) => None
      ensures state.checks[id].Counted? ==> state.checks[id].verdict != Expiring
    {
      Interfere(id);
      var fault: Fault := *;
      Perform(Incr(id, fault));
      if fault != Answered {
        return None;
      }
      var count := state.checks[id].count;
      if count == 1 {
        Interfere(id);
        fault := *;
        Perform(Expire(id, fault));
        if fault != Answered {
          return None;
        }
      }
      return Some(count <= limit);
    }
  }
}
