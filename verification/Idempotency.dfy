/**
 The Idempotency-Key protocol on one Redis key.

 Requests that carry the same key run concurrently against one Redis cell. Every
 Redis call is one atomic action, and every handler call is another; actions of
 different requests interleave freely. A Redis call may raise, before or after it
 took effect on the server, and the environment may expire the key or plant a
 foreign value under it.
 */
module Idempotency {
  import opened Core

  newtype byte = x: int | 0 <= x < 256

  /** UTF-8 with errors="replace" one way, and plain encoding the other way.
      Nothing is assumed of the pair: decoding may lose information. */
  datatype Codec = Codec(decode: seq<byte> -> string, encode: string -> seq<byte>)

  /** What the handler produced: possibly streamed body, possibly repeated headers, possibly work to do once the
      response is sent. */
  datatype RawResponse = RawResponse(status: int, headers: seq<(string, string)>, content: Content,
                                     background: Option<nat>)

  /** A body that has to be drained, or one at hand. */
  datatype Content = Streamed(chunks: seq<Chunk>) | Whole(body: seq<byte>)

  datatype Chunk = Bytes(bytes: seq<byte>) | Text(text: string)

  /** The snapshot kept in Redis. */
  datatype Captured = Captured(fingerprint: string, status: int, headers: map<string, string>, body: string)

  /** What a client receives. */
  datatype Reply = Reply(status: int, headers: map<string, string>, body: seq<byte>)

  const SKIPPED_HEADERS: set<string> := {"content-length", "transfer-encoding", "connection"}
  const REPLAY_HEADER := "idempotency-replayed"

  function ChunkBytes(codec: Codec, chunk: Chunk): seq<byte> {
    match chunk
    case Bytes(bytes) => bytes
    case Text(text) => codec.encode(text)
  }

  function Flatten(codec: Codec, chunks: seq<Chunk>): seq<byte> {
    if chunks == [] then []
    else Flatten(codec, chunks[..|chunks| - 1]) + ChunkBytes(codec, chunks[|chunks| - 1])
  }

  function BodyOf(codec: Codec, content: Content): seq<byte> {
    match content
    case Streamed(chunks) => Flatten(codec, chunks)
    case Whole(body) => body
  }

  /** The dict comprehension over header items: transport headers dropped, last value wins. */
  function KeptHeaders(items: seq<(string, string)>): map<string, string> {
    if items == [] then map[]
    else
      var kept := KeptHeaders(items[..|items| - 1]);
      var (name, value) := items[|items| - 1];
      if Lower(name) in SKIPPED_HEADERS then kept else kept[name := value]
  }

  function Capture(codec: Codec, raw: RawResponse, fingerprint: string): Captured {
    Captured(fingerprint, raw.status, KeptHeaders(raw.headers), codec.decode(BodyOf(codec, raw.content)))
  }

  function Rebuild(codec: Codec, c: Captured): Reply {
    Reply(c.status, c.headers, codec.encode(c.body))
  }

  function MarkReplayed(r: Reply): Reply {
    r.(headers := r.headers[REPLAY_HEADER := "true"])
  }

  /** The header at `i` is the last of its name. */
  ghost predicate LastOfName(items: seq<(string, string)>, i: nat) {
    i < |items| && forall j :: i < j < |items| ==> items[j].0 != items[i].0
  }

  lemma {:induction false} KeptWhenPresent(items: seq<(string, string)>, i: nat)
    requires i < |items| && Lower(items[i].0) !in SKIPPED_HEADERS
    ensures items[i].0 in KeptHeaders(items)
  {
    if i < |items| - 1 { KeptWhenPresent(items[..|items| - 1], i); }
  }

  lemma {:induction false} KeptIsLast(items: seq<(string, string)>, name: string) returns (i: nat)
    requires name in KeptHeaders(items)
    ensures LastOfName(items, i) && items[i] == (name, KeptHeaders(items)[name]) && Lower(name) !in SKIPPED_HEADERS
  {
    i := |items| - 1;
    if items[i].0 != name || Lower(name) in SKIPPED_HEADERS { i := KeptIsLast(items[..|items| - 1], name); }
  }

  /** A header survives capture iff it is not a transport header, with its last value. */
  lemma KeptHeadersAreTheLastValues(items: seq<(string, string)>, name: string)
    ensures name in KeptHeaders(items) <==>
        Lower(name) !in SKIPPED_HEADERS && exists i :: 0 <= i < |items| && items[i].0 == name
    ensures name in KeptHeaders(items) ==>
              exists i: nat :: LastOfName(items, i) && items[i] == (name, KeptHeaders(items)[name])
  {
    if name in KeptHeaders(items) {
      var i := KeptIsLast(items, name);
    }
    if i :| Lower(name) !in SKIPPED_HEADERS && 0 <= i < |items| && items[i].0 == name {
      KeptWhenPresent(items, i);
    }
  }

  /** Draining the body iterator chunk by chunk if there is one, then decoding once. */
  method CaptureResponse(codec: Codec, raw: RawResponse, fingerprint: string) returns (c: Captured)
    ensures c == Capture(codec, raw, fingerprint)
  {
    var body: seq<byte> := [];
    match raw.content {
      case Streamed(chunks) =>
        for i := 0 to |chunks|
          invariant body == Flatten(codec, chunks[..i])
        {
          assert chunks[..i + 1][..i] == chunks[..i];
          body := body + ChunkBytes(codec, chunks[i]);
        }
        assert chunks[..|chunks|] == chunks;
      case Whole(whole) =>
        body := whole;
    }
    c := Captured(fingerprint, raw.status, KeptHeaders(raw.headers), codec.decode(body));
  }

  // ---------------------------------------------------------------- state

  /** The value of the Redis key, as `_handle_existing` distinguishes it: the legacy sentinel, text that is not
      JSON, JSON that is not an object, an object with a status code that cannot be rebuilt into a response
      because headers or body are missing or malformed, and an object with a whole snapshot or no status code. */
  datatype Stored =
    | Legacy
    | NotJson
    | NotObject
    | Unusable(fingerprint: string, inProgress: bool)
    | Payload(fingerprint: string, inProgress: bool, snapshot: Option<Captured>)

  datatype Outcome =
    | Own(reply: Reply, background: Option<nat>) // executed under a claim
    | PassedThrough(raw: RawResponse) // executed unguarded because Redis failed
    | Replayed(reply: Reply)
    | Conflict
    | HandlerError
    | ReplayError                   // reading the stored value raised

  /** Where a request stands; `second` tells the two `_handle_existing` calls apart. */
  datatype Pc =
    | Claiming
    | Reading(second: bool)
    | Deleting(second: bool)
    | Reclaiming
    | Invoking(claimed: bool)
    | Storing(captured: Captured, background: Option<nat>)
    | Finished(outcome: Outcome)

  datatype Request = Request(fingerprint: string, pc: Pc)

  /** History counters; no action reads them. */
  datatype Tally = Tally(
    claims: nat, acknowledged: nat, revivals: nat, plants: nat,
    expiries: nat, deletes: nat, failOpens: nat, executions: nat)

  datatype World = World(
    cell: Option<Stored>,
    requests: map<nat, Request>,
    answers: map<nat, RawResponse>, // what the handler returned to each request
    tally: Tally)

  /** A Redis call is answered, or raises without effect, or raises although it took effect. */
  datatype Fault = Answered | LostBefore | LostAfter

  datatype Action =
    | Arrive(id: nat, fingerprint: string)
    | Redis(id: nat, fault: Fault)
    | Handler(id: nat, raw: Option<RawResponse>) // None: the handler raised
    | Expire
    | Plant(value: Stored)

  function Start(): World { World(None, map[], map[], Tally(0, 0, 0, 0, 0, 0, 0, 0)) }

  predicate AtRedis(pc: Pc) { !pc.Invoking? && !pc.Finished? }

  predicate Enabled(w: World, a: Action) {
    match a
    case Arrive(id, fp) => id !in w.requests && |fp| == 64 // a SHA-256 hex digest
    case Redis(id, _) => id in w.requests && AtRedis(w.requests[id].pc)
    case Handler(id, _) => id in w.requests && w.requests[id].pc.Invoking?
    case Expire => w.cell.Some?
    case Plant(_) => true
  }

  function Move(w: World, id: nat, pc: Pc): World
    requires id in w.requests
  {
    w.(requests := w.requests[id := w.requests[id].(pc := pc)])
  }

  /** The key can be reclaimed: after the first look try again, after the second give up. */
  function Unresolved(second: bool): Pc {
    if second then Finished(Conflict) else Reclaiming
  }

  /** The decision `_handle_existing` takes on a value it managed to read. */
  function Inspect(codec: Codec, cell: Option<Stored>, fingerprint: string, second: bool): Pc {
    match cell
    case None => Unresolved(second)
    case Some(Legacy) => Finished(Conflict)
    case Some(NotJson) => Deleting(second)
    case Some(NotObject) => Finished(ReplayError)
    case Some(Unusable(fp, inProgress)) =>
      if (fp != "" && fp != fingerprint) || inProgress then Finished(Conflict) else Finished(ReplayError)
    case Some(Payload(fp, inProgress, snapshot)) =>
      if fp != "" && fp != fingerprint then Finished(Conflict)
      else if inProgress then Finished(Conflict)
      else if snapshot.None? then Deleting(second)
      else Finished(Replayed(MarkReplayed(Rebuild(codec, snapshot.value))))
  }

  /** What the call does to Redis: SET NX, GET, DEL or the final SET. */
  function Effect(w: World, id: nat, fault: Fault): World
    requires id in w.requests && AtRedis(w.requests[id].pc)
  {
    var r := w.requests[id];
    var t := w.tally;
    match r.pc
    case Claiming =>
      var w' := SetNx(w, r.fingerprint, fault);
      if fault != Answered then w'.(tally := w'.tally.(failOpens := t.failOpens + 1)) else w'
    case Reading(_) => w
    case Deleting(_) =>
      if fault != LostBefore && w.cell.Some? then w.(cell := None, tally := t.(deletes := t.deletes + 1)) else w
    case Reclaiming => SetNx(w, r.fingerprint, fault)
    case Storing(c, _) =>
      if fault == LostBefore then w
      else w.(cell := Some(Payload(c.fingerprint, false, Some(c))),
              tally := t.(revivals := t.revivals + if w.cell.None? then 1 else 0))
  }

  function SetNx(w: World, fingerprint: string, fault: Fault): World {
    var t := w.tally;
    if fault == LostBefore || w.cell.Some? then w
    else w.(cell := Some(Payload(fingerprint, true, None)),
            tally := t.(claims := t.claims + 1,
                        acknowledged := t.acknowledged + if fault == Answered then 1 else 0))
  }

  /** Where the request goes after the call. */
  function After(codec: Codec, w: World, id: nat, fault: Fault): Pc
    requires id in w.requests && AtRedis(w.requests[id].pc)
  {
    var r := w.requests[id];
    match r.pc
    case Claiming =>
      if fault != Answered then Invoking(false) else if w.cell.None? then Invoking(true) else Reading(false)
    case Reading(second) =>
      if fault != Answered then Unresolved(second) else Inspect(codec, w.cell, r.fingerprint, second)
    case Deleting(second) => Unresolved(second)
    case Reclaiming =>
      if fault != Answered then Finished(Conflict) else if w.cell.None? then Invoking(true) else Reading(true)
    case Storing(c, background) => Finished(Own(Rebuild(codec, c), background))
  }

  function RedisCall(codec: Codec, w: World, id: nat, fault: Fault): World
    requires id in w.requests && AtRedis(w.requests[id].pc)
  {
    Move(Effect(w, id, fault), id, After(codec, w, id, fault))
  }

  function HandlerCall(codec: Codec, w: World, id: nat, raw: Option<RawResponse>): World
    requires id in w.requests && w.requests[id].pc.Invoking?
  {
    var r := w.requests[id];
    var w' := w.(tally := w.tally.(executions := w.tally.executions + 1));
    match raw
    case None => Move(w', id, Finished(HandlerError))
    case Some(response) =>
      Move(w'.(answers := w.answers[id := response]), id,
           if r.pc.claimed then Storing(Capture(codec, response, r.fingerprint), response.background)
           else Finished(PassedThrough(response)))
  }

  function Apply(codec: Codec, w: World, a: Action): World
    requires Enabled(w, a)
  {
    match a
    case Arrive(id, fp) => w.(requests := w.requests[id := Request(fp, Claiming)])
    case Redis(id, fault) => RedisCall(codec, w, id, fault)
    case Handler(id, raw) => HandlerCall(codec, w, id, raw)
    case Expire => w.(cell := None, tally := w.tally.(expiries := w.tally.expiries + 1))
    case Plant(value) =>
      w.(cell := Some(value), tally := w.tally.(plants := w.tally.plants + if w.cell.None? then 1 else 0))
  }

  /** An action that is not enabled leaves the world as it is, so any list of actions is a run. */
  function Next(codec: Codec, w: World, a: Action): World {
    if Enabled(w, a) then Apply(codec, w, a) else w
  }

  function Run(codec: Codec, w: World, acts: seq<Action>): World {
    if acts == [] then w
    else Next(codec, Run(codec, w, acts[..|acts| - 1]), acts[|acts| - 1])
  }

  lemma RunSnoc(codec: Codec, w: World, acts: seq<Action>, a: Action)
    ensures Run(codec, w, acts + [a]) == Next(codec, Run(codec, w, acts), a)
  {
    assert (acts + [a])[..|acts|] == acts;
  }

  // ---------------------------------------------------------------- accounting

  ghost function Pending(w: World): set<nat> {
    set id | id in w.requests && w.requests[id].pc.Invoking?
  }

  function Present(w: World): nat { if w.cell.Some? then 1 else 0 }

  function Removals(w: World): nat { w.tally.expiries + w.tally.deletes }

  /** Every execution is paid for by an acknowledged claim or a fail-open pass, and the
      key is created exactly once more often than it was removed, if it is present. */
  ghost predicate Balanced(w: World) {
    && w.tally.executions + |Pending(w)| == w.tally.acknowledged + w.tally.failOpens
    && w.tally.acknowledged <= w.tally.claims
    && w.tally.claims + w.tally.revivals + w.tally.plants == Removals(w) + Present(w)
  }

  predicate Ran(w: World, id: nat)
    requires id in w.requests
  {
    id in w.answers || w.requests[id].pc == Finished(HandlerError)
  }

  /** The requests whose handler was invoked. */
  ghost function Executed(w: World): set<nat> {
    set id | id in w.requests && Ran(w, id)
  }

  /** No request runs the handler twice: executions are counted by distinct requests. */
  ghost predicate ExecutedOnce(w: World) {
    && |Executed(w)| == w.tally.executions
    && forall id :: id in w.answers ==>
         id in w.requests
             && (w.requests[id].pc.Storing?
             || (w.requests[id].pc.Finished? && w.requests[id].pc.outcome != HandlerError))
  }

  ghost predicate Accounted(w: World) {
    Balanced(w) && ExecutedOnce(w)
  }

  /** A Redis call opens exactly one execution when it sends the request to the handler. */
  lemma EffectTally(codec: Codec, w: World, id: nat, fault: Fault)
    requires id in w.requests && AtRedis(w.requests[id].pc)
    ensures var e := Effect(w, id, fault);
            && e.tally.executions == w.tally.executions
            && e.tally.acknowledged + e.tally.failOpens
               == w.tally.acknowledged + w.tally.failOpens + (if After(codec, w, id, fault).Invoking? then 1 else 0)
            && e.tally.acknowledged - w.tally.acknowledged <= e.tally.claims - w.tally.claims
    ensures var e := Effect(w, id, fault);
            e.tally.claims + e.tally.revivals + e.tally.plants - Removals(e) - Present(e)
            == w.tally.claims + w.tally.revivals + w.tally.plants - Removals(w) - Present(w)
  {
  }

  lemma BalancedRedis(codec: Codec, w: World, id: nat, fault: Fault)
    requires Balanced(w) && id in w.requests && AtRedis(w.requests[id].pc)
    ensures Balanced(RedisCall(codec, w, id, fault))
  {
    EffectTally(codec, w, id, fault);
    MovePending(Effect(w, id, fault), id, After(codec, w, id, fault));
    SamePending(w, Effect(w, id, fault));
  }

  lemma SamePending(w: World, w': World)
    requires w'.requests == w.requests
    ensures Pending(w') == Pending(w)
  {
  }

  lemma MovePending(w: World, id: nat, pc: Pc)
    requires id in w.requests && !w.requests[id].pc.Invoking?
    ensures |Pending(Move(w, id, pc))| == |Pending(w)| + if pc.Invoking? then 1 else 0
  {
    assert id !in Pending(w);
    assert Pending(Move(w, id, pc)) == if pc.Invoking? then Pending(w) + {id} else Pending(w);
  }

  lemma ExecutedOnceRedis(codec: Codec, w: World, id: nat, fault: Fault)
    requires ExecutedOnce(w) && id in w.requests && AtRedis(w.requests[id].pc)
    ensures ExecutedOnce(RedisCall(codec, w, id, fault))
  {
    var w' := RedisCall(codec, w, id, fault);
    var pc' := w'.requests[id].pc;
    assert w'.answers == w.answers && w'.tally.executions == w.tally.executions;
    assert pc' != Finished(HandlerError);
    assert w'.requests == w.requests[id := w.requests[id].(pc := pc')];
    assert Executed(w') == Executed(w);
  }

  lemma AccountedHandler(codec: Codec, w: World, id: nat, raw: Option<RawResponse>)
    requires Accounted(w) && id in w.requests && w.requests[id].pc.Invoking?
    ensures Accounted(HandlerCall(codec, w, id, raw))
  {
    var w' := HandlerCall(codec, w, id, raw);
    assert id in Pending(w) && id !in w.answers && id !in Executed(w);
    assert Pending(w') == Pending(w) - {id};
    assert Executed(w') == Executed(w) + {id};
  }

  lemma AccountedStep(codec: Codec, w: World, a: Action)
    requires Accounted(w)
    ensures Accounted(Next(codec, w, a))
  {
    if Enabled(w, a) {
      match a
      case Redis(id, fault) => BalancedRedis(codec, w, id, fault); ExecutedOnceRedis(codec, w, id, fault);
      case Handler(id, raw) => AccountedHandler(codec, w, id, raw);
      case _ => assert Pending(Apply(codec, w, a)) == Pending(w); assert Executed(Apply(codec, w, a)) == Executed(w);
    }
  }

  lemma NobodyPending(w: World)
    requires forall id :: id !in w.requests
    ensures Pending(w) == {} && |Pending(w)| == 0
  {
    assert forall id :: id !in Pending(w);
  }

  lemma NobodyExecuted(w: World)
    requires forall id :: id !in w.requests
    ensures Executed(w) == {} && |Executed(w)| == 0
  {
    assert forall id :: id !in Executed(w);
  }

  lemma AllIsCounted(w: World)
    requires |Pending(w)| == 0 && |Executed(w)| == 0 && w.cell.None?
    requires w.tally == Tally(0, 0, 0, 0, 0, 0, 0, 0) && forall id :: id !in w.answers
    ensures Accounted(w)
  {
  }

  lemma InitAccounted()
    ensures Accounted(Start())
  {
    NobodyPending(Start());
    NobodyExecuted(Start());
    AllIsCounted(Start());
  }

  lemma {:induction false} RunsAreAccounted(codec: Codec, acts: seq<Action>)
    ensures Accounted(Run(codec, Start(), acts))
  {
    if acts == [] {
      InitAccounted();
    } else {
      var before := Run(codec, Start(), acts[..|acts| - 1]);
      RunsAreAccounted(codec, acts[..|acts| - 1]);
      AccountedStep(codec, before, acts[|acts| - 1]);
    }
  }

  /** However the requests interleave and whatever Redis does, executions are covered by
      acknowledged claims and fail-open passes, and claims by removals of the key. */
  lemma ExecutionsAreBounded(codec: Codec, acts: seq<Action>)
    ensures var t := Run(codec, Start(), acts).tally;
            && t.executions <= t.acknowledged + t.failOpens
            && t.acknowledged <= t.claims <= t.expiries + t.deletes + 1
            && (t.expiries == t.deletes == t.failOpens == 0 ==> t.executions <= 1)
    ensures var w := Run(codec, Start(), acts);
            Pending(w) == {} ==> w.tally.executions == w.tally.acknowledged + w.tally.failOpens
  {
    RunsAreAccounted(codec, acts);
  }

  // ---------------------------------------------------------------- provenance

  function OwnReply(codec: Codec, w: World, q: nat): Reply
    requires q in w.requests && q in w.answers
  {
    Rebuild(codec, Capture(codec, w.answers[q], w.requests[q].fingerprint))
  }

  /** `q` executed under a claim with this fingerprint, and `reply` is what its own caller got. */
  ghost predicate Answers(codec: Codec, w: World, q: nat, fingerprint: string, reply: Reply) {
    && q in w.requests && q in w.answers
    && w.requests[q] == Request(fingerprint, Finished(Own(reply, w.answers[q].background)))
    && reply == OwnReply(codec, w, q)
  }

  ghost predicate CellExplained(codec: Codec, w: World) {
    w.cell.Some? ==>
      && w.cell.value.Payload? && |w.cell.value.fingerprint| == 64
      && (w.cell.value.inProgress <==> w.cell.value.snapshot.None?)
      && (w.cell.value.snapshot.Some? ==>
            exists q :: Answers(codec, w, q, w.cell.value.fingerprint, Rebuild(codec, w.cell.value.snapshot.value)))
  }

  ghost predicate RequestExplained(codec: Codec, w: World, id: nat)
    requires id in w.requests
  {
    var r := w.requests[id];
    && |r.fingerprint| == 64
    && (r.pc.Storing? ==>
          id in w.answers && r.pc == Storing(Capture(codec, w.answers[id], r.fingerprint), w.answers[id].background))
    && !r.pc.Deleting?
    && (r.pc.Finished? ==>
          match r.pc.outcome
          case Own(reply, background) =>
            id in w.answers && reply == OwnReply(codec, w, id) && background == w.answers[id].background
          case PassedThrough(raw) => id in w.answers && raw == w.answers[id]
          case Replayed(reply) =>
            exists q, own :: Answers(codec, w, q, r.fingerprint, own) && reply == MarkReplayed(own)
          case ReplayError => false
          case _ => true)
  }

  ghost predicate Explained(codec: Codec, w: World) {
    && w.tally.deletes == 0 && w.tally.plants == 0
    && CellExplained(codec, w)
    && forall id :: id in w.requests ==> RequestExplained(codec, w, id)
  }

  /** A finished request keeps its outcome and its handler's answer whatever happens next. */
  lemma FinishedIsFinal(codec: Codec, w: World, a: Action, id: nat)
    requires id in w.requests && w.requests[id].pc.Finished?
    ensures var w' := Next(codec, w, a); id in w'.requests && w'.requests[id] == w.requests[id]
    ensures var w' := Next(codec, w, a);
            (id in w.answers <==> id in w'.answers) && (id in w.answers ==> w'.answers[id] == w.answers[id])
  {
  }

  lemma StaysAnswers(codec: Codec, w: World, a: Action)
    ensures forall q, fp, reply :: Answers(codec, w, q, fp, reply) ==> Answers(codec, Next(codec, w, a), q, fp, reply)
  {
    forall q, fp, reply | Answers(codec, w, q, fp, reply) ensures Answers(codec, Next(codec, w, a), q, fp, reply) {
      FinishedIsFinal(codec, w, a, q);
    }
  }

  lemma OthersStayExplained(codec: Codec, w: World, a: Action, id: nat)
    requires Explained(codec, w) && id in w.requests
    requires var w' := Next(codec, w, a);
             id in w'.requests && w'.requests[id] == w.requests[id]
             && (id in w.answers ==> id in w'.answers && w'.answers[id] == w.answers[id])
    ensures RequestExplained(codec, Next(codec, w, a), id)
  {
    StaysAnswers(codec, w, a);
    assert RequestExplained(codec, w, id);
  }

  lemma ActorStaysExplained(codec: Codec, w: World, a: Action, id: nat)
    requires Explained(codec, w) && id in w.requests && Enabled(w, a)
    requires (a.Redis? || a.Handler?) && a.id == id
    ensures RequestExplained(codec, Next(codec, w, a), id)
  {
    assert RequestExplained(codec, w, id);
    StaysAnswers(codec, w, a);
  }

  lemma CellStaysExplained(codec: Codec, w: World, a: Action)
    requires Explained(codec, w) && !a.Plant?
    ensures CellExplained(codec, Next(codec, w, a))
  {
    StaysAnswers(codec, w, a);
    if Enabled(w, a) && a.Redis? {
      assert RequestExplained(codec, w, a.id);
      var w' := Next(codec, w, a);
      if w.requests[a.id].pc.Storing? && a.fault != LostBefore {
        assert Answers(codec, w', a.id, w.requests[a.id].fingerprint, Rebuild(codec, w.requests[a.id].pc.captured));
      }
    }
  }

  lemma ExplainedStep(codec: Codec, w: World, a: Action)
    requires Explained(codec, w) && !a.Plant?
    ensures Explained(codec, Next(codec, w, a))
  {
    if Enabled(w, a) {
      var w' := Next(codec, w, a);
      CellStaysExplained(codec, w, a);
      forall id | id in w'.requests ensures RequestExplained(codec, w', id) {
        if (a.Redis? || a.Handler?) && a.id == id {
          ActorStaysExplained(codec, w, a, id);
        } else if id in w.requests {
          OthersStayExplained(codec, w, a, id);
        }
      }
      if a.Redis? { assert RequestExplained(codec, w, a.id); }
    }
  }

  /** Every value under the key was written by this middleware. */
  predicate Undisturbed(acts: seq<Action>) { forall i :: 0 <= i < |acts| ==> !acts[i].Plant? }

  lemma {:induction false} RunsAreExplained(codec: Codec, acts: seq<Action>)
    requires Undisturbed(acts)
    ensures Explained(codec, Run(codec, Start(), acts))
  {
    if acts != [] {
      var front := acts[..|acts| - 1];
      RunsAreExplained(codec, front);
      ExplainedStep(codec, Run(codec, Start(), front), acts[|acts| - 1]);
    }
  }

  /** Replay fidelity: a replayed response is, up to the replay header, exactly what some
      execution with the same fingerprint returned to its own caller. */
  lemma ReplayFidelity(codec: Codec, acts: seq<Action>, id: nat)
    requires Undisturbed(acts)
    requires var w := Run(codec, Start(), acts);
             id in w.requests && w.requests[id].pc.Finished? && w.requests[id].pc.outcome.Replayed?
    ensures var w := Run(codec, Start(), acts);
            exists q, own :: Answers(codec, w, q, w.requests[id].fingerprint, own)
                             && w.requests[id].pc.outcome.reply == MarkReplayed(own)
  {
    RunsAreExplained(codec, acts);
    assert RequestExplained(codec, Run(codec, Start(), acts), id);
  }

  /** Without expiry and fail-open: one request at most ever runs the handler; every other
      finished request was replayed that very answer, for the same body, or refused. */
  lemma OneExecutionServesAll(codec: Codec, acts: seq<Action>, q: nat, r: nat)
    requires Undisturbed(acts)
    requires var w := Run(codec, Start(), acts);
             && w.tally.expiries == 0 && w.tally.failOpens == 0
             && q in w.requests && Ran(w, q)
             && r in w.requests && r != q
    ensures var w := Run(codec, Start(), acts);
            && !Ran(w, r)
            && (w.requests[r].pc.Finished? ==>
                  || w.requests[r].pc.outcome == Conflict
                  || (&& w.requests[r].fingerprint == w.requests[q].fingerprint
                      && q in w.answers
                      && w.requests[q].pc == Finished(Own(OwnReply(codec, w, q), w.answers[q].background))
                      && w.requests[r].pc.outcome == Replayed(MarkReplayed(OwnReply(codec, w, q)))))
  {
    var w := Run(codec, Start(), acts);
    RunsAreAccounted(codec, acts);
    RunsAreExplained(codec, acts);
    assert RequestExplained(codec, w, r);
    assert q in Executed(w) && |Executed(w)| <= 1;
    assert Executed(w) == {q} by {
      assert |Executed(w) - {q}| == 0;
    }
    assert r !in Executed(w);
    if w.requests[r].pc.Finished? && w.requests[r].pc.outcome.Replayed? {
      var p, own :| Answers(codec, w, p, w.requests[r].fingerprint, own)
          && w.requests[r].pc.outcome.reply == MarkReplayed(own);
      assert p in Executed(w);
    }
  }

  /** A request whose body differs from the executed one never runs, and if it finishes, with 409. */
  lemma OtherBodyIsRefused(codec: Codec, acts: seq<Action>, q: nat, r: nat)
    requires Undisturbed(acts)
    requires var w := Run(codec, Start(), acts);
             && w.tally.expiries == 0 && w.tally.failOpens == 0
             && q in w.requests && Ran(w, q)
             && r in w.requests && w.requests[r].fingerprint != w.requests[q].fingerprint
    ensures var w := Run(codec, Start(), acts);
            !Ran(w, r) && (w.requests[r].pc.Finished? ==> w.requests[r].pc.outcome == Conflict)
  {
    OneExecutionServesAll(codec, acts, q, r);
  }

  // ---------------------------------------------------------------- retries and limits

  lemma Run3(codec: Codec, w: World, a: Action, b: Action, c: Action)
    ensures Run(codec, w, [a, b, c]) == Next(codec, Next(codec, Next(codec, w, a), b), c)
  {
    assert [a, b, c] == [] + [a] + [b] + [c];
    RunSnoc(codec, w, [], a);
    RunSnoc(codec, w, [a], b);
    RunSnoc(codec, w, [a, b], c);
  }

  lemma FirstRunStores(codec: Codec, w: World, id: nat, fingerprint: string, raw: RawResponse)
    requires w.cell.None? && |fingerprint| == 64 && id !in w.requests
    ensures var c := Capture(codec, raw, fingerprint);
            var w' := Next(codec,
                Run(codec, w, [Arrive(id, fingerprint), Redis(id, Answered), Handler(id, Some(raw))]),
                Redis(id, Answered));
            && w'.cell == Some(Payload(fingerprint, false, Some(c)))
            && w'.requests == w.requests[id := Request(fingerprint, Finished(Own(Rebuild(codec, c), raw.background)))]
            && w'.tally.executions == w.tally.executions + 1
  {
    Run3(codec, w, Arrive(id, fingerprint), Redis(id, Answered), Handler(id, Some(raw)));
    var w1 := Next(codec, w, Arrive(id, fingerprint));
    var w2 := Next(codec, w1, Redis(id, Answered));
    assert w2.requests == w.requests[id := Request(fingerprint, Invoking(true))];
    var w3 := Next(codec, w2, Handler(id, Some(raw)));
    var storing := Storing(Capture(codec, raw, fingerprint), raw.background);
    assert w3.requests == w.requests[id := Request(fingerprint, storing)];
  }

  lemma StoredAnswerReplays(codec: Codec, w: World, id: nat, fingerprint: string, c: Captured)
    requires w.cell == Some(Payload(fingerprint, false, Some(c))) && |fingerprint| == 64 && id !in w.requests
    ensures var w' := Run(codec, w, [Arrive(id, fingerprint), Redis(id, Answered), Redis(id, Answered)]);
            && w'.requests
                == w.requests[id := Request(fingerprint, Finished(Replayed(MarkReplayed(Rebuild(codec, c)))))]
            && w'.tally.executions == w.tally.executions && w'.cell == w.cell
  {
    Run3(codec, w, Arrive(id, fingerprint), Redis(id, Answered), Redis(id, Answered));
    var w1 := Next(codec, w, Arrive(id, fingerprint));
    var w2 := Next(codec, w1, Redis(id, Answered));
    assert w2.requests == w.requests[id := Request(fingerprint, Reading(false))];
  }

  /** The guarantee clients rely on: a first request that runs and stores, then a retry with the
      same body, with Redis answering: the retry gets the first reply and the handler is not run. */
  lemma RetryReplays(codec: Codec, w: World, first: nat, retry: nat, fingerprint: string, raw: RawResponse)
    requires w.cell.None? && |fingerprint| == 64
    requires first !in w.requests && retry !in w.requests && first != retry
    ensures var w1 := Next(codec,
        Run(codec, w, [Arrive(first, fingerprint), Redis(first, Answered), Handler(first, Some(raw))]),
        Redis(first, Answered));
            var w2 := Run(codec, w1, [Arrive(retry, fingerprint), Redis(retry, Answered), Redis(retry, Answered)]);
            var own := Rebuild(codec, Capture(codec, raw, fingerprint));
            && first in w2.requests && retry in w2.requests
            && w2.requests[first].pc == Finished(Own(own, raw.background))
            && w2.requests[retry].pc == Finished(Replayed(MarkReplayed(own)))
            && w2.tally.executions == w.tally.executions + 1
  {
    FirstRunStores(codec, w, first, fingerprint, raw);
    var w1 := Next(codec,
        Run(codec, w, [Arrive(first, fingerprint), Redis(first, Answered), Handler(first, Some(raw))]),
        Redis(first, Answered));
    StoredAnswerReplays(codec, w1, retry, fingerprint, Capture(codec, raw, fingerprint));
  }

  lemma RunTwo(codec: Codec, w: World, acts: seq<Action>, a: Action, b: Action) returns (longer: seq<Action>)
    ensures longer == acts + [a] + [b]
    ensures Run(codec, w, longer) == Next(codec, Next(codec, Run(codec, w, acts), a), b)
    ensures Undisturbed(acts) && !a.Plant? && !b.Plant? ==> Undisturbed(longer)
  {
    longer := acts + [a] + [b];
    RunSnoc(codec, w, acts, a);
    RunSnoc(codec, w, acts + [a], b);
  }

  /** A run that starts with some value already under the key. */
  function Holding(v: Stored): World { World(Some(v), map[], map[], Tally(0, 0, 0, 1, 0, 0, 0, 0)) }

  /** The values `_handle_existing` answers with DELETE: text that is not JSON, or an object that is
      neither in progress nor a response, for a request whose fingerprint it does not contradict. */
  predicate Reclaimable(v: Stored, fingerprint: string) {
    v.NotJson?
        || (v.Payload? && !v.inProgress && v.snapshot.None? && (v.fingerprint == "" || v.fingerprint == fingerprint))
  }

  /** No request, whatever its body, would reclaim the value. */
  ghost predicate NeverReclaimable(v: Stored) {
    forall fp | |fp| == 64 :: !Reclaimable(v, fp)
  }

  ghost predicate TwoAt(w: World, fp: string, cell: Option<Stored>, pc1: Pc, pc2: Pc) {
    w.cell == cell && w.requests == map[1 := Request(fp, pc1), 2 := Request(fp, pc2)]
  }

  lemma BothReadCorrupt(codec: Codec, w: World, fp: string, v: Stored)
    requires TwoAt(w, fp, Some(v), Claiming, Claiming) && Reclaimable(v, fp)
    ensures var w' := Next(codec,
        Next(codec, Next(codec, Next(codec, w, Redis(1, Answered)), Redis(2, Answered)), Redis(1, Answered)),
        Redis(2, Answered));
            TwoAt(w', fp, Some(v), Deleting(false), Deleting(false)) && w'.tally == w.tally
  {
    var w1 := Next(codec, w, Redis(1, Answered));
    assert TwoAt(w1, fp, Some(v), Reading(false), Claiming);
    var w2 := Next(codec, w1, Redis(2, Answered));
    assert TwoAt(w2, fp, Some(v), Reading(false), Reading(false));
    var w3 := Next(codec, w2, Redis(1, Answered));
    assert TwoAt(w3, fp, Some(v), Deleting(false), Reading(false));
  }

  lemma SecondDeletesTheClaim(codec: Codec, w: World, fp: string)
    requires w.cell.Some? && TwoAt(w, fp, w.cell, Deleting(false), Deleting(false))
    ensures var w' := Next(codec,
        Next(codec, Next(codec, Next(codec, w, Redis(1, Answered)), Redis(1, Answered)), Redis(2, Answered)),
        Redis(2, Answered));
            && TwoAt(w', fp, Some(Payload(fp, true, None)), Invoking(true), Invoking(true))
            && w'.tally
                == w.tally.(claims := w.tally.claims + 2, acknowledged := w.tally.acknowledged + 2,
                deletes := w.tally.deletes + 2)
  {
    var w1 := Next(codec, w, Redis(1, Answered));
    assert TwoAt(w1, fp, None, Reclaiming, Deleting(false));
    var w2 := Next(codec, w1, Redis(1, Answered));
    assert TwoAt(w2, fp, Some(Payload(fp, true, None)), Invoking(true), Deleting(false));
    var w3 := Next(codec, w2, Redis(2, Answered));
    assert TwoAt(w3, fp, None, Invoking(true), Reclaiming);
  }

  lemma BothArrive(codec: Codec, v: Stored, fp: string)
    requires |fp| == 64
    ensures var w := Next(codec, Next(codec, Holding(v), Arrive(1, fp)), Arrive(2, fp));
            TwoAt(w, fp, Some(v), Claiming, Claiming) && w.tally == Holding(v).tally
  {
  }

  lemma BothRun(codec: Codec, w: World, fp: string, one: RawResponse, two: RawResponse)
    requires TwoAt(w, fp, w.cell, Invoking(true), Invoking(true))
    ensures var w' := Next(codec, Next(codec, w, Handler(1, Some(one))), Handler(2, Some(two)));
            && TwoAt(w', fp, w.cell, Storing(Capture(codec, one, fp), one.background),
                     Storing(Capture(codec, two, fp), two.background))
            && w'.tally == w.tally.(executions := w.tally.executions + 2)
  {
    assert TwoAt(Next(codec, w, Handler(1, Some(one))), fp, w.cell,
                 Storing(Capture(codec, one, fp), one.background), Invoking(true));
  }

  lemma BothStore(codec: Codec, w: World, fp: string, one: Pc, two: Pc)
    requires one.Storing? && two.Storing? && w.cell.Some? && TwoAt(w, fp, w.cell, one, two)
    ensures var w' := Next(codec, Next(codec, w, Redis(1, Answered)), Redis(2, Answered));
            && TwoAt(w', fp, Some(Payload(two.captured.fingerprint, false, Some(two.captured))),
                     Finished(Own(Rebuild(codec, one.captured), one.background)),
                     Finished(Own(Rebuild(codec, two.captured), two.background)))
            && w'.tally == w.tally
  {
    var w1 := Next(codec, w, Redis(1, Answered));
    assert TwoAt(w1, fp, Some(Payload(one.captured.fingerprint, false, Some(one.captured))),
                 Finished(Own(Rebuild(codec, one.captured), one.background)), two);
  }

  ghost predicate Quiet(codec: Codec, v: Stored, acts: seq<Action>) {
    var t := Run(codec, Holding(v), acts).tally;
    Undisturbed(acts) && t.expiries == 0 && t.failOpens == 0 && t.executions == 0
  }

  lemma StageArrive(codec: Codec, v: Stored, fp: string) returns (acts: seq<Action>)
    requires |fp| == 64
    ensures Quiet(codec, v, acts) && TwoAt(Run(codec, Holding(v), acts), fp, Some(v), Claiming, Claiming)
  {
    acts := RunTwo(codec, Holding(v), [], Arrive(1, fp), Arrive(2, fp));
    BothArrive(codec, v, fp);
  }

  lemma StageRead(codec: Codec, v: Stored, fp: string, before: seq<Action>) returns (acts: seq<Action>)
    requires Reclaimable(v, fp) && Quiet(codec, v, before)
    requires TwoAt(Run(codec, Holding(v), before), fp, Some(v), Claiming, Claiming)
    ensures Quiet(codec, v, acts) && TwoAt(Run(codec, Holding(v), acts), fp, Some(v), Deleting(false), Deleting(false))
  {
    BothReadCorrupt(codec, Run(codec, Holding(v), before), fp, v);
    acts := RunTwo(codec, Holding(v), before, Redis(1, Answered), Redis(2, Answered));
    acts := RunTwo(codec, Holding(v), acts, Redis(1, Answered), Redis(2, Answered));
  }

  lemma StageReclaim(codec: Codec, v: Stored, fp: string, before: seq<Action>) returns (acts: seq<Action>)
    requires Quiet(codec, v, before)
    requires TwoAt(Run(codec, Holding(v), before), fp, Some(v), Deleting(false), Deleting(false))
    ensures Quiet(codec, v, acts)
    ensures TwoAt(Run(codec, Holding(v), acts), fp, Some(Payload(fp, true, None)), Invoking(true), Invoking(true))
  {
    SecondDeletesTheClaim(codec, Run(codec, Holding(v), before), fp);
    acts := RunTwo(codec, Holding(v), before, Redis(1, Answered), Redis(1, Answered));
    acts := RunTwo(codec, Holding(v), acts, Redis(2, Answered), Redis(2, Answered));
  }

  /** Two requests that both read one reclaimable value both end up running the handler and answering their
      callers with what it returned: the second DELETE is unconditional and removes the first one's claim. */
  lemma ReclaimCanRunTwice(codec: Codec, v: Stored, fp: string, one: RawResponse, two: RawResponse)
    returns (acts: seq<Action>)
    requires |fp| == 64 && Reclaimable(v, fp)
    ensures Undisturbed(acts)
    ensures var w := Run(codec, Holding(v), acts);
            && w.tally.expiries == 0 && w.tally.failOpens == 0 && w.tally.executions == 2
            && TwoAt(w, fp, w.cell, Finished(Own(Rebuild(codec, Capture(codec, one, fp)), one.background)),
                     Finished(Own(Rebuild(codec, Capture(codec, two, fp)), two.background)))
  {
    acts := StageArrive(codec, v, fp);
    acts := StageRead(codec, v, fp, acts);
    acts := StageReclaim(codec, v, fp, acts);
    BothRun(codec, Run(codec, Holding(v), acts), fp, one, two);
    acts := RunTwo(codec, Holding(v), acts, Handler(1, Some(one)), Handler(2, Some(two)));
    BothStore(codec, Run(codec, Holding(v), acts), fp, Storing(Capture(codec, one, fp), one.background),
              Storing(Capture(codec, two, fp), two.background));
    acts := RunTwo(codec, Holding(v), acts, Redis(1, Answered), Redis(2, Answered));
  }

  ghost predicate Stuck(w: World, v: Stored) {
    && w.tally.executions == 0
    && w.cell == Some(v)
    && forall id :: id in w.requests ==>
         |w.requests[id].fingerprint| == 64 && !w.requests[id].pc.Deleting? && !w.requests[id].pc.Invoking?
             && !w.requests[id].pc.Storing?
  }

  lemma StuckStep(codec: Codec, w: World, v: Stored, a: Action)
    requires NeverReclaimable(v)
    requires Stuck(w, v) && !a.Plant?
    requires var t := Next(codec, w, a).tally; t.expiries == 0 && t.failOpens == 0
    ensures Stuck(Next(codec, w, a), v)
  {
  }

  lemma {:induction false} NotReclaimableNeverRuns(codec: Codec, v: Stored, acts: seq<Action>)
    requires NeverReclaimable(v)
    requires Undisturbed(acts)
    requires var t := Run(codec, Holding(v), acts).tally; t.expiries == 0 && t.failOpens == 0
    ensures Stuck(Run(codec, Holding(v), acts), v)
  {
    if acts != [] {
      var front := acts[..|acts| - 1];
      TallyGrows(codec, Run(codec, Holding(v), front), acts[|acts| - 1]);
      NotReclaimableNeverRuns(codec, v, front);
      StuckStep(codec, Run(codec, Holding(v), front), v, acts[|acts| - 1]);
    }
  }

  lemma TallyGrows(codec: Codec, w: World, a: Action)
    ensures Next(codec, w, a).tally.expiries >= w.tally.expiries
    ensures Next(codec, w, a).tally.failOpens >= w.tally.failOpens
  {
  }

  ghost predicate AtMostOnceFrom(codec: Codec, v: Stored) {
    forall acts | Undisturbed(acts) ::
      var t := Run(codec, Holding(v), acts).tally;
      t.expiries == 0 && t.failOpens == 0 ==> t.executions <= 1
  }

  /** A value left under the key keeps the at-most-once promise in every run without expiry and
      fail-open exactly when no request would reclaim it. */
  lemma AtMostOnceIffNotReclaimable(codec: Codec, v: Stored)
    ensures AtMostOnceFrom(codec, v) <==> NeverReclaimable(v)
  {
    if fp :| |fp| == 64 && Reclaimable(v, fp) {
      var empty := RawResponse(200, [], Whole([]), None);
      var acts := ReclaimCanRunTwice(codec, v, fp, empty, empty);
      assert Undisturbed(acts);
    } else {
      forall acts | Undisturbed(acts)
        ensures var t := Run(codec, Holding(v), acts).tally;
                t.expiries == 0 && t.failOpens == 0 ==> t.executions <= 1
      {
        var t := Run(codec, Holding(v), acts).tally;
        if t.expiries == 0 && t.failOpens == 0 { NotReclaimableNeverRuns(codec, v, acts); }
      }
    }
  }

  // ---------------------------------------------------------------- values planted at any moment

  /** The only foreign values of the run are some of these. */
  ghost predicate PlantsOnly(acts: seq<Action>, values: iset<Stored>) {
    forall i :: 0 <= i < |acts| && acts[i].Plant? ==> acts[i].value in values
  }

  /** No request is about to delete, and the key holds nothing that one would reclaim. */
  ghost predicate NothingToDelete(w: World) {
    && w.tally.deletes == 0
    && (w.cell.Some? ==> NeverReclaimable(w.cell.value))
    && forall id :: id in w.requests ==> |w.requests[id].fingerprint| == 64 && !w.requests[id].pc.Deleting?
  }

  /** What a call leaves under the key is what was there, nothing, or an entry nobody would reclaim. */
  lemma CallsLeaveNothingReclaimable(w: World, id: nat, fault: Fault)
    requires id in w.requests && AtRedis(w.requests[id].pc) && !w.requests[id].pc.Deleting?
    requires w.cell.Some? ==> NeverReclaimable(w.cell.value)
    ensures var e := Effect(w, id, fault);
            e.tally.deletes == w.tally.deletes && (e.cell.Some? ==> NeverReclaimable(e.cell.value))
  {
  }

  lemma ReadersDoNotDelete(codec: Codec, w: World, id: nat, fault: Fault)
    requires id in w.requests && AtRedis(w.requests[id].pc) && !w.requests[id].pc.Deleting?
    requires |w.requests[id].fingerprint| == 64 && (w.cell.Some? ==> NeverReclaimable(w.cell.value))
    ensures !After(codec, w, id, fault).Deleting?
  {
    if w.cell.Some? { assert !Reclaimable(w.cell.value, w.requests[id].fingerprint); }
  }

  lemma StillNothingToDelete(codec: Codec, w: World, a: Action)
    requires NothingToDelete(w) && (a.Plant? ==> NeverReclaimable(a.value))
    ensures NothingToDelete(Next(codec, w, a))
  {
    if Enabled(w, a) && a.Redis? {
      CallsLeaveNothingReclaimable(w, a.id, a.fault);
      ReadersDoNotDelete(codec, w, a.id, a.fault);
    }
  }

  lemma {:induction false} NeverAnythingToDelete(codec: Codec, acts: seq<Action>, values: iset<Stored>)
    requires PlantsOnly(acts, values) && forall v :: v in values ==> NeverReclaimable(v)
    ensures NothingToDelete(Run(codec, Start(), acts))
  {
    if acts != [] {
      var n := |acts| - 1;
      assert PlantsOnly(acts[..n], values);
      NeverAnythingToDelete(codec, acts[..n], values);
      StillNothingToDelete(codec, Run(codec, Start(), acts[..n]), acts[n]);
    }
  }

  lemma {:induction false} RunSplits(codec: Codec, w: World, xs: seq<Action>, ys: seq<Action>)
    ensures Run(codec, w, xs + ys) == Run(codec, Run(codec, w, xs), ys)
  {
    if ys == [] {
      assert xs + ys == xs;
    } else {
      RunSplits(codec, w, xs, ys[..|ys| - 1]);
      assert (xs + ys)[..|xs + ys| - 1] == xs + ys[..|ys| - 1];
    }
  }

  /** A value planted first leaves the world that holds it. */
  lemma PlantedFirst(codec: Codec, v: Stored, acts: seq<Action>)
    ensures Run(codec, Start(), [Plant(v)] + acts) == Run(codec, Holding(v), acts)
  {
    RunSnoc(codec, Start(), [], Plant(v));
    assert [] + [Plant(v)] == [Plant(v)];
    RunSplits(codec, Start(), [Plant(v)], acts);
  }

  /** At most one execution in every run from the start, without expiry and fail-open, that plants only these. */
  ghost predicate AtMostOnceWith(codec: Codec, values: iset<Stored>) {
    forall acts | PlantsOnly(acts, values) ::
      var t := Run(codec, Start(), acts).tally;
      t.expiries == 0 && t.failOpens == 0 ==> t.executions <= 1
  }

  /** Whatever foreign values may turn up under the key, and at whatever moments, at-most-once is kept in every run
      without expiry and fail-open exactly when no request would reclaim any of them. */
  lemma AtMostOnceIffNoneReclaimable(codec: Codec, values: iset<Stored>)
    ensures AtMostOnceWith(codec, values) <==> forall v :: v in values ==> NeverReclaimable(v)
  {
    if forall v :: v in values ==> NeverReclaimable(v) {
      forall acts | PlantsOnly(acts, values)
        ensures var t := Run(codec, Start(), acts).tally;
                t.expiries == 0 && t.failOpens == 0 ==> t.executions <= 1
      {
        NeverAnythingToDelete(codec, acts, values);
        RunsAreAccounted(codec, acts);
      }
    } else {
      var v :| v in values && !NeverReclaimable(v);
      ReclaimableBreaksIt(codec, values, v);
    }
  }

  lemma ReclaimableBreaksIt(codec: Codec, values: iset<Stored>, v: Stored)
    requires v in values && !NeverReclaimable(v)
    ensures !AtMostOnceWith(codec, values)
  {
    var fp :| |fp| == 64 && Reclaimable(v, fp);
    var empty := RawResponse(200, [], Whole([]), None);
    var acts := ReclaimCanRunTwice(codec, v, fp, empty, empty);
    PlantedFirst(codec, v, acts);
    assert PlantsOnly([Plant(v)] + acts, values);
  }
}
