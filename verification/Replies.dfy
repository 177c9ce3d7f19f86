/**
 What clients of the keyed endpoints receive, said of the handler's own responses: own replies, replays, and where
 a request goes that finds a value under its key or cannot reach Redis.
 */
module Replies {
  import opened Core
  import opened Idempotency

  // ---------------------------------------------------------------- what a faithful reply is

  /** A chunk on the wire. */
  ghost predicate Carries(codec: Codec, chunk: Chunk, piece: seq<byte>) {
    match chunk
    case Bytes(b) => piece == b
    case Text(t) => piece == codec.encode(t)
  }

  /** Between two cuts lies the `i`-th chunk. */
  ghost predicate PieceAt(codec: Codec, chunks: seq<Chunk>, bytes: seq<byte>, cuts: seq<nat>, i: nat)
    requires i < |chunks| && |cuts| == |chunks| + 1
  {
    cuts[i] <= cuts[i + 1] <= |bytes| && Carries(codec, chunks[i], bytes[cuts[i]..cuts[i + 1]])
  }

  /** The cuts at which a byte string falls into the chunks, one after the other. */
  ghost predicate CutsInto(codec: Codec, chunks: seq<Chunk>, bytes: seq<byte>, cuts: seq<nat>) {
    && |cuts| == |chunks| + 1 && cuts[0] == 0 && cuts[|chunks|] == |bytes|
    && forall i :: 0 <= i < |chunks| ==> PieceAt(codec, chunks, bytes, cuts, i)
  }

  /** The whole body of the answer. */
  ghost predicate IsBody(codec: Codec, content: Content, bytes: seq<byte>) {
    match content
    case Whole(body) => bytes == body
    case Streamed(chunks) => exists cuts :: CutsInto(codec, chunks, bytes, cuts)
  }

  predicate Transport(name: string) {
    Lower(name) == "content-length" || Lower(name) == "transfer-encoding" || Lower(name) == "connection"
  }

  /** The answer's status, its headers but for the transport ones, each with its last value, and its body as far as
      decoding and encoding it again preserves it. */
  ghost predicate Faithful(codec: Codec, raw: RawResponse, reply: Reply) {
    && reply.status == raw.status
    && (forall name :: name in reply.headers <==>
          !Transport(name) && exists i :: 0 <= i < |raw.headers| && raw.headers[i].0 == name)
    && (forall i: nat :: LastOfName(raw.headers, i) && raw.headers[i].0 in reply.headers ==>
          reply.headers[raw.headers[i].0] == raw.headers[i].1)
    && (exists bytes :: IsBody(codec, raw.content, bytes))
    && (forall bytes :: IsBody(codec, raw.content, bytes) ==> reply.body == codec.encode(codec.decode(bytes)))
  }

  // ---------------------------------------------------------------- the snapshot is faithful

  lemma CutFront(codec: Codec, chunks: seq<Chunk>, bytes: seq<byte>, cuts: seq<nat>)
    requires chunks != [] && CutsInto(codec, chunks, bytes, cuts)
    ensures var n := |chunks| - 1;
            cuts[n] <= |bytes| && CutsInto(codec, chunks[..n], bytes[..cuts[n]], cuts[..n + 1])
  {
    var n := |chunks| - 1;
    CutsAscend(codec, chunks, bytes, cuts, n);
    var frontChunks, frontBytes, frontCuts := chunks[..n], bytes[..cuts[n]], cuts[..n + 1];
    forall i | 0 <= i < n ensures PieceAt(codec, frontChunks, frontBytes, frontCuts, i) {
      assert PieceAt(codec, chunks, bytes, cuts, i);
      assert cuts[i + 1] <= cuts[n];
      assert frontBytes[cuts[i]..cuts[i + 1]] == bytes[cuts[i]..cuts[i + 1]];
    }
  }

  lemma {:induction false} CutsAscend(codec: Codec, chunks: seq<Chunk>, bytes: seq<byte>, cuts: seq<nat>, n: nat)
    requires CutsInto(codec, chunks, bytes, cuts) && n <= |chunks|
    ensures cuts[n] <= |bytes| && forall i :: 0 <= i <= n ==> cuts[i] <= cuts[n]
  {
    if n > 0 {
      CutsAscend(codec, chunks, bytes, cuts, n - 1);
      assert PieceAt(codec, chunks, bytes, cuts, n - 1);
    }
  }

  /** Whatever falls into the chunks is what draining them collects, */
  lemma {:induction false} OnlyOneBody(codec: Codec, chunks: seq<Chunk>, bytes: seq<byte>, cuts: seq<nat>)
    requires CutsInto(codec, chunks, bytes, cuts)
    ensures bytes == Flatten(codec, chunks)
  {
    if chunks != [] {
      var n := |chunks| - 1;
      CutFront(codec, chunks, bytes, cuts);
      OnlyOneBody(codec, chunks[..n], bytes[..cuts[n]], cuts[..n + 1]);
      LastPiece(codec, chunks, bytes, cuts);
    }
  }

  lemma LastPiece(codec: Codec, chunks: seq<Chunk>, bytes: seq<byte>, cuts: seq<nat>)
    requires chunks != [] && CutsInto(codec, chunks, bytes, cuts)
    ensures var n := |chunks| - 1;
            cuts[n] <= |bytes| && bytes == bytes[..cuts[n]] + ChunkBytes(codec, chunks[n])
  {
    var n := |chunks| - 1;
    assert PieceAt(codec, chunks, bytes, cuts, n);
    assert bytes == bytes[..cuts[n]] + bytes[cuts[n]..cuts[n + 1]];
  }

  /** and what draining collects does fall into them. */
  lemma {:induction false} DrainedFallsInto(codec: Codec, chunks: seq<Chunk>) returns (cuts: seq<nat>)
    ensures CutsInto(codec, chunks, Flatten(codec, chunks), cuts)
  {
    if chunks == [] {
      cuts := [0];
    } else {
      var n := |chunks| - 1;
      var front := DrainedFallsInto(codec, chunks[..n]);
      var bytes := Flatten(codec, chunks);
      cuts := front + [|bytes|];
      OneMorePiece(codec, chunks, Flatten(codec, chunks[..n]), front, ChunkBytes(codec, chunks[n]));
    }
  }

  lemma OneMorePiece(codec: Codec, chunks: seq<Chunk>, before: seq<byte>, front: seq<nat>, last: seq<byte>)
    requires chunks != [] && CutsInto(codec, chunks[..|chunks| - 1], before, front)
    requires Carries(codec, chunks[|chunks| - 1], last)
    ensures CutsInto(codec, chunks, before + last, front + [|before + last|])
  {
    var n := |chunks| - 1;
    var bytes := before + last;
    var cuts := front + [|bytes|];
    forall i | 0 <= i < |chunks| ensures PieceAt(codec, chunks, bytes, cuts, i) {
      if i < n {
        assert PieceAt(codec, chunks[..n], before, front, i);
        assert bytes[cuts[i]..cuts[i + 1]] == before[front[i]..front[i + 1]];
      } else {
        assert bytes[cuts[n]..cuts[n + 1]] == last;
      }
    }
  }

  lemma TheBody(codec: Codec, content: Content)
    ensures IsBody(codec, content, BodyOf(codec, content))
    ensures forall bytes :: IsBody(codec, content, bytes) ==> bytes == BodyOf(codec, content)
  {
    if content.Streamed? {
      var cuts := DrainedFallsInto(codec, content.chunks);
      forall bytes | IsBody(codec, content, bytes) ensures bytes == BodyOf(codec, content) {
        var its :| CutsInto(codec, content.chunks, bytes, its);
        OnlyOneBody(codec, content.chunks, bytes, its);
      }
    }
  }

  lemma HeadersAreFaithful(items: seq<(string, string)>)
    ensures forall name :: name in KeptHeaders(items) <==>
              !Transport(name) && exists i :: 0 <= i < |items| && items[i].0 == name
    ensures forall i: nat :: LastOfName(items, i) && items[i].0 in KeptHeaders(items) ==>
              KeptHeaders(items)[items[i].0] == items[i].1
  {
    forall name ensures name in KeptHeaders(items) <==>
              !Transport(name) && exists i :: 0 <= i < |items| && items[i].0 == name
    {
      KeptHeadersAreTheLastValues(items, name);
    }
    forall i: nat | LastOfName(items, i) && items[i].0 in KeptHeaders(items)
      ensures KeptHeaders(items)[items[i].0] == items[i].1
    {
      var j := KeptIsLast(items, items[i].0);
      assert i == j;
    }
  }

  lemma SnapshotIsFaithful(codec: Codec, raw: RawResponse, fingerprint: string)
    ensures Faithful(codec, raw, Rebuild(codec, Capture(codec, raw, fingerprint)))
  {
    HeadersAreFaithful(raw.headers);
    TheBody(codec, raw.content);
  }

  // ---------------------------------------------------------------- own replies

  /** Each request's state holds what its own handler returned, whatever is written under the key. */
  ghost predicate HoldsItsAnswer(codec: Codec, w: World, id: nat)
    requires id in w.requests
  {
    match w.requests[id].pc
    case Storing(c, background) =>
      && id in w.answers && c == Capture(codec, w.answers[id], w.requests[id].fingerprint)
      && background == w.answers[id].background
    case Finished(Own(reply, background)) =>
      && id in w.answers && reply == OwnReply(codec, w, id) && background == w.answers[id].background
    case Finished(PassedThrough(raw)) => id in w.answers && raw == w.answers[id]
    case _ => true
  }

  ghost predicate AllHoldTheirAnswers(codec: Codec, w: World) {
    forall id :: id in w.requests ==> HoldsItsAnswer(codec, w, id)
  }

  lemma StepKeepsAnswers(codec: Codec, w: World, a: Action)
    requires AllHoldTheirAnswers(codec, w)
    ensures AllHoldTheirAnswers(codec, Next(codec, w, a))
  {
    var w' := Next(codec, w, a);
    forall id | id in w'.requests ensures HoldsItsAnswer(codec, w', id) {
      if id in w.requests {
        assert HoldsItsAnswer(codec, w, id);
        if w'.requests[id] == w.requests[id] { BystandersKeepTheirs(codec, w, a, id); }
      }
    }
  }

  lemma BystandersKeepTheirs(codec: Codec, w: World, a: Action, id: nat)
    requires id in w.requests && HoldsItsAnswer(codec, w, id)
    requires id in Next(codec, w, a).requests && Next(codec, w, a).requests[id] == w.requests[id]
    ensures HoldsItsAnswer(codec, Next(codec, w, a), id)
  {
    if Enabled(w, a) && a.Handler? && a.id == id {
      assert w.requests[id].pc.Invoking?;
    }
  }

  lemma {:induction false} RunsKeepAnswers(codec: Codec, acts: seq<Action>)
    ensures AllHoldTheirAnswers(codec, Run(codec, Start(), acts))
  {
    if acts != [] {
      var n := |acts| - 1;
      RunsKeepAnswers(codec, acts[..n]);
      StepKeepsAnswers(codec, Run(codec, Start(), acts[..n]), acts[n]);
    }
  }

  /** In every run, with any faults and any foreign values: a request that ran under a claim gets its handler's own
      response faithfully, with the handler's background work, and byte for byte when its body survives decoding
      and encoding. */
  lemma OwnRepliesAreFaithful(codec: Codec, acts: seq<Action>, q: nat)
    requires var w := Run(codec, Start(), acts);
             q in w.requests && w.requests[q].pc.Finished? && w.requests[q].pc.outcome.Own?
    ensures var w := Run(codec, Start(), acts);
            var own := w.requests[q].pc.outcome;
            && q in w.answers && Faithful(codec, w.answers[q], own.reply)
            && own.background == w.answers[q].background
            && forall bytes ::
                 IsBody(codec, w.answers[q].content, bytes) && codec.encode(codec.decode(bytes)) == bytes ==>
                   own.reply.body == bytes
  {
    var w := Run(codec, Start(), acts);
    RunsKeepAnswers(codec, acts);
    assert HoldsItsAnswer(codec, w, q);
    SnapshotIsFaithful(codec, w.answers[q], w.requests[q].fingerprint);
  }

  /** A request that ran unguarded gets its handler's response untouched. */
  lemma PassedThroughIsUntouched(codec: Codec, acts: seq<Action>, q: nat)
    requires var w := Run(codec, Start(), acts);
             q in w.requests && w.requests[q].pc.Finished? && w.requests[q].pc.outcome.PassedThrough?
    ensures var w := Run(codec, Start(), acts);
            q in w.answers && w.requests[q].pc.outcome.raw == w.answers[q]
  {
    RunsKeepAnswers(codec, acts);
    assert HoldsItsAnswer(codec, Run(codec, Start(), acts), q);
  }

  // ---------------------------------------------------------------- replays

  /** The same reply, but for the header that marks a replay. */
  ghost predicate MarkedCopy(own: Reply, replay: Reply) {
    && replay.status == own.status && replay.body == own.body
    && "idempotency-replayed" in replay.headers && replay.headers["idempotency-replayed"] == "true"
    && forall name :: name != "idempotency-replayed" ==>
         (name in replay.headers <==> name in own.headers)
         && (name in own.headers ==> replay.headers[name] == own.headers[name])
  }

  /** The source of a replay: a finished execution with the same fingerprint, whose caller got the reply that the
      replay copies. */
  ghost predicate CopiedFrom(codec: Codec, w: World, q: nat, fingerprint: string, replay: Reply) {
    && q in w.requests && q in w.answers && w.requests[q].fingerprint == fingerprint
    && w.requests[q].pc.Finished? && w.requests[q].pc.outcome.Own?
    && Faithful(codec, w.answers[q], w.requests[q].pc.outcome.reply)
    && MarkedCopy(w.requests[q].pc.outcome.reply, replay)
  }

  /** In every run in which only this middleware writes entries, a replay is a marked copy of the faithful reply that
      some execution with the same fingerprint gave its own caller. */
  lemma ReplaysAreFaithful(codec: Codec, acts: seq<Action>, id: nat)
    requires Undisturbed(acts)
    requires var w := Run(codec, Start(), acts);
             id in w.requests && w.requests[id].pc.Finished? && w.requests[id].pc.outcome.Replayed?
    ensures var w := Run(codec, Start(), acts);
            exists q :: CopiedFrom(codec, w, q, w.requests[id].fingerprint, w.requests[id].pc.outcome.reply)
  {
    var w := Run(codec, Start(), acts);
    ReplayFidelity(codec, acts, id);
    var q, own :| Answers(codec, w, q, w.requests[id].fingerprint, own)
                  && w.requests[id].pc.outcome.reply == MarkReplayed(own);
    OwnRepliesAreFaithful(codec, acts, q);
    assert CopiedFrom(codec, w, q, w.requests[id].fingerprint, w.requests[id].pc.outcome.reply);
  }

  // ---------------------------------------------------------------- where a request goes

  /** The fingerprint of an entry does not contradict the request's. */
  predicate Agrees(entry: string, fingerprint: string) { entry == "" || entry == fingerprint }

  lemma Run5(codec: Codec, w: World, a: Action, b: Action, c: Action, d: Action, e: Action)
    ensures Run(codec, w, [a, b, c, d, e])
            == Next(codec, Next(codec, Next(codec, Next(codec, Next(codec, w, a), b), c), d), e)
  {
    Run3(codec, w, a, b, c);
    RunSnoc(codec, w, [a, b, c], d);
    RunSnoc(codec, w, [a, b, c, d], e);
    assert [a, b, c] + [d] == [a, b, c, d] && [a, b, c, d] + [e] == [a, b, c, d, e];
  }

  /** Four answered Redis calls take a request that nobody disturbs to the handler or to its answer. */
  function Undisputed(codec: Codec, w: World, id: nat, fingerprint: string): World {
    Run(codec, w, [Arrive(id, fingerprint), Redis(id, Answered), Redis(id, Answered), Redis(id, Answered),
                   Redis(id, Answered)])
  }

  /** With Redis answering and nobody else at work: a request reaches the handler under a claim exactly when its key
      is free or holds text that is not JSON or an object without progress mark and status code that agrees with it;
      it is replayed exactly from a whole snapshot that agrees; values that are not objects or cannot be rebuilt
      raise; everything else is refused with 409. */
  lemma UndisputedOutcome(codec: Codec, w: World, id: nat, fingerprint: string)
    requires id !in w.requests && |fingerprint| == 64
    ensures var w' := Undisputed(codec, w, id, fingerprint);
            && id in w'.requests && w'.requests[id].fingerprint == fingerprint
            && match w.cell
               case None => w'.requests[id].pc == Invoking(true)
               case Some(Legacy) => w'.requests[id].pc == Finished(Conflict)
               case Some(NotJson) => w'.requests[id].pc == Invoking(true)
               case Some(NotObject) => w'.requests[id].pc == Finished(ReplayError)
               case Some(Unusable(fp, inProgress)) =>
                 w'.requests[id].pc
                 == if Agrees(fp, fingerprint) && !inProgress then Finished(ReplayError) else Finished(Conflict)
               case Some(Payload(fp, inProgress, snapshot)) =>
                 if !Agrees(fp, fingerprint) || inProgress then w'.requests[id].pc == Finished(Conflict)
                 else if snapshot.None? then w'.requests[id].pc == Invoking(true)
                 else
                   var c := snapshot.value;
                   && w'.requests[id].pc.Finished? && w'.requests[id].pc.outcome.Replayed?
                   && MarkedCopy(Reply(c.status, c.headers, codec.encode(c.body)), w'.requests[id].pc.outcome.reply)
  {
    Run5(codec, w, Arrive(id, fingerprint), Redis(id, Answered), Redis(id, Answered), Redis(id, Answered),
         Redis(id, Answered));
    var w1 := Next(codec, w, Arrive(id, fingerprint));
    var w2 := Next(codec, w1, Redis(id, Answered));
    if w.cell.Some? {
      assert w2.requests[id].pc == Reading(false) && w2.cell == w.cell;
      var w3 := Next(codec, w2, Redis(id, Answered));
      if w3.requests[id].pc.Deleting? {
        var w4 := Next(codec, w3, Redis(id, Answered));
        assert w4.requests[id].pc == Reclaiming && w4.cell == None;
      }
    }
  }

  /** Redis failing on the claim never stops a request: it runs unguarded and its caller gets the handler's response. */
  lemma ClaimFailureFailsOpen(codec: Codec, w: World, id: nat, fingerprint: string, fault: Fault, raw: RawResponse)
    requires id !in w.requests && |fingerprint| == 64 && fault != Answered
    ensures var w' := Run(codec, w, [Arrive(id, fingerprint), Redis(id, fault), Handler(id, Some(raw))]);
            && id in w'.requests && w'.requests[id].pc == Finished(PassedThrough(raw))
            && w'.tally.executions == w.tally.executions + 1
  {
    Run3(codec, w, Arrive(id, fingerprint), Redis(id, fault), Handler(id, Some(raw)));
    var w1 := Next(codec, w, Arrive(id, fingerprint));
    var w2 := Next(codec, w1, Redis(id, fault));
    assert w2.requests[id].pc == Invoking(false);
  }

  /** But once a claim was answered with "taken", failures refuse: a request that cannot read the value tries the
      claim again, and a failure of that, or of the second read, is a 409. */
  lemma LaterFailuresRefuse(codec: Codec, w: World, id: nat, fingerprint: string, read: Fault, claim: Fault)
    requires id !in w.requests && |fingerprint| == 64 && w.cell.Some? && read != Answered
    ensures var w' := Run(codec, w, [Arrive(id, fingerprint), Redis(id, Answered), Redis(id, read), Redis(id, claim),
                                     Redis(id, read)]);
            && id in w'.requests && w'.requests[id].pc == Finished(Conflict)
            && w'.cell == w.cell && w'.tally.executions == w.tally.executions
  {
    Run5(codec, w, Arrive(id, fingerprint), Redis(id, Answered), Redis(id, read), Redis(id, claim), Redis(id, read));
    var w1 := Next(codec, w, Arrive(id, fingerprint));
    var w2 := Next(codec, w1, Redis(id, Answered));
    assert w2.requests[id].pc == Reading(false) && w2.cell == w.cell;
    var w3 := Next(codec, w2, Redis(id, read));
    assert w3.requests[id].pc == Reclaiming && w3.cell == w.cell;
    var w4 := Next(codec, w3, Redis(id, claim));
    assert w4.requests[id].pc == if claim == Answered then Reading(true) else Finished(Conflict);
  }

  /** A key that vanishes before it is read is claimed. */
  lemma VanishedKeyIsClaimed(codec: Codec, w: World, id: nat, fingerprint: string)
    requires id !in w.requests && |fingerprint| == 64 && w.cell.Some?
    ensures var w' := Run(codec, w, [Arrive(id, fingerprint), Redis(id, Answered), Expire, Redis(id, Answered),
                                     Redis(id, Answered)]);
            && id in w'.requests && w'.requests[id].pc == Invoking(true)
            && w'.cell == Some(Payload(fingerprint, true, None))
  {
    Run5(codec, w, Arrive(id, fingerprint), Redis(id, Answered), Expire, Redis(id, Answered), Redis(id, Answered));
    var w1 := Next(codec, w, Arrive(id, fingerprint));
    var w2 := Next(codec, w1, Redis(id, Answered));
    assert w2.requests[id].pc == Reading(false);
    var w3 := Next(codec, w2, Expire);
    var w4 := Next(codec, w3, Redis(id, Answered));
    assert w4.requests[id].pc == Reclaiming && w4.cell == None;
  }

  // ---------------------------------------------------------------- what a lost reply leaves behind

  /** A claim that took effect although its reply was lost: the request runs unguarded, and until the key expires
      every later request is refused, whatever its body. */
  lemma LostClaimBlocks(codec: Codec, w: World, id: nat, later: nat, fingerprint: string, other: string,
                        raw: RawResponse)
    requires w.cell.None? && id != later && id !in w.requests && later !in w.requests
    requires |fingerprint| == 64 && |other| == 64
    ensures var ran := Run(codec, w, [Arrive(id, fingerprint), Redis(id, LostAfter), Handler(id, Some(raw))]);
            var w' := Undisputed(codec, ran, later, other);
            && id in ran.requests && ran.requests[id].pc == Finished(PassedThrough(raw))
            && later in w'.requests && w'.requests[later].pc == Finished(Conflict)
  {
    Run3(codec, w, Arrive(id, fingerprint), Redis(id, LostAfter), Handler(id, Some(raw)));
    var w1 := Next(codec, w, Arrive(id, fingerprint));
    var w2 := Next(codec, w1, Redis(id, LostAfter));
    assert w2.requests == w.requests[id := Request(fingerprint, Invoking(false))];
    var w3 := Next(codec, w2, Handler(id, Some(raw)));
    assert w3.requests == w.requests[id := Request(fingerprint, Finished(PassedThrough(raw)))];
    UndisputedOutcome(codec, w3, later, other);
  }

  /** A first request that runs under its claim and then calls the final SET with this fault. */
  function FirstRequest(codec: Codec, w: World, id: nat, fingerprint: string, raw: RawResponse, fault: Fault): World {
    Next(codec, Run(codec, w, [Arrive(id, fingerprint), Redis(id, Answered), Handler(id, Some(raw))]),
         Redis(id, fault))
  }

  lemma FirstRequestOutcome(codec: Codec, w: World, id: nat, fingerprint: string, raw: RawResponse, fault: Fault)
    requires w.cell.None? && |fingerprint| == 64 && id !in w.requests
    ensures var w' := FirstRequest(codec, w, id, fingerprint, raw, fault);
            var c := Capture(codec, raw, fingerprint);
            && w'.requests == w.requests[id := Request(fingerprint, Finished(Own(Rebuild(codec, c), raw.background)))]
            && w'.cell == Some(if fault == LostBefore then Payload(fingerprint, true, None)
                               else Payload(fingerprint, false, Some(c)))
  {
    Run3(codec, w, Arrive(id, fingerprint), Redis(id, Answered), Handler(id, Some(raw)));
    var w1 := Next(codec, w, Arrive(id, fingerprint));
    var w2 := Next(codec, w1, Redis(id, Answered));
    assert w2.requests == w.requests[id := Request(fingerprint, Invoking(true))];
    var w3 := Next(codec, w2, Handler(id, Some(raw)));
    var storing := Storing(Capture(codec, raw, fingerprint), raw.background);
    assert w3.requests == w.requests[id := Request(fingerprint, storing)];
  }

  /** Whatever becomes of the final SET, its caller gets the handler's response. A retry with the same body is
      replayed that reply if the SET took effect, answered or not, and refused if it did not. */
  lemma StoreFaultsDecideRetries(codec: Codec, w: World, first: nat, retry: nat, fingerprint: string,
                                 raw: RawResponse, fault: Fault)
    requires w.cell.None? && |fingerprint| == 64 && first != retry && first !in w.requests && retry !in w.requests
    ensures var ran := FirstRequest(codec, w, first, fingerprint, raw, fault);
            var w' := Undisputed(codec, ran, retry, fingerprint);
            && first in ran.requests && ran.requests[first].pc.Finished? && ran.requests[first].pc.outcome.Own?
            && Faithful(codec, raw, ran.requests[first].pc.outcome.reply)
            && retry in w'.requests && w'.requests[retry].pc.Finished?
            && match w'.requests[retry].pc.outcome
               case Replayed(reply) => fault != LostBefore && MarkedCopy(ran.requests[first].pc.outcome.reply, reply)
               case Conflict => fault == LostBefore
               case _ => false
  {
    FirstRequestOutcome(codec, w, first, fingerprint, raw, fault);
    SnapshotIsFaithful(codec, raw, fingerprint);
    UndisputedOutcome(codec, FirstRequest(codec, w, first, fingerprint, raw, fault), retry, fingerprint);
  }

  /** A value that is not JSON is deleted and the key claimed if the DELETE took effect, answered or not; if it did
      not, the value is looked at once more. */
  lemma DeleteFaultsDecideClaims(codec: Codec, w: World, id: nat, fingerprint: string, fault: Fault)
    requires w.cell == Some(NotJson) && |fingerprint| == 64 && id !in w.requests
    ensures var w' := Run(codec, w, [Arrive(id, fingerprint), Redis(id, Answered), Redis(id, Answered),
                                     Redis(id, fault), Redis(id, Answered)]);
            && id in w'.requests
            && if fault == LostBefore then w'.requests[id].pc == Reading(true) && w'.cell == w.cell
               else w'.requests[id].pc == Invoking(true) && w'.cell == Some(Payload(fingerprint, true, None))
  {
    Run5(codec, w, Arrive(id, fingerprint), Redis(id, Answered), Redis(id, Answered), Redis(id, fault),
         Redis(id, Answered));
    var w1 := Next(codec, w, Arrive(id, fingerprint));
    var w2 := Next(codec, w1, Redis(id, Answered));
    assert w2.requests[id].pc == Reading(false) && w2.cell == w.cell;
    var w3 := Next(codec, w2, Redis(id, Answered));
    assert w3.requests[id].pc == Deleting(false) && w3.cell == w.cell;
    var w4 := Next(codec, w3, Redis(id, fault));
    assert w4.requests[id].pc == Reclaiming && w4.cell == if fault == LostBefore then w.cell else None;
  }
}
