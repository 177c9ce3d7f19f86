/**
 `IdempotencyMiddleware.dispatch` as code, against a shared world that other requests
 and the environment change between any two of its Redis and handler calls. Whatever
 they do, what the code does is a run of the protocol in `Idempotency`, so every
 theorem about runs is a theorem about this code.
 */
module IdempotencyDispatch {
  import opened Core
  import opened Idempotency

  /** The action is performed by, or creates, request `id`. */
  predicate By(a: Action, id: nat) {
    match a
    case Arrive(i, _) => i == id
    case Redis(i, _) => i == id
    case Handler(i, _) => i == id
    case _ => false
  }

  class Middleware {
    const codec: Codec
    var world: World
    ghost var trace: seq<Action>

    ghost predicate Valid()
      reads this
    {
      world == Run(codec, Start(), trace)
    }

    /** Request `id` is known, with this fingerprint, and stands at `pc`. */
    ghost predicate At(id: nat, fingerprint: string, pc: Pc)
      reads this
    {
      id in world.requests && world.requests[id] == Request(fingerprint, pc)
    }

    constructor (codec: Codec)
      ensures Valid() && world == Start() && this.codec == codec
    {
      this.codec := codec;
      world := Start();
      trace := [];
    }

    method Perform(a: Action)
      requires Valid()
      modifies this
      ensures Valid() && trace == old(trace) + [a]
      ensures world == Next(codec, old(world), a)
    {
      RunSnoc(codec, Start(), trace, a);
      world := Next(codec, world, a);
      trace := trace + [a];
    }

    /** Any number of steps of anyone but `id`. */
    method Interfere(id: nat, fingerprint: string, pc: Pc)
      requires Valid() && At(id, fingerprint, pc)
      modifies this
      ensures Valid() && At(id, fingerprint, pc) && old(trace) <= trace
    {
      var others: seq<Action> := *;
      for i := 0 to |others|
        invariant Valid() && At(id, fingerprint, pc) && old(trace) <= trace
      {
        if !By(others[i], id) { Perform(others[i]); }
      }
    }

    /** SET NX EX: None when the call raises, otherwise whether the claim succeeded. */
    method SetNx(id: nat, fingerprint: string, pc: Pc) returns (claimed: Option<bool>)
      requires Valid() && At(id, fingerprint, pc) && pc in {Claiming, Reclaiming}
      modifies this
      ensures Valid() && old(trace) <= trace
      ensures At(id, fingerprint,
                 match claimed
                 case None => if pc == Claiming then Invoking(false) else Finished(Conflict)
                 case Some(true) => Invoking(true)
                 case Some(false) => Reading(pc == Reclaiming))
    {
      Interfere(id, fingerprint, pc);
      var fault: Fault := *;
      claimed := if fault != Answered then None else Some(world.cell.None?);
      Perform(Redis(id, fault));
    }

    /** GET: None when the call raises. */
    method Get(id: nat, fingerprint: string, second: bool) returns (stored: Option<Option<Stored>>)
      requires Valid() && At(id, fingerprint, Reading(second))
      modifies this
      ensures Valid() && old(trace) <= trace
      ensures At(id, fingerprint, if stored.None? then Unresolved(second)
          else Inspect(codec, stored.value, fingerprint, second))
    {
      Interfere(id, fingerprint, Reading(second));
      var fault: Fault := *;
      stored := if fault != Answered then None else Some(world.cell);
      Perform(Redis(id, fault));
    }

    /** DELETE, whose failure the source swallows. */
    method Delete(id: nat, fingerprint: string, second: bool)
      requires Valid() && At(id, fingerprint, Deleting(second))
      modifies this
      ensures Valid() && old(trace) <= trace && At(id, fingerprint, Unresolved(second))
    {
      Interfere(id, fingerprint, Deleting(second));
      var fault: Fault := *;
      Perform(Redis(id, fault));
    }

    /** What the stored value leaves to do: an answer for the caller, or None to try the claim again. */
    method HandleExisting(id: nat, fingerprint: string, second: bool) returns (response: Option<Outcome>)
      requires Valid() && At(id, fingerprint, Reading(second))
      modifies this
      ensures Valid() && old(trace) <= trace
      ensures At(id, fingerprint, if response.Some? then Finished(response.value) else Unresolved(second))
    {
      var stored := Get(id, fingerprint, second);
      if stored.None? || stored.value.None? {
        return None;
      }
      match stored.value.value
      case Legacy =>
        return Some(Conflict);
      case NotJson =>
        Delete(id, fingerprint, second);
        return None;
      case NotObject =>
        return Some(ReplayError);
      case Unusable(storedFp, inProgress) =>
        if storedFp != "" && storedFp != fingerprint {
          return Some(Conflict);
        }
        if inProgress {
          return Some(Conflict);
        }
        return Some(ReplayError);
      case Payload(storedFp, inProgress, snapshot) =>
        if storedFp != "" && storedFp != fingerprint {
          return Some(Conflict);
        }
        if inProgress {
          return Some(Conflict);
        }
        if snapshot.None? {
          Delete(id, fingerprint, second);
          return None;
        }
        return Some(Replayed(MarkReplayed(Rebuild(codec, snapshot.value))));
    }

    /** Running the route: None when it raises. */
    method CallNext(id: nat, fingerprint: string, claimed: bool) returns (raw: Option<RawResponse>)
      requires Valid() && At(id, fingerprint, Invoking(claimed))
      modifies this
      ensures Valid() && old(trace) <= trace
      ensures At(id, fingerprint,
                 if raw.None? then Finished(HandlerError)
                 else if claimed then Storing(Capture(codec, raw.value, fingerprint), raw.value.background)
                 else Finished(PassedThrough(raw.value)))
    {
      Interfere(id, fingerprint, Invoking(claimed));
      raw := *;
      Perform(Handler(id, raw));
    }

    /** Persisting the snapshot, whose failure the source swallows. */
    method Store(id: nat, fingerprint: string, captured: Captured, background: Option<nat>)
      requires Valid() && At(id, fingerprint, Storing(captured, background))
      modifies this
      ensures Valid() && old(trace) <= trace
      ensures At(id, fingerprint, Finished(Own(Rebuild(codec, captured), background)))
    {
      Interfere(id, fingerprint, Storing(captured, background));
      var fault: Fault := *;
      Perform(Redis(id, fault));
    }

    /** One keyed mutating request, from arrival to its response. */
    method Dispatch(id: nat, fingerprint: string) returns (response: Outcome)
      requires Valid() && id !in world.requests && |fingerprint| == 64
      modifies this
      ensures Valid() && old(trace) <= trace && At(id, fingerprint, Finished(response))
    {
      Perform(Arrive(id, fingerprint));
      var claimed := SetNx(id, fingerprint, Claiming);
      if claimed.None? {
        var raw := CallNext(id, fingerprint, false);
        return if raw.None? then HandlerError else PassedThrough(raw.value);
      }
      if !claimed.value {
        var existing := HandleExisting(id, fingerprint, false);
        if existing.Some? {
          return existing.value;
        }
        claimed := SetNx(id, fingerprint, Reclaiming);
        if claimed.None? {
          return Conflict;
        }
        if !claimed.value {
          existing := HandleExisting(id, fingerprint, true);
          if existing.Some? {
            return existing.value;
          }
          return Conflict;
        }
      }
      var raw := CallNext(id, fingerprint, true);
      if raw.None? {
        return HandlerError;
      }
      var captured := CaptureResponse(codec, raw.value, fingerprint);
      Store(id, fingerprint, captured, raw.value.background);
      return Own(Rebuild(codec, captured), raw.value.background);
    }
  }
}
