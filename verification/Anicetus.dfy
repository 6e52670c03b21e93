/** The storage, the gatekeeper and Anicetus itself, each call as one step. */
module Anicetus {
  import opened Clock
  import opened Detector
  import opened Wrappers

  datatype Status = NoStatus | Failed | Process | Wait | OpenGates

  /** How an operation of the storage or of the detector goes. One that fails can have taken
      effect. */
  datatype Outcome = Done | NotDone | DoneWithError

  /** How the operations of one evaluation go, those that it makes. */
  datatype Outcomes = Outcomes(cool: Outcome, herd: Outcome, found: Outcome, processed: Outcome,
                               store: Outcome, remove: Outcome)

  const FINE := Outcomes(Done, Done, Done, Done, Done, Done)

  /** Fingerprints with an entry, and whether their request was processed. */
  type Entries = map<Fingerprint, bool>

  function Stored(entries: Entries, f: Fingerprint, processed: bool, o: Outcome): Entries {
    if o == NotDone then entries else entries[f := processed]
  }

  function Removed(entries: Entries, f: Fingerprint, o: Outcome): Entries {
    if o == NotDone then entries else entries - {f}
  }

  // What analyze leaves and answers; an error is the status Failed.
  function Analyzed(entries: Entries, f: Fingerprint, o: Outcomes): (Entries, Status) {
    if o.found != Done then (entries, Failed)
    else if f in entries then
      (entries, if o.processed != Done then Failed else if entries[f] then OpenGates else Wait)
    else (Stored(entries, f, false, o.store), if o.store == Done then Process else Failed)
  }

  function EntryOf(entries: Entries, f: Fingerprint): Option<bool> {
    if f in entries then Some(entries[f]) else None
  }

  class InMemory {
    var data: Entries

    constructor ()
      ensures data == map[]
    {
      data := map[];
    }

    method Exists(f: Fingerprint) returns (found: bool)
      ensures found <==> f in data
    {
      found := f in data;
    }

    method Processed(f: Fingerprint) returns (processed: bool)
      ensures processed <==> f in data && data[f]
    {
      processed := if f in data then data[f] else false;
    }

    method Store(f: Fingerprint, processed: bool)
      modifies this
      ensures data == old(data)[f := processed]
    {
      data := data[f := processed];
    }

    method Remove(f: Fingerprint)
      modifies this
      ensures data == old(data) - {f}
    {
      data := data - {f};
    }
  }

  /** What the gatekeeper expects of its storage: what the in-memory one does, except that its
      operations can fail. */
  class GatekeeperStorage {
    const memory: InMemory

    constructor (memory: InMemory)
      ensures this.memory == memory
    {
      this.memory := memory;
    }

    method Exists(f: Fingerprint, o: Outcome) returns (found: Result<bool>)
      ensures found == if o == Done then Success(f in memory.data) else Failure
    {
      if o != Done {
        return Failure;
      }
      var b := memory.Exists(f);
      return Success(b);
    }

    method Processed(f: Fingerprint, o: Outcome) returns (processed: Result<bool>)
      ensures processed == if o == Done then Success(f in memory.data && memory.data[f]) else Failure
    {
      if o != Done {
        return Failure;
      }
      var b := memory.Processed(f);
      return Success(b);
    }

    method Store(f: Fingerprint, processed: bool, o: Outcome) returns (ok: bool)
      modifies memory
      ensures ok == (o == Done) && memory.data == Stored(old(memory.data), f, processed, o)
    {
      if o != NotDone {
        memory.Store(f, processed);
      }
      return o == Done;
    }

    method Remove(f: Fingerprint, o: Outcome) returns (ok: bool)
      modifies memory
      ensures ok == (o == Done) && memory.data == Removed(old(memory.data), f, o)
    {
      if o != NotDone {
        memory.Remove(f);
      }
      return o == Done;
    }
  }

  class Gatekeeper {
    const storage: GatekeeperStorage

    constructor (storage: GatekeeperStorage)
      ensures this.storage == storage
    {
      this.storage := storage;
    }

    method Analyze(f: Fingerprint, o: Outcomes) returns (status: Status)
      modifies storage.memory
      ensures (storage.memory.data, status) == Analyzed(old(storage.memory.data), f, o)
    {
      var found := storage.Exists(f, o.found);
      if found.Failure? {
        return Failed;
      } else if found.value {
        var processed := storage.Processed(f, o.processed);
        if processed.Failure? {
          return Failed;
        } else if processed.value {
          return OpenGates;
        }
        return Wait;
      }
      var ok := storage.Store(f, false, o.store);
      if !ok {
        return Failed;
      }
      return Process;
    }

    method Store(f: Fingerprint, processed: bool, o: Outcome) returns (ok: bool)
      modifies storage.memory
      ensures ok == (o == Done) && storage.memory.data == Stored(old(storage.memory.data), f, processed, o)
    {
      ok := storage.Store(f, processed, o);
    }

    method Remove(f: Fingerprint, o: Outcome) returns (ok: bool)
      modifies storage.memory
      ensures ok == (o == Done) && storage.memory.data == Removed(old(storage.memory.data), f, o)
    {
      ok := storage.Remove(f, o);
    }
  }

  // ---- The detector as Anicetus sees it ----

  function CoolChecked(c: Config, d: DetectorState, f: Fingerprint, now: Time, o: Outcome): DetectorState {
    if o == NotDone then d else AfterCoolCheck(c, d, f, now)
  }

  function HerdChecked(c: Config, d: DetectorState, f: Fingerprint, now: Time, drawAt: Time, o: Outcome):
    DetectorState
  {
    if o == NotDone then d else AfterHerdCheck(c, d, f, now, drawAt)
  }

  function CooledDown(c: Config, d: DetectorState, f: Fingerprint, now: Time, o: Outcome): DetectorState {
    if o == NotDone then d else AfterCoolDown(c, d, f, now)
  }

  /** What the in-memory detector does, except that its operations can fail. */
  class FallibleDetector {
    const memory: TokenBucketInMemory

    constructor (memory: TokenBucketInMemory)
      ensures this.memory == memory
    {
      this.memory := memory;
    }

    method IsCoolDown(f: Fingerprint, now: Time, o: Outcome) returns (cool: Result<bool>)
      requires memory.Valid()
      modifies memory.cooldowns.expirationQueue
      ensures memory.Valid() && memory.State() == CoolChecked(memory.config, old(memory.State()), f, now, o)
      ensures cool == if o == Done then Success(IsCool(old(memory.State()), f)) else Failure
    {
      if o == NotDone {
        return Failure;
      }
      var b := memory.IsCoolDown(f, now);
      return if o == Done then Success(b) else Failure;
    }

    method IsThunderingHerd(f: Fingerprint, now: Time, drawAt: Time, o: Outcome) returns (herd: Result<bool>)
      requires memory.Valid()
      modifies memory`values, memory`owner, memory.limiters, memory.limiters.expirationQueue, memory.owner.Keys
      ensures memory.Valid() && fresh(memory.owner.Keys - old(memory.owner.Keys))
      ensures memory.State() == HerdChecked(memory.config, old(memory.State()), f, now, drawAt, o)
      ensures herd == if o == Done then Success(IsHerd(memory.config, old(memory.State()), f, drawAt)) else Failure
    {
      if o == NotDone {
        return Failure;
      }
      var b := memory.IsThunderingHerd(f, now, drawAt);
      return if o == Done then Success(b) else Failure;
    }

    method CoolDown(f: Fingerprint, now: Time, o: Outcome) returns (ok: bool)
      requires memory.Valid()
      modifies memory.cooldowns, memory.cooldowns.expirationQueue
      ensures memory.Valid() && memory.State() == CooledDown(memory.config, old(memory.State()), f, now, o)
      ensures ok == (o == Done)
    {
      if o != NotDone {
        memory.CoolDown(f, now);
      }
      return o == Done;
    }
  }

  // ---- Anicetus ----

  datatype State = State(detector: DetectorState, entries: Entries)

  function NewState(): State {
    State(NewDetector(), map[])
  }

  // What becomes of the entries, given what the detector found.
  function Gated(entries: Entries, f: Fingerprint, herd: bool, o: Outcomes): (Entries, Status) {
    if herd then Analyzed(entries, f, o)
    else (Removed(entries, f, o.remove), if o.remove == Done then OpenGates else Failed)
  }

  // Evaluate for a fingerprint that is not cooling down.
  function Judged(c: Config, s: State, f: Fingerprint, now: Time, drawAt: Time, o: Outcomes): (State, Status) {
    var d := HerdChecked(c, s.detector, f, now, drawAt, o.herd);
    if o.herd != Done then (State(d, s.entries), Failed)
    else
      var (entries, status) := Gated(s.entries, f, IsHerd(c, s.detector, f, drawAt), o);
      (State(d, entries), status)
  }

  /** What Evaluate leaves and answers. It looks into the maps at `now` and draws at `drawAt`. */
  function Evaluated(c: Config, s: State, f: Fingerprint, now: Time, drawAt: Time, o: Outcomes): (State, Status) {
    var s1 := State(CoolChecked(c, s.detector, f, now, o.cool), s.entries);
    if o.cool != Done then (s1, Failed)
    else if IsCool(s.detector, f) then (s1, OpenGates)
    else Judged(c, s1, f, now, drawAt, o)
  }

  // What RequestDone leaves, and whether it succeeds.
  function AfterRequestDone(c: Config, s: State, f: Fingerprint, now: Time, store: Outcome, cool: Outcome):
    (State, bool)
  {
    var entries := Stored(s.entries, f, true, store);
    if store != Done then (State(s.detector, entries), false)
    else (State(CooledDown(c, s.detector, f, now, cool), entries), cool == Done)
  }

  function AfterCleanup(s: State, f: Fingerprint, remove: Outcome): State {
    State(s.detector, Removed(s.entries, f, remove))
  }

  // The part of Evaluated that concerns the storage.
  lemma EntriesEvaluated(c: Config, s: State, f: Fingerprint, now: Time, drawAt: Time, o: Outcomes)
    ensures var (s', status) := Evaluated(c, s, f, now, drawAt, o);
            (s'.entries, status)
              == if o.cool != Done then (s.entries, Failed)
                 else if IsCool(s.detector, f) then (s.entries, OpenGates)
                 else if o.herd != Done then (s.entries, Failed)
                 else Gated(s.entries, f, IsHerd(c, s.detector, f, drawAt), o)
  {
    assert LimiterFor(c, CoolChecked(c, s.detector, f, now, o.cool), f) == LimiterFor(c, s.detector, f);
  }

  // An operation that the evaluation makes fails.
  predicate EvaluateFails(c: Config, s: State, f: Fingerprint, drawAt: Time, o: Outcomes) {
    || o.cool != Done
    || (!IsCool(s.detector, f)
        && (|| o.herd != Done
            || if !IsHerd(c, s.detector, f, drawAt) then o.remove != Done
               else o.found != Done || (if f in s.entries then o.processed != Done else o.store != Done)))
  }

  /** Evaluate answers Failed just when an operation that it makes fails. The entry is then as it
      was, but for one whose removal, or whose first write, took effect nevertheless. */
  lemma EvaluateFailsIff(c: Config, s: State, f: Fingerprint, now: Time, drawAt: Time, o: Outcomes)
    ensures var (s', status) := Evaluated(c, s, f, now, drawAt, o);
            && (status == Failed <==> EvaluateFails(c, s, f, drawAt, o))
            && (status == Failed && EntryOf(s'.entries, f) != EntryOf(s.entries, f) ==>
                  if f in s.entries then o.remove == DoneWithError && f !in s'.entries
                  else o.store == DoneWithError && EntryOf(s'.entries, f) == Some(false))
            && forall g | g != f :: EntryOf(s'.entries, g) == EntryOf(s.entries, g)
  {
    EntriesEvaluated(c, s, f, now, drawAt, o);
  }

  class Anicetus {
    const detector: FallibleDetector
    const gatekeeper: Gatekeeper

    constructor (detector: FallibleDetector, storage: GatekeeperStorage)
      ensures this.detector == detector && gatekeeper.storage == storage
    {
      this.detector := detector;
      gatekeeper := new Gatekeeper(storage);
    }

    ghost function Value(): State
      reads detector.memory.Repr(), gatekeeper.storage.memory
    {
      State(detector.memory.State(), gatekeeper.storage.memory.data)
    }

    method Evaluate(f: Fingerprint, now: Time, drawAt: Time, o: Outcomes) returns (status: Status)
      requires detector.memory.Valid()
      modifies detector.memory`values, detector.memory`owner, detector.memory.owner.Keys
      modifies detector.memory.limiters, detector.memory.limiters.expirationQueue
      modifies detector.memory.cooldowns.expirationQueue, gatekeeper.storage.memory
      ensures detector.memory.Valid() && fresh(detector.memory.owner.Keys - old(detector.memory.owner.Keys))
      ensures (Value(), status) == Evaluated(detector.memory.config, old(Value()), f, now, drawAt, o)
    {
      var cooldown := detector.IsCoolDown(f, now, o.cool);
      if cooldown.Failure? {
        status := Failed;
      } else if cooldown.value {
        status := OpenGates;
      } else {
        status := Judge(f, now, drawAt, o);
      }
    }

    // The rest of Evaluate.
    method Judge(f: Fingerprint, now: Time, drawAt: Time, o: Outcomes) returns (status: Status)
      requires detector.memory.Valid()
      modifies detector.memory`values, detector.memory`owner, detector.memory.owner.Keys
      modifies detector.memory.limiters, detector.memory.limiters.expirationQueue, gatekeeper.storage.memory
      ensures detector.memory.Valid() && fresh(detector.memory.owner.Keys - old(detector.memory.owner.Keys))
      ensures (Value(), status) == Judged(detector.memory.config, old(Value()), f, now, drawAt, o)
    {
      var thunderingHerd := detector.IsThunderingHerd(f, now, drawAt, o.herd);
      if thunderingHerd.Failure? {
        return Failed;
      }
      ghost var d := detector.memory.State();
      status := Gate(f, thunderingHerd.value, o);
      assert detector.memory.State() == d;
    }

    // The part of it that concerns the storage.
    method Gate(f: Fingerprint, thunderingHerd: bool, o: Outcomes) returns (status: Status)
      modifies gatekeeper.storage.memory
      ensures (gatekeeper.storage.memory.data, status)
                == Gated(old(gatekeeper.storage.memory.data), f, thunderingHerd, o)
    {
      if !thunderingHerd {
        var ok := gatekeeper.Remove(f, o.remove);
        return if ok then OpenGates else Failed;
      }
      status := gatekeeper.Analyze(f, o);
    }

    method RequestDone(f: Fingerprint, now: Time, store: Outcome, cool: Outcome) returns (ok: bool)
      requires detector.memory.Valid()
      modifies gatekeeper.storage.memory, detector.memory.cooldowns, detector.memory.cooldowns.expirationQueue
      ensures detector.memory.Valid()
      ensures (Value(), ok) == AfterRequestDone(detector.memory.config, old(Value()), f, now, store, cool)
    {
      ok := gatekeeper.Store(f, true, store);
      if ok {
        ok := detector.CoolDown(f, now, cool);
      }
    }

    method Cleanup(f: Fingerprint, remove: Outcome) returns (ok: bool)
      requires detector.memory.Valid()
      modifies gatekeeper.storage.memory
      ensures ok == (remove == Done)
      ensures detector.memory.Valid() && Value() == AfterCleanup(old(Value()), f, remove)
    {
      ok := gatekeeper.Remove(f, remove);
    }
  }
}
