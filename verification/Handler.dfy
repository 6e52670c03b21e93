/** The handler of GET requests, one request at a time, over components that can fail. */
module Handler {
  import opened Clock
  import opened Detector
  import opened Anicetus
  import opened MapExp
  import opened Wrappers

  /** How the rest goes of a request that was evaluated: whether the backend responds and its body
      can be copied, and how the operations of a leader go, those that it makes. */
  datatype Exchange = Exchange(responds: bool, copies: bool, store: Outcome, cool: Outcome, cleanup: Outcome)

  /** The status written to the client, the first if there are several. */
  datatype Reply = FromBackend | InternalServerError | ServiceUnavailable | NothingWritten

  // RequestDone, the response handler of a leader, succeeds.
  predicate GetsDone(x: Exchange) {
    x.responds && x.store == Done && x.cool == Done
  }

  // What forwarding leaves, for a leader that is done as `doneAs`.
  function AfterForward(c: Config, s: State, doneAs: Fingerprint, x: Exchange, now: Time): State {
    if x.responds then AfterRequestDone(c, s, doneAs, now, x.store, x.cool).0 else s
  }

  // What a leader leaves: it cleans up if anything fails.
  function AfterLeading(c: Config, s: State, doneAs: Fingerprint, x: Exchange, now: Time): State {
    var s1 := AfterForward(c, s, doneAs, x, now);
    if GetsDone(x) && x.copies then s1 else AfterCleanup(s1, doneAs, x.cleanup)
  }

  /** What the handler leaves and replies. `f` is the fingerprint the request arrives with, and
      `doneAs` the one computed again after it was forwarded. */
  function Served(c: Config, s: State, f: Fingerprint, doneAs: Fingerprint, o: Outcomes, x: Exchange,
                  now: Time, drawAt: Time, doneAt: Time): (State, Reply)
  {
    var (s1, status) := Evaluated(c, s, f, now, drawAt, o);
    match status
    case Process => (AfterLeading(c, s1, doneAs, x, doneAt), if GetsDone(x) then FromBackend else InternalServerError)
    case OpenGates => (s1, if x.responds then FromBackend else InternalServerError)
    case Wait => (s1, ServiceUnavailable)
    case Failed => (s1, InternalServerError)
    case NoStatus => (s1, NothingWritten)
  }

  /** forwardRequest for a leader: RequestDone is its response handler. */
  method ForwardLeading(anicetus: Anicetus, doneAs: Fingerprint, x: Exchange, now: Time)
    returns (ok: bool, reply: Reply)
    requires anicetus.detector.memory.Valid()
    modifies anicetus.gatekeeper.storage.memory
    modifies anicetus.detector.memory.cooldowns, anicetus.detector.memory.cooldowns.expirationQueue
    ensures anicetus.detector.memory.Valid()
    ensures ok == (GetsDone(x) && x.copies)
    ensures reply == if GetsDone(x) then FromBackend else InternalServerError
    ensures anicetus.Value() == AfterForward(anicetus.detector.memory.config, old(anicetus.Value()), doneAs, x, now)
  {
    if !x.responds {
      return false, InternalServerError;
    }
    var done := anicetus.RequestDone(doneAs, now, x.store, x.cool);
    if !done {
      return false, InternalServerError;
    }
    return x.copies, FromBackend;
  }

  method Lead(anicetus: Anicetus, doneAs: Fingerprint, x: Exchange, now: Time) returns (reply: Reply)
    requires anicetus.detector.memory.Valid()
    modifies anicetus.gatekeeper.storage.memory
    modifies anicetus.detector.memory.cooldowns, anicetus.detector.memory.cooldowns.expirationQueue
    ensures anicetus.detector.memory.Valid()
    ensures reply == if GetsDone(x) then FromBackend else InternalServerError
    ensures anicetus.Value() == AfterLeading(anicetus.detector.memory.config, old(anicetus.Value()), doneAs, x, now)
  {
    var ok;
    ok, reply := ForwardLeading(anicetus, doneAs, x, now);
    if !ok {
      var _ := anicetus.Cleanup(doneAs, x.cleanup);
    }
  }

  method Serve(anicetus: Anicetus, f: Fingerprint, doneAs: Fingerprint, o: Outcomes, x: Exchange,
               now: Time, drawAt: Time, doneAt: Time) returns (reply: Reply)
    requires anicetus.detector.memory.Valid()
    modifies anicetus.detector.memory`values, anicetus.detector.memory`owner, anicetus.detector.memory.owner.Keys
    modifies anicetus.detector.memory.limiters, anicetus.detector.memory.limiters.expirationQueue
    modifies anicetus.detector.memory.cooldowns, anicetus.detector.memory.cooldowns.expirationQueue
    modifies anicetus.gatekeeper.storage.memory
    ensures anicetus.detector.memory.Valid()
    ensures (anicetus.Value(), reply)
              == Served(anicetus.detector.memory.config, old(anicetus.Value()), f, doneAs, o, x, now, drawAt, doneAt)
  {
    var status := anicetus.Evaluate(f, now, drawAt, o);
    match status
    case Process => reply := Lead(anicetus, doneAs, x, doneAt);
    case OpenGates => reply := if x.responds then FromBackend else InternalServerError;
    case Wait => reply := ServiceUnavailable;
    case Failed => reply := InternalServerError;
    case NoStatus => reply := NothingWritten;
  }

  /** What becomes of the entry a leader stored. It stays pending just if the fingerprint changes on
      the way, or if neither the write that replaces it nor the cleanup that would remove it takes
      effect. */
  lemma LeadingLeavesPendingIff(c: Config, s: State, f: Fingerprint, doneAs: Fingerprint, x: Exchange, now: Time)
    requires EntryOf(s.entries, f) == Some(false)
    ensures EntryOf(AfterLeading(c, s, doneAs, x, now).entries, f) == Some(false)
            <==> doneAs != f || ((!x.responds || x.store == NotDone) && x.cleanup == NotDone)
  {
  }

  // The other fingerprint's entry.
  lemma LeadingIsDone(c: Config, s: State, doneAs: Fingerprint, x: Exchange, now: Time)
    ensures var s' := AfterLeading(c, s, doneAs, x, now);
            && (GetsDone(x) && x.copies ==> EntryOf(s'.entries, doneAs) == Some(true) && IsCool(s'.detector, doneAs))
            && (!(GetsDone(x) && x.copies) && x.cleanup != NotDone ==> doneAs !in s'.entries)
            && (!(GetsDone(x) && x.copies) && x.cleanup == NotDone ==>
                  EntryOf(s'.entries, doneAs)
                    == if x.responds && x.store != NotDone then Some(true) else EntryOf(s.entries, doneAs))
            && forall g | g != doneAs :: EntryOf(s'.entries, g) == EntryOf(s.entries, g)
  {
  }

  /** A leader starts the cooldown when its request is done: of the fingerprint it is done as, from
      `now`, and also if the body cannot be copied after that. It leaves the limiters alone. */
  lemma LeadingStartsCooldown(c: Config, s: State, doneAs: Fingerprint, x: Exchange, now: Time)
    ensures var d, d' := s.detector, AfterLeading(c, s, doneAs, x, now).detector;
            && d'.limiters == d.limiters
            && d'.cooldowns == if x.responds && x.store == Done && x.cool != NotDone
                               then AfterSet(d.cooldowns, doneAs, true, now + c.cooldown) else d.cooldowns
  {
  }

  // Only a leader leaves more than the evaluation did.
  lemma ServedLeaves(c: Config, s: State, f: Fingerprint, doneAs: Fingerprint, o: Outcomes,
                     x: Exchange, now: Time, drawAt: Time, doneAt: Time)
    ensures var (s1, status) := Evaluated(c, s, f, now, drawAt, o);
            Served(c, s, f, doneAs, o, x, now, drawAt, doneAt).0
              == if status == Process then AfterLeading(c, s1, doneAs, x, doneAt) else s1
  {
  }

  /** What the client is told: the backend's answer just if there is one and the gates are open, or
      the request leads and its response handler succeeds; to come again just if it must wait; and
      an error in all other cases. Only a leader leaves more than the evaluation did. */
  lemma ReplyTells(c: Config, s: State, f: Fingerprint, doneAs: Fingerprint, o: Outcomes,
                   x: Exchange, now: Time, drawAt: Time, doneAt: Time)
    ensures var (s', reply) := Served(c, s, f, doneAs, o, x, now, drawAt, doneAt);
            var (s1, status) := Evaluated(c, s, f, now, drawAt, o);
            && status in {Process, OpenGates, Wait, Failed}
            && (reply == FromBackend <==>
                  x.responds && (status == OpenGates || (status == Process && x.store == Done && x.cool == Done)))
            && (reply == ServiceUnavailable <==> status == Wait)
            && reply != NothingWritten
            && s' == (if status == Process then AfterLeading(c, s1, doneAs, x, doneAt) else s1)
  {
    ServedLeaves(c, s, f, doneAs, o, x, now, drawAt, doneAt);
    EntriesEvaluated(c, s, f, now, drawAt, o);
  }

  /** One request served on its own: a leader leaves its entry pending just as above; others leave
      no new pending entry, but for a first write that takes effect and is reported as failed; and
      what it leaves of other fingerprints is what there was, but for the one a leader is done as. */
  lemma ServingLeavesNothingPendingIff(c: Config, s: State, f: Fingerprint, doneAs: Fingerprint, o: Outcomes,
                                       x: Exchange, now: Time, drawAt: Time, doneAt: Time)
    ensures var s' := Served(c, s, f, doneAs, o, x, now, drawAt, doneAt).0;
            var led := Evaluated(c, s, f, now, drawAt, o).1 == Process;
            && (led ==> (EntryOf(s'.entries, f) == Some(false)
                         <==> doneAs != f || ((!x.responds || x.store == NotDone) && x.cleanup == NotDone)))
            && (!led && EntryOf(s'.entries, f) == Some(false) ==>
                  EntryOf(s.entries, f) == Some(false) || o.store == DoneWithError)
            && forall g | g != f && (led ==> g != doneAs) :: EntryOf(s'.entries, g) == EntryOf(s.entries, g)
    ensures Served(c, s, f, doneAs, o, x, now, drawAt, doneAt).1 == ServiceUnavailable
            <==> Evaluated(c, s, f, now, drawAt, o).1 == Wait
  {
    var (s1, status) := Evaluated(c, s, f, now, drawAt, o);
    EntriesEvaluated(c, s, f, now, drawAt, o);
    if status == Process {
      LeadingLeavesPendingIff(c, s1, f, doneAs, x, doneAt);
      LeadingIsDone(c, s1, doneAs, x, doneAt);
    }
  }
}
