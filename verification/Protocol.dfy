/** Any number of GET requests on their way through the handler, each operation on the storage
    or the detector a step of its own.

    The detector may answer anything, and every operation may fail. The fingerprint is computed
    again once the request was forwarded, which rewrites its URL: a request has the one it is
    evaluated with and the one it is done, or given up, as. */
module Protocol {
  import opened Clock
  import opened Detector
  import opened Anicetus
  import Handler
  import opened Wrappers

  type RequestId = nat

  /** What a request does next. */
  datatype Stage =
    | AskCoolDown
    | AskHerd
    | RemoveCalm        // no herd: remove the entry
    | AskExists
    | AskProcessed
    | StorePending
    | Forward           // leading: waiting for the backend
    | StoreDone         // RequestDone, first half
    | CoolDown          // RequestDone, second half
    | CopyBody
    | CleanUp
    | Finished(status: Status)

  datatype Request = Request(f: Fingerprint, doneAs: Fingerprint, stage: Stage)

  datatype Answer = Yes | No | Error

  datatype Step =
    | Arrives(id: RequestId, f: Fingerprint, doneAs: Fingerprint)
    | Cool(id: RequestId, answer: Answer)
    | Herd(id: RequestId, answer: Answer)
    | RemovesCalm(id: RequestId, o: Outcome)
    | ReadsExists(id: RequestId, ok: bool)
    | ReadsProcessed(id: RequestId, ok: bool)
    | StoresPending(id: RequestId, o: Outcome)
    | Responds(id: RequestId, ok: bool)
    | StoresDone(id: RequestId, o: Outcome)
    | StartsCoolDown(id: RequestId, ok: bool)
    | Copies(id: RequestId, ok: bool)
    | CleansUp(id: RequestId, o: Outcome)

  datatype World = World(
    entries: Entries,
    requests: map<RequestId, Request>,
    writer: map<Fingerprint, RequestId>)  // history: who last stored a pending entry

  const EMPTY := World(map[], map[], map[])

  // The stage at which a request takes the step.
  function StageOf(step: Step): Stage
    requires !step.Arrives?
  {
    match step
    case Cool(_, _) => AskCoolDown
    case Herd(_, _) => AskHerd
    case RemovesCalm(_, _) => RemoveCalm
    case ReadsExists(_, _) => AskExists
    case ReadsProcessed(_, _) => AskProcessed
    case StoresPending(_, _) => StorePending
    case Responds(_, _) => Forward
    case StoresDone(_, _) => StoreDone
    case StartsCoolDown(_, _) => CoolDown
    case Copies(_, _) => CopyBody
    case CleansUp(_, _) => CleanUp
  }

  predicate Enabled(w: World, step: Step) {
    if step.Arrives? then step.id !in w.requests
    else step.id in w.requests && w.requests[step.id].stage == StageOf(step)
  }

  // Where the step takes the request.
  function StageAfter(entries: Entries, f: Fingerprint, step: Step): Stage {
    match step
    case Arrives(_, _, _) => AskCoolDown
    case Cool(_, answer) =>
      (match answer case Error => Finished(Failed) case Yes => Finished(OpenGates) case No => AskHerd)
    case Herd(_, answer) =>
      (match answer case Error => Finished(Failed) case Yes => AskExists case No => RemoveCalm)
    case RemovesCalm(_, o) => Finished(if o == Done then OpenGates else Failed)
    case ReadsExists(_, ok) =>
      if !ok then Finished(Failed) else if f in entries then AskProcessed else StorePending
    case ReadsProcessed(_, ok) =>
      Finished(if !ok then Failed else if f in entries && entries[f] then OpenGates else Wait)
    case StoresPending(_, o) => if o == Done then Forward else Finished(Failed)
    case Responds(_, ok) => if ok then StoreDone else CleanUp
    case StoresDone(_, o) => if o == Done then CoolDown else CleanUp
    case StartsCoolDown(_, ok) => if ok then CopyBody else CleanUp
    case Copies(_, ok) => if ok then Finished(Process) else CleanUp
    case CleansUp(_, _) => Finished(Process)
  }

  function EntriesAfter(entries: Entries, f: Fingerprint, doneAs: Fingerprint, step: Step): Entries {
    match step
    case RemovesCalm(_, o) => Removed(entries, f, o)
    case StoresPending(_, o) => Stored(entries, f, false, o)
    case StoresDone(_, o) => Stored(entries, doneAs, true, o)
    case CleansUp(_, o) => Removed(entries, doneAs, o)
    case _ => entries
  }

  function Next(w: World, step: Step): World
    requires Enabled(w, step)
  {
    var f := if step.Arrives? then step.f else w.requests[step.id].f;
    var doneAs := if step.Arrives? then step.doneAs else w.requests[step.id].doneAs;
    World(EntriesAfter(w.entries, f, doneAs, step),
          w.requests[step.id := Request(f, doneAs, StageAfter(w.entries, f, step))],
          if step.StoresPending? && step.o != NotDone then w.writer[f := step.id] else w.writer)
  }

  // A step that is not enabled does not happen.
  function After(steps: seq<Step>): World {
    if steps == [] then EMPTY
    else
      var w, step := After(steps[..|steps| - 1]), steps[|steps| - 1];
      if Enabled(w, step) then Next(w, step) else w
  }

  lemma OneMoreStep(steps: seq<Step>, step: Step)
    ensures After(steps + [step])
              == if Enabled(After(steps), step) then Next(After(steps), step) else After(steps)
  {
    assert (steps + [step])[..|steps|] == steps;
  }

  predicate TakesEffect(steps: seq<Step>, i: nat) {
    i < |steps| && Enabled(After(steps[..i]), steps[i])
  }

  // ---- No orphaned pending entry ----

  predicate Pending(w: World, f: Fingerprint) {
    f in w.entries && !w.entries[f]
  }

  // The request has stored a pending entry, and has yet to replace or remove it under that key.
  predicate Responsible(w: World, id: RequestId, f: Fingerprint) {
    && id in w.requests && w.requests[id].f == w.requests[id].doneAs == f
    && w.requests[id].stage in {Forward, StoreDone, CleanUp}
  }

  /** Behind every pending entry there is the request that stored it last, still in flight. */
  ghost predicate NoOrphans(w: World) {
    forall f | Pending(w, f) :: f in w.writer && Responsible(w, w.writer[f], f)
  }

  /** The steps that abandon an entry: a pending one is stored by a request that will be done as
      another; or the storage reports as failed a write that it made; or it does not remove the
      entry of a leader that gives up. */
  predicate Abandons(w: World, step: Step)
    requires Enabled(w, step)
  {
    || (step.StoresPending? && step.o == DoneWithError)
    || (step.StoresPending? && step.o == Done && w.requests[step.id].doneAs != w.requests[step.id].f)
    || (step.CleansUp? && step.o == NotDone
        && var f := w.requests[step.id].f;
           Pending(w, f) && f in w.writer && w.writer[f] == step.id)
  }

  lemma StepKeepsNoOrphansIff(w: World, step: Step)
    requires NoOrphans(w) && Enabled(w, step)
    ensures NoOrphans(Next(w, step)) <==> !Abandons(w, step)
  {
    var w' := Next(w, step);
    if Abandons(w, step) {
      var f := w.requests[step.id].f;
      assert Pending(w', f) && !Responsible(w', w'.writer[f], f);
    } else {
      forall f | Pending(w', f)
        ensures f in w'.writer && Responsible(w', w'.writer[f], f)
      {
        if Pending(w, f) {
          assert Responsible(w, w.writer[f], f);
        }
      }
    }
  }

  ghost predicate Reliable(steps: seq<Step>) {
    forall i | 0 <= i < |steps| ::
      && (steps[i].StoresPending? ==> steps[i].o != DoneWithError)
      && (steps[i].CleansUp? ==> steps[i].o != NotDone)
  }

  // No request changes its fingerprint.
  ghost predicate Stable(steps: seq<Step>) {
    forall i | 0 <= i < |steps| && steps[i].Arrives? :: steps[i].f == steps[i].doneAs
  }

  lemma {:induction false} RequestsStayStable(steps: seq<Step>)
    requires Stable(steps)
    ensures forall id | id in After(steps).requests ::
              After(steps).requests[id].f == After(steps).requests[id].doneAs
  {
    if steps != [] {
      var init := steps[..|steps| - 1];
      assert forall i | 0 <= i < |init| :: init[i] == steps[i];
      RequestsStayStable(init);
    }
  }

  /** No orphaned pending entry: however requests interleave, and whichever of their steps
      fail, a pending entry belongs to a request still in flight; so there is none once all
      requests are finished. Excluded are a request that changes its fingerprint, and two
      failures: of a removal that gives up the lead, and of a first write that took effect
      nevertheless. */
  lemma {:induction false} NoOrphanedPendingEntry(steps: seq<Step>)
    requires Reliable(steps) && Stable(steps)
    ensures NoOrphans(After(steps))
    ensures (forall id | id in After(steps).requests :: After(steps).requests[id].stage.Finished?) ==>
              forall f :: !Pending(After(steps), f)
  {
    if steps != [] {
      var init, step := steps[..|steps| - 1], steps[|steps| - 1];
      assert forall i | 0 <= i < |init| :: init[i] == steps[i];
      NoOrphanedPendingEntry(init);
      RequestsStayStable(init);
      if Enabled(After(init), step) {
        StepKeepsNoOrphansIff(After(init), step);
      }
    }
  }

  /** Excluding the failures is needed: a leader whose backend fails and whose removal then fails
      too leaves a pending entry behind with nobody to replace it, and so does one whose first
      write is reported as failed but was made. */
  lemma FailuresThatOrphan(w: World, id: RequestId)
    requires id in w.requests
    requires var f, stage := w.requests[id].f, w.requests[id].stage;
             stage == StorePending || (stage == Forward && Pending(w, f) && f in w.writer && w.writer[f] == id)
    ensures var f := w.requests[id].f;
            var w' := if w.requests[id].stage == StorePending then Next(w, StoresPending(id, DoneWithError))
                      else Next(Next(w, Responds(id, false)), CleansUp(id, NotDone));
            Pending(w', f) && w'.requests[id].stage.Finished? && !NoOrphans(w')
  {
    var f := w.requests[id].f;
    var w' := if w.requests[id].stage == StorePending then Next(w, StoresPending(id, DoneWithError))
              else Next(Next(w, Responds(id, false)), CleansUp(id, NotDone));
    assert Pending(w', f) && !Responsible(w', w'.writer[f], f);
  }

  /** What a leader does until it is finished, if nobody comes in between. */
  function LeadsAlone(w: World, id: RequestId, x: Handler.Exchange): World
    requires id in w.requests && w.requests[id].stage == Forward
  {
    var w1 := Next(w, Responds(id, x.responds));
    if x.responds then DoneAlone(w1, id, x) else Next(w1, CleansUp(id, x.cleanup))
  }

  function DoneAlone(w: World, id: RequestId, x: Handler.Exchange): World
    requires id in w.requests && w.requests[id].stage == StoreDone
  {
    var w1 := Next(w, StoresDone(id, x.store));
    if x.store != Done then Next(w1, CleansUp(id, x.cleanup))
    else
      var w2 := Next(w1, StartsCoolDown(id, x.cool == Done));
      if x.cool != Done then Next(w2, CleansUp(id, x.cleanup)) else CopiesAlone(w2, id, x)
  }

  function CopiesAlone(w: World, id: RequestId, x: Handler.Exchange): World
    requires id in w.requests && w.requests[id].stage == CopyBody
  {
    var w1 := Next(w, Copies(id, x.copies));
    if x.copies then w1 else Next(w1, CleansUp(id, x.cleanup))
  }

  // From `w` to `w'` the request is finished as a leader, leaving `entries`.
  ghost predicate LedTo(w: World, w': World, id: RequestId, entries: Entries)
    requires id in w.requests
  {
    w'.requests == w.requests[id := w.requests[id].(stage := Finished(Process))] && w'.entries == entries
  }

  lemma DoneAloneIsAtomic(w: World, id: RequestId, x: Handler.Exchange)
    requires id in w.requests && w.requests[id].stage == StoreDone
    ensures var doneAs := w.requests[id].doneAs;
            var entries := Stored(w.entries, doneAs, true, x.store);
            LedTo(w, DoneAlone(w, id, x), id,
                  if x.store == Done && x.cool == Done && x.copies then entries
                  else Removed(entries, doneAs, x.cleanup))
  {
    var w1 := Next(w, StoresDone(id, x.store));
    assert w1.requests == w.requests[id := w1.requests[id]];
    if x.store == Done {
      var w2 := Next(w1, StartsCoolDown(id, x.cool == Done));
      assert w2.requests == w.requests[id := w2.requests[id]];
    }
  }

  /** The steps of a leader that is left alone amount to the handler's way from there on, whatever
      fails of them. */
  lemma LeadingAloneIsAtomic(c: Config, d: DetectorState, w: World, id: RequestId, x: Handler.Exchange, now: Time)
    requires id in w.requests && w.requests[id].stage == Forward
    ensures LedTo(w, LeadsAlone(w, id, x), id,
                  Handler.AfterLeading(c, State(d, w.entries), w.requests[id].doneAs, x, now).entries)
  {
    if x.responds {
      DoneAloneIsAtomic(Next(w, Responds(id, true)), id, x);
    }
  }

  /** Excluding a change of fingerprint is needed too. Whether the backend responds or not, and
      whatever fails, the leader leaves its entry pending just when it is done as another, or when
      neither the write nor the removal takes effect. */
  lemma MovedKeyOrphansIff(w: World, id: RequestId, x: Handler.Exchange)
    requires id in w.requests && w.requests[id].stage == Forward && Pending(w, w.requests[id].f)
    ensures var f, doneAs := w.requests[id].f, w.requests[id].doneAs;
            var w' := LeadsAlone(w, id, x);
            && w'.requests[id].stage == Finished(Process)
            && (Pending(w', f) <==> doneAs != f || ((!x.responds || x.store == NotDone) && x.cleanup == NotDone))
            && (x.store == x.cool == x.cleanup == Done ==>
                  EntryOf(w'.entries, doneAs) == if x.responds && x.copies then Some(true) else None)
  {
    var f, doneAs := w.requests[id].f, w.requests[id].doneAs;
    var c, s := NewConfig(1, 1, 1), State(NewDetector(), w.entries);
    LeadingAloneIsAtomic(c, s.detector, w, id, x, 0);
    Handler.LeadingLeavesPendingIff(c, s, f, doneAs, x, 0);
    Handler.LeadingIsDone(c, s, doneAs, x, 0);
  }

  // ---- Runs, one step or one request after another ----

  /** Takes the step. */
  lemma Take(steps: seq<Step>, step: Step) returns (more: seq<Step>)
    requires Enabled(After(steps), step)
    ensures steps <= more && After(more) == Next(After(steps), step)
    ensures (step.StoresPending? ==> step.o != DoneWithError) && (step.CleansUp? ==> step.o != NotDone) ==>
              Reliable(steps) ==> Reliable(more)
    ensures (step.Arrives? ==> step.f == step.doneAs) ==> Stable(steps) ==> Stable(more)
  {
    more := steps + [step];
    OneMoreStep(steps, step);
  }

  /** A request arrives and learns whether there is a herd. */
  lemma Judge(steps: seq<Step>, id: RequestId, f: Fingerprint, doneAs: Fingerprint, herd: bool)
    returns (more: seq<Step>)
    requires id !in After(steps).requests
    ensures var w := After(steps);
            After(more) == w.(requests := w.requests[id := Request(f, doneAs, if herd then AskExists else RemoveCalm)])
    ensures steps <= more && (Reliable(steps) ==> Reliable(more)) && (Stable(steps) && f == doneAs ==> Stable(more))
  {
    var w := After(steps);
    more := Take(steps, Arrives(id, f, doneAs));
    assert After(more) == w.(requests := w.requests[id := Request(f, doneAs, AskCoolDown)]);
    more := Take(more, Cool(id, No));
    assert After(more) == w.(requests := w.requests[id := Request(f, doneAs, AskHerd)]);
    more := Take(more, Herd(id, if herd then Yes else No));
  }

  /** A request arrives in a herd and becomes the leader. */
  lemma Lead(steps: seq<Step>, id: RequestId, f: Fingerprint, doneAs: Fingerprint) returns (more: seq<Step>)
    requires id !in After(steps).requests && f !in After(steps).entries
    ensures var w := After(steps);
            After(more)
              == World(w.entries[f := false], w.requests[id := Request(f, doneAs, Forward)], w.writer[f := id])
    ensures steps <= more && (Reliable(steps) ==> Reliable(more)) && (Stable(steps) && f == doneAs ==> Stable(more))
  {
    var w := After(steps);
    more := Judge(steps, id, f, doneAs, true);
    more := Take(more, ReadsExists(id, true));
    assert After(more) == w.(requests := w.requests[id := Request(f, doneAs, StorePending)]);
    more := Take(more, StoresPending(id, Done));
  }

  /** A leader gives up. */
  lemma GiveUp(steps: seq<Step>, id: RequestId, o: Outcome) returns (more: seq<Step>)
    requires id in After(steps).requests && After(steps).requests[id].stage == Forward
    ensures var w := After(steps);
            var r := w.requests[id];
            After(more)
              == World(Removed(w.entries, r.doneAs, o), w.requests[id := r.(stage := Finished(Process))], w.writer)
  {
    var w := After(steps);
    more := Take(steps, Responds(id, false));
    assert After(more) == w.(requests := w.requests[id := w.requests[id].(stage := CleanUp)]);
    more := Take(more, CleansUp(id, o));
  }

  /** Each of the three ways to leave an orphan can happen: here it is left by the only request,
      which is finished. */
  lemma FirstWriteCanOrphan(f: Fingerprint) returns (steps: seq<Step>)
    ensures Pending(After(steps), f) && After(steps).requests == map[0 := Request(f, f, Finished(Failed))]
  {
    steps := Judge([], 0, f, f, true);
    steps := Take(steps, ReadsExists(0, true));
    assert After(steps).requests == map[0 := Request(f, f, StorePending)];
    steps := Take(steps, StoresPending(0, DoneWithError));
  }

  lemma FailedRemovalCanOrphan(f: Fingerprint) returns (steps: seq<Step>)
    ensures Pending(After(steps), f) && After(steps).requests == map[0 := Request(f, f, Finished(Process))]
  {
    steps := Lead([], 0, f, f);
    steps := GiveUp(steps, 0, NotDone);
  }

  lemma MovedKeyCanOrphan(f: Fingerprint, g: Fingerprint) returns (steps: seq<Step>)
    requires f != g
    ensures Pending(After(steps), f) && After(steps).requests == map[0 := Request(f, g, Finished(Process))]
  {
    steps := Lead([], 0, f, g);
    steps := GiveUp(steps, 0, Done);
  }

  // ---- How leaders finish ----

  // The step was taken.
  ghost predicate Happened(steps: seq<Step>, step: Step) {
    exists i: nat :: TakesEffect(steps, i) && steps[i] == step
  }

  lemma HappenedBefore(steps: seq<Step>, step: Step)
    requires steps != [] && Happened(steps[..|steps| - 1], step)
    ensures Happened(steps, step)
  {
    var init := steps[..|steps| - 1];
    var i: nat :| TakesEffect(init, i) && init[i] == step;
    assert init[..i] == steps[..i];
    assert TakesEffect(steps, i);
  }

  lemma HappensLast(steps: seq<Step>)
    requires steps != [] && Enabled(After(steps[..|steps| - 1]), steps[|steps| - 1])
    ensures Happened(steps, steps[|steps| - 1])
  {
    assert TakesEffect(steps, |steps| - 1);
  }

  // What a request at this stage has behind it.
  ghost predicate Behind(steps: seq<Step>, id: RequestId, stage: Stage) {
    match stage
    case StoreDone => Happened(steps, Responds(id, true))
    case CoolDown => Happened(steps, Responds(id, true)) && Happened(steps, StoresDone(id, Done))
    case CopyBody =>
      && Happened(steps, Responds(id, true)) && Happened(steps, StoresDone(id, Done))
      && Happened(steps, StartsCoolDown(id, true))
    case Finished(status) =>
      status == Process ==>
        || (exists o :: Happened(steps, CleansUp(id, o)))
        || (&& Happened(steps, Responds(id, true)) && Happened(steps, StoresDone(id, Done))
            && Happened(steps, StartsCoolDown(id, true)) && Happened(steps, Copies(id, true)))
    case _ => true
  }

  lemma StaysBehind(steps: seq<Step>, id: RequestId, stage: Stage)
    requires steps != [] && Behind(steps[..|steps| - 1], id, stage)
    ensures Behind(steps, id, stage)
  {
    var init := steps[..|steps| - 1];
    forall step | Happened(init, step)
      ensures Happened(steps, step)
    {
      HappenedBefore(steps, step);
    }
    if stage == Finished(Process) && exists o :: Happened(init, CleansUp(id, o)) {
      var o :| Happened(init, CleansUp(id, o));
      assert Happened(steps, CleansUp(id, o));
    }
  }

  // By which step, and from where, a request gets to the stages of a leader.
  lemma StageBefore(w: World, step: Step)
    requires Enabled(w, step)
    ensures var stage' := Next(w, step).requests[step.id].stage;
            && (stage' == StoreDone ==> step == Responds(step.id, true))
            && (stage' == CoolDown ==> step == StoresDone(step.id, Done))
            && (stage' == CopyBody ==> step == StartsCoolDown(step.id, true))
            && (stage' == Finished(Process) ==>
                  step == Copies(step.id, true) || (step.CleansUp? && step == CleansUp(step.id, step.o)))
    ensures !step.Arrives? ==> w.requests[step.id].stage == StageOf(step)
  {
  }

  // One step further.
  lemma StepBehind(steps: seq<Step>, step: Step, before: Stage, after: Stage)
    requires Happened(steps, step)
    requires !step.Arrives? ==> before == StageOf(step) && Behind(steps, step.id, before)
    requires after == StoreDone ==> step == Responds(step.id, true)
    requires after == CoolDown ==> step == StoresDone(step.id, Done)
    requires after == CopyBody ==> step == StartsCoolDown(step.id, true)
    requires after == Finished(Process) ==>
               step == Copies(step.id, true) || (step.CleansUp? && step == CleansUp(step.id, step.o))
    ensures Behind(steps, step.id, after)
  {
  }

  /** In every run a request that led is finished either by cleaning up, or because the backend
      responded, its entry was written as processed, the cooldown was started and the body copied. */
  lemma {:induction false} LeadersFinish(steps: seq<Step>, id: RequestId)
    requires id in After(steps).requests
    ensures Behind(steps, id, After(steps).requests[id].stage)
  {
    if steps != [] {
      var init, step := steps[..|steps| - 1], steps[|steps| - 1];
      if id in After(init).requests {
        LeadersFinish(init, id);
        StaysBehind(steps, id, After(init).requests[id].stage);
      }
      if Enabled(After(init), step) && step.id == id {
        HappensLast(steps);
        StageBefore(After(init), step);
        StepBehind(steps, step, if step.Arrives? then AskCoolDown else After(init).requests[id].stage,
                   After(steps).requests[id].stage);
      }
    }
  }

  // ---- How entries come and go ----

  // The step writes the entry of `f`.
  predicate Writes(w: World, step: Step, f: Fingerprint)
    requires Enabled(w, step)
  {
    || (step.StoresPending? && w.requests[step.id].f == f && step.o != NotDone)
    || (step.StoresDone? && w.requests[step.id].doneAs == f && step.o != NotDone)
  }

  // It removes the entry: an evaluation that saw no herd, or a leader that gives up.
  predicate Removes(w: World, step: Step, f: Fingerprint)
    requires Enabled(w, step)
  {
    || (step.RemovesCalm? && w.requests[step.id].f == f && step.o != NotDone)
    || (step.CleansUp? && w.requests[step.id].doneAs == f && step.o != NotDone)
  }

  predicate WritesAt(steps: seq<Step>, i: nat, f: Fingerprint) {
    TakesEffect(steps, i) && Writes(After(steps[..i]), steps[i], f)
  }

  predicate RemovesAt(steps: seq<Step>, i: nat, f: Fingerprint) {
    TakesEffect(steps, i) && Removes(After(steps[..i]), steps[i], f)
  }

  // The entry was written by the i-th step, and not removed since.
  ghost predicate StandsSince(steps: seq<Step>, i: nat, f: Fingerprint) {
    WritesAt(steps, i, f) && forall k | i < k < |steps| :: !RemovesAt(steps, k, f)
  }

  lemma StepOnEntry(w: World, step: Step, f: Fingerprint)
    requires Enabled(w, step)
    ensures f in Next(w, step).entries <==> Writes(w, step, f) || (f in w.entries && !Removes(w, step, f))
  {
  }

  lemma AtInPrefix(steps: seq<Step>, n: nat, i: nat, f: Fingerprint)
    requires i < n <= |steps|
    ensures WritesAt(steps[..n], i, f) == WritesAt(steps, i, f)
    ensures RemovesAt(steps[..n], i, f) == RemovesAt(steps, i, f)
  {
    assert steps[..n][..i] == steps[..i];
  }

  lemma StandsLonger(steps: seq<Step>, i: nat, f: Fingerprint)
    requires steps != [] && i < |steps| - 1
    ensures var last := |steps| - 1;
            StandsSince(steps, i, f) <==> StandsSince(steps[..last], i, f) && !RemovesAt(steps, last, f)
  {
    var last := |steps| - 1;
    forall k | i <= k < last
      ensures WritesAt(steps[..last], k, f) == WritesAt(steps, k, f)
      ensures RemovesAt(steps[..last], k, f) == RemovesAt(steps, k, f)
    {
      AtInPrefix(steps, last, k, f);
    }
  }

  /** An entry is present just when it was written and not removed since. */
  lemma {:induction false} PresentIffStands(steps: seq<Step>, f: Fingerprint)
    ensures f in After(steps).entries <==> exists i :: StandsSince(steps, i, f)
  {
    if steps != [] {
      var last := |steps| - 1;
      PresentIffStands(steps[..last], f);
      forall i: nat | i < last
        ensures StandsSince(steps, i, f) <==> StandsSince(steps[..last], i, f) && !RemovesAt(steps, last, f)
      {
        StandsLonger(steps, i, f);
      }
      if Enabled(After(steps[..last]), steps[last]) {
        StepOnEntry(After(steps[..last]), steps[last], f);
      }
      if f in After(steps).entries {
        if WritesAt(steps, last, f) {
          assert StandsSince(steps, last, f);
        } else {
          var i :| StandsSince(steps[..last], i, f);
          assert StandsSince(steps, i, f);
        }
      }
    }
  }

  // ---- How long a pending entry lasts ----

  /** The steps that end it: the removal by an evaluation that saw no herd, or by a leader that
      gives up, and the write of a leader that is done. */
  predicate Ends(w: World, step: Step, f: Fingerprint)
    requires Enabled(w, step)
  {
    Removes(w, step, f) || (step.StoresDone? && Writes(w, step, f))
  }

  lemma StepEndsPendingIff(w: World, step: Step, f: Fingerprint)
    requires Pending(w, f) && Enabled(w, step)
    ensures !Pending(Next(w, step), f) <==> Ends(w, step, f)
  {
  }

  predicate EndsAt(steps: seq<Step>, i: nat, f: Fingerprint) {
    TakesEffect(steps, i) && Ends(After(steps[..i]), steps[i], f)
  }

  ghost predicate PendingFrom(steps: seq<Step>, i: nat, f: Fingerprint) {
    forall n | i <= n <= |steps| :: PendingAt(steps, n, f)
  }

  // After the first `n` steps.
  predicate PendingAt(steps: seq<Step>, n: nat, f: Fingerprint) {
    n <= |steps| && Pending(After(steps[..n]), f)
  }

  ghost predicate NotEndedFrom(steps: seq<Step>, i: nat, f: Fingerprint) {
    forall k | i <= k < |steps| :: !EndsAt(steps, k, f)
  }

  lemma PendingAtInPrefix(steps: seq<Step>, m: nat, n: nat, f: Fingerprint)
    requires n <= m <= |steps|
    ensures PendingAt(steps[..m], n, f) == PendingAt(steps, n, f)
    ensures n == |steps| ==> PendingAt(steps, n, f) == Pending(After(steps), f)
  {
    assert steps[..m][..n] == steps[..n];
    assert n == |steps| ==> steps[..n] == steps;
  }

  lemma PendingFromInPrefix(steps: seq<Step>, i: nat, f: Fingerprint)
    requires i < |steps|
    ensures PendingFrom(steps, i, f) <==> PendingFrom(steps[..|steps| - 1], i, f) && PendingAt(steps, |steps|, f)
  {
    var init := steps[..|steps| - 1];
    if PendingFrom(steps, i, f) {
      assert PendingAt(steps, |steps|, f);
      forall n | i <= n <= |init|
        ensures PendingAt(init, n, f)
      {
        assert PendingAt(steps, n, f);
        PendingAtInPrefix(steps, |init|, n, f);
      }
    } else if PendingFrom(init, i, f) {
      var n: nat :| i <= n <= |steps| && !PendingAt(steps, n, f);
      if n <= |init| {
        assert PendingAt(init, n, f);
        PendingAtInPrefix(steps, |init|, n, f);
      }
    }
  }

  lemma NotEndedFromInPrefix(steps: seq<Step>, i: nat, f: Fingerprint)
    requires i < |steps|
    ensures var last := |steps| - 1;
            NotEndedFrom(steps, i, f) <==> NotEndedFrom(steps[..last], i, f) && !EndsAt(steps, last, f)
  {
    var init := steps[..|steps| - 1];
    forall k | i <= k < |init|
      ensures EndsAt(init, k, f) == EndsAt(steps, k, f)
    {
      assert init[..k] == steps[..k];
    }
  }

  /** Whoever has stored it, and whether or not they are still there, a pending entry lasts until
      such a step. */
  lemma {:induction false} PendingLastsIff(steps: seq<Step>, i: nat, f: Fingerprint)
    requires PendingAt(steps, i, f)
    ensures PendingFrom(steps, i, f) <==> NotEndedFrom(steps, i, f)
    decreases |steps|
  {
    if i < |steps| {
      var last := |steps| - 1;
      var init := steps[..last];
      PendingFromInPrefix(steps, i, f);
      NotEndedFromInPrefix(steps, i, f);
      PendingAtInPrefix(steps, last, i, f);
      PendingLastsIff(init, i, f);
      if PendingFrom(init, i, f) {
        PendingAtInPrefix(init, last, last, f);
        PendingAtInPrefix(steps, |steps|, |steps|, f);
        LastStepEndsPendingIff(steps, f);
      }
    }
  }

  lemma LastStepEndsPendingIff(steps: seq<Step>, f: Fingerprint)
    requires steps != [] && Pending(After(steps[..|steps| - 1]), f)
    ensures Pending(After(steps), f) <==> !EndsAt(steps, |steps| - 1, f)
  {
    var last := |steps| - 1;
    if Enabled(After(steps[..last]), steps[last]) {
      StepEndsPendingIff(After(steps[..last]), steps[last], f);
    }
  }

  // A herd is told to wait.
  lemma PendingMeansWait(w: World, step: Step, f: Fingerprint)
    requires Pending(w, f) && Enabled(w, step) && !step.Arrives? && w.requests[step.id].f == f
    ensures step.ReadsExists? && step.ok ==> Next(w, step).requests[step.id].stage == AskProcessed
    ensures step.ReadsProcessed? && step.ok ==> Next(w, step).requests[step.id].stage == Finished(Wait)
  {
  }

  /** Until then every request of the herd is told to wait, unless it fails; only who has found
      no entry before can become a leader. */
  lemma HerdWaitsWhilePending(steps: seq<Step>, i: nat, k: nat, f: Fingerprint)
    requires i <= k && TakesEffect(steps, k) && PendingAt(steps, i, f)
    requires NotEndedFrom(steps[..k], i, f)
    requires var step := steps[k]; !step.Arrives? && After(steps[..k]).requests[step.id].f == f
    ensures var step := steps[k];
            var stage := Next(After(steps[..k]), step).requests[step.id].stage;
            && (step.ReadsExists? && step.ok ==> stage == AskProcessed)
            && (step.ReadsProcessed? && step.ok ==> stage == Finished(Wait))
            && (step.StoresPending? ==> exists m: nat :: m < i && FoundNothing(steps, m, step.id))
  {
    var before := steps[..k];
    PendingAtInPrefix(steps, k, i, f);
    PendingLastsIff(before, i, f);
    forall n | i <= n <= k
      ensures PendingAt(steps, n, f)
    {
      PendingAtInPrefix(steps, k, n, f);
      assert PendingAt(before, n, f);
    }
    assert PendingAt(steps, k, f);
    PendingMeansWait(After(steps[..k]), steps[k], f);
    if steps[k].StoresPending? {
      assert forall n | i <= n <= k :: PendingAt(steps, n, f) && f in After(steps[..n]).entries;
      LeaderLookedBefore(steps, i, k);
    }
  }

  /** An orphan is not for good: the next evaluation that sees no herd removes it. */
  lemma CalmEvaluationRemoves(steps: seq<Step>, id: RequestId, f: Fingerprint, doneAs: Fingerprint)
    returns (more: seq<Step>)
    requires id !in After(steps).requests
    ensures steps <= more && After(more).entries == After(steps).entries - {f}
    ensures After(more).requests == After(steps).requests[id := Request(f, doneAs, Finished(OpenGates))]
  {
    more := Judge(steps, id, f, doneAs, false);
    more := Take(more, RemovesCalm(id, Done));
  }

  // ---- When two lead ----

  // The i-th step is the read by which the request found no entry.
  ghost predicate FoundNothing(steps: seq<Step>, i: nat, id: RequestId) {
    && i < |steps| && steps[i] == ReadsExists(id, true)
    && Enabled(After(steps[..i]), steps[i])
    && After(steps[..i]).requests[id].f !in After(steps[..i]).entries
  }

  // A request about to store a pending entry found none before, and keeps its fingerprint.
  lemma {:induction false} ReadComesFirst(steps: seq<Step>, id: RequestId) returns (i: nat)
    requires id in After(steps).requests && After(steps).requests[id].stage == StorePending
    ensures FoundNothing(steps, i, id) && After(steps[..i]).requests[id].f == After(steps).requests[id].f
  {
    var last := |steps| - 1;
    var init := steps[..last];
    if steps[last].id == id && Enabled(After(init), steps[last]) {
      i := last;
    } else {
      i := ReadComesFirst(init, id);
      assert init[..i] == steps[..i];
    }
  }

  /** As long as an entry is present only those lead who looked before: if the entry of a
      fingerprint is present from the `a`-th step on until a request becomes its leader by the
      `j`-th, that request had found no entry before the `a`-th. */
  lemma LeaderLookedBefore(steps: seq<Step>, a: nat, j: nat)
    requires a <= j < |steps| && steps[j].StoresPending? && Enabled(After(steps[..j]), steps[j])
    requires var f := After(steps[..j]).requests[steps[j].id].f;
             forall k | a <= k <= j :: f in After(steps[..k]).entries
    ensures exists i: nat :: i < a && FoundNothing(steps, i, steps[j].id)
  {
    var before := steps[..j];
    var i := ReadComesFirst(before, steps[j].id);
    assert before[..i] == steps[..i];
    assert FoundNothing(steps, i, steps[j].id);
  }

  /** A read finds no entry just when every write before it was followed by a removal. */
  lemma FindsNothingIff(steps: seq<Step>, m: nat, id: RequestId)
    requires TakesEffect(steps, m) && steps[m] == ReadsExists(id, true)
    ensures var f := After(steps[..m]).requests[id].f;
            FoundNothing(steps, m, id) <==>
              forall i: nat | i < m && WritesAt(steps, i, f) :: exists k :: i < k < m && RemovesAt(steps, k, f)
  {
    var f := After(steps[..m]).requests[id].f;
    var before := steps[..m];
    PresentIffStands(before, f);
    forall i: nat | i < m
      ensures WritesAt(before, i, f) == WritesAt(steps, i, f)
      ensures RemovesAt(before, i, f) == RemovesAt(steps, i, f)
    {
      AtInPrefix(steps, m, i, f);
    }
    if FoundNothing(steps, m, id) {
      forall i: nat | i < m && WritesAt(steps, i, f)
        ensures exists k :: i < k < m && RemovesAt(steps, k, f)
      {
        assert !StandsSince(before, i, f);
        var k :| i < k < m && RemovesAt(before, k, f);
      }
    } else {
      var i :| StandsSince(before, i, f);
      assert WritesAt(steps, i, f);
    }
  }

  /** A request leads after another has stored only if it had found no entry before, or an entry
      was removed in between: by an evaluation that saw no herd, or by a leader that gave up. */
  lemma SecondLeaderOnlyIf(steps: seq<Step>, i: nat, j: nat, f: Fingerprint)
    requires i < j && WritesAt(steps, i, f)
    requires TakesEffect(steps, j) && steps[j].StoresPending? && After(steps[..j]).requests[steps[j].id].f == f
    ensures (exists m: nat :: m < i && FoundNothing(steps, m, steps[j].id))
            || exists k :: i < k < j && RemovesAt(steps, k, f)
  {
    if forall k | i < k < j :: !RemovesAt(steps, k, f) {
      forall n | i + 1 <= n <= j
        ensures f in After(steps[..n]).entries
      {
        StandsThrough(steps, i, n, f);
      }
      LeaderLookedBefore(steps, i + 1, j);
      var m: nat :| m < i + 1 && FoundNothing(steps, m, steps[j].id);
      assert m != i;
    }
  }

  lemma StandsThrough(steps: seq<Step>, i: nat, n: nat, f: Fingerprint)
    requires i < n <= |steps| && WritesAt(steps, i, f) && forall k | i < k < n :: !RemovesAt(steps, k, f)
    ensures f in After(steps[..n]).entries
  {
    forall k: nat | i <= k < n
      ensures WritesAt(steps[..n], k, f) == WritesAt(steps, k, f)
      ensures RemovesAt(steps[..n], k, f) == RemovesAt(steps, k, f)
    {
      AtInPrefix(steps, n, k, f);
    }
    assert StandsSince(steps[..n], i, f);
    PresentIffStands(steps[..n], f);
  }

  predicate Leads(w: World, id: RequestId, f: Fingerprint) {
    && id in w.requests && w.requests[id].f == f
    && w.requests[id].stage in {Forward, StoreDone, CoolDown, CopyBody, CleanUp}
  }

  // Who leads has stored a pending entry.
  lemma {:induction false} LeaderStored(steps: seq<Step>, id: RequestId, f: Fingerprint) returns (i: nat)
    requires Leads(After(steps), id, f)
    ensures i < |steps| && steps[i] == StoresPending(id, Done) && TakesEffect(steps, i)
    ensures After(steps[..i]).requests[id].f == f
  {
    var last := |steps| - 1;
    var init := steps[..last];
    if steps[last] == StoresPending(id, Done) && Enabled(After(init), steps[last]) {
      i := last;
    } else {
      i := LeaderStored(init, id, f);
      assert init[..i] == steps[..i];
    }
  }

  // The j-th step makes a second leader, in one of the two ways.
  ghost predicate SecondLeader(steps: seq<Step>, i: nat, j: nat, f: Fingerprint) {
    && i < j && WritesAt(steps, i, f) && WritesAt(steps, j, f)
    && ((exists m: nat :: m < i && FoundNothing(steps, m, steps[j].id))
        || exists k :: i < k < j && RemovesAt(steps, k, f))
  }

  /** Two requests lead at once only if the later of them looked before the earlier stored, or the
      earlier one's entry was removed before the later stored. */
  lemma TwoLeadOnlyIf(steps: seq<Step>, a: RequestId, b: RequestId, f: Fingerprint)
    requires a != b && Leads(After(steps), a, f) && Leads(After(steps), b, f)
    ensures exists i: nat, j: nat :: SecondLeader(steps, i, j, f)
                           && (steps[i] == StoresPending(a, Done) || steps[i] == StoresPending(b, Done))
                           && (steps[j] == StoresPending(a, Done) || steps[j] == StoresPending(b, Done))
  {
    var i := LeaderStored(steps, a, f);
    var j := LeaderStored(steps, b, f);
    if i < j {
      SecondLeaderOnlyIf(steps, i, j, f);
      assert SecondLeader(steps, i, j, f);
    } else {
      SecondLeaderOnlyIf(steps, j, i, f);
      assert SecondLeader(steps, j, i, f);
    }
  }

  /** The first way: both look before either stores. */
  lemma TwoCanLead(w: World, a: RequestId, b: RequestId, f: Fingerprint)
    requires a != b && f !in w.entries
    requires a in w.requests && w.requests[a].f == f && w.requests[a].stage == AskExists
    requires b in w.requests && w.requests[b].f == f && w.requests[b].stage == AskExists
    ensures var w1 := Next(Next(w, ReadsExists(a, true)), ReadsExists(b, true));
            var w2 := Next(Next(w1, StoresPending(a, Done)), StoresPending(b, Done));
            w2.requests[a].stage == w2.requests[b].stage == Forward
  {
  }

  lemma TwoLeadByLooking(f: Fingerprint) returns (steps: seq<Step>)
    ensures Reliable(steps) && Stable(steps) && Leads(After(steps), 0, f) && Leads(After(steps), 1, f)
  {
    steps := Judge([], 0, f, f, true);
    steps := Judge(steps, 1, f, f, true);
    ghost var w := After(steps);
    steps := Take(steps, ReadsExists(0, true));
    assert After(steps) == w.(requests := w.requests[0 := Request(f, f, StorePending)]);
    steps := Take(steps, ReadsExists(1, true));
    TwoCanLead(w, 0, 1, f);
    steps := Take(steps, StoresPending(0, Done));
    steps := Take(steps, StoresPending(1, Done));
  }

  /** The second way, without a race for the entry: a request that was evaluated before the herd
      removes the leader's entry only after that was stored, and then another request arrives. */
  lemma TwoLeadByRemoval(f: Fingerprint) returns (steps: seq<Step>, n: nat)
    ensures Reliable(steps) && Stable(steps) && Leads(After(steps), 0, f) && Leads(After(steps), 1, f)
    ensures n <= |steps| && Leads(After(steps[..n]), 0, f) && 1 !in After(steps[..n]).requests
  {
    steps := Judge([], 2, f, f, false);
    steps := Lead(steps, 0, f, f);
    n := |steps|;
    ghost var led := steps;
    steps := Take(steps, RemovesCalm(2, Done));
    steps := Lead(steps, 1, f, f);
    assert steps[..n] == led;
  }

  // ---- A request on its own ----

  /** What a request does from `AskCoolDown` until it leads or is finished, if nobody comes in
      between. */
  function Alone(w: World, id: RequestId, cool: Answer, herd: Answer, o: Outcomes): World
    requires id in w.requests && w.requests[id].stage == AskCoolDown
  {
    var w1 := Next(w, Cool(id, cool));
    if cool == No then JudgedAlone(w1, id, herd, o) else w1
  }

  function JudgedAlone(w: World, id: RequestId, herd: Answer, o: Outcomes): World
    requires id in w.requests && w.requests[id].stage == AskHerd
  {
    var w1 := Next(w, Herd(id, herd));
    match herd
    case Error => w1
    case No => Next(w1, RemovesCalm(id, o.remove))
    case Yes => AnalyzedAlone(w1, id, o)
  }

  function AnalyzedAlone(w: World, id: RequestId, o: Outcomes): World
    requires id in w.requests && w.requests[id].stage == AskExists
  {
    var w1 := Next(w, ReadsExists(id, o.found == Done));
    if o.found != Done then w1
    else if w.requests[id].f in w.entries then Next(w1, ReadsProcessed(id, o.processed == Done))
    else Next(w1, StoresPending(id, o.store))
  }

  // From `w` to `w'` the request gets `status`, leaving `entries`.
  ghost predicate Amounts(w: World, w': World, id: RequestId, entries: Entries, status: Status)
    requires id in w.requests
  {
    var r := w.requests[id];
    var stage := if status == Process then Forward else Finished(status);
    w'.requests == w.requests[id := Request(r.f, r.doneAs, stage)] && w'.entries == entries
  }

  lemma AnalyzedAloneIsAtomic(w: World, id: RequestId, o: Outcomes)
    requires id in w.requests && w.requests[id].stage == AskExists
    ensures var (entries, status) := Analyzed(w.entries, w.requests[id].f, o);
            Amounts(w, AnalyzedAlone(w, id, o), id, entries, status)
  {
  }

  lemma JudgedAloneIsAtomic(w: World, id: RequestId, herd: Answer, o: Outcomes)
    requires id in w.requests && w.requests[id].stage == AskHerd
    ensures var (entries, status) :=
              if herd == Error then (w.entries, Failed) else Gated(w.entries, w.requests[id].f, herd == Yes, o);
            Amounts(w, JudgedAlone(w, id, herd, o), id, entries, status)
  {
    if herd == Yes {
      AnalyzedAloneIsAtomic(Next(w, Herd(id, Yes)), id, o);
    }
  }

  // What an operation of the detector answers the request.
  function AnswerOf(answer: bool, o: Outcome): Answer {
    if o != Done then Error else if answer then Yes else No
  }

  /** The steps of a request that is left alone amount to one atomic call of Evaluate, whatever
      fails of them. */
  lemma AloneIsAtomic(c: Config, d: DetectorState, w: World, id: RequestId, now: Time, drawAt: Time, o: Outcomes)
    requires id in w.requests && w.requests[id].stage == AskCoolDown
    ensures var f := w.requests[id].f;
            var cool, herd := AnswerOf(IsCool(d, f), o.cool), AnswerOf(IsHerd(c, d, f, drawAt), o.herd);
            var (s, status) := Evaluated(c, State(d, w.entries), f, now, drawAt, o);
            Amounts(w, Alone(w, id, cool, herd, o), id, s.entries, status)
  {
    var f := w.requests[id].f;
    EntriesEvaluated(c, State(d, w.entries), f, now, drawAt, o);
    if o.cool == Done && !IsCool(d, f) {
      JudgedAloneIsAtomic(Next(w, Cool(id, No)), id, AnswerOf(IsHerd(c, d, f, drawAt), o.herd), o);
    }
  }

  // What becomes of the request after the evaluation.
  lemma FinishesAlone(c: Config, s: State, w: World, w1: World, id: RequestId, status: Status,
                      x: Handler.Exchange, now: Time)
    requires id in w.requests && Amounts(w, w1, id, s.entries, status)
    ensures var r := w.requests[id];
            var w2 := if w1.requests[id].stage == Forward then LeadsAlone(w1, id, x) else w1;
            && w2.entries == (if status == Process then Handler.AfterLeading(c, s, r.doneAs, x, now) else s).entries
            && w2.requests == w.requests[id := r.(stage := Finished(status))]
  {
    if status == Process {
      LeadingAloneIsAtomic(c, s.detector, w1, id, x, now);
    }
  }

  /** And all of its steps amount to the handler serving it. */
  lemma ServedAlone(c: Config, d: DetectorState, w: World, id: RequestId, o: Outcomes, x: Handler.Exchange,
                    now: Time, drawAt: Time, doneAt: Time)
    requires id in w.requests && w.requests[id].stage == AskCoolDown
    ensures var r, s := w.requests[id], State(d, w.entries);
            var cool, herd := AnswerOf(IsCool(d, r.f), o.cool), AnswerOf(IsHerd(c, d, r.f, drawAt), o.herd);
            var w1 := Alone(w, id, cool, herd, o);
            var w2 := if w1.requests[id].stage == Forward then LeadsAlone(w1, id, x) else w1;
            && w2.entries == Handler.Served(c, s, r.f, r.doneAs, o, x, now, drawAt, doneAt).0.entries
            && w2.requests
               == w.requests[id := r.(stage := Finished(Evaluated(c, s, r.f, now, drawAt, o).1))]
  {
    var r, s := w.requests[id], State(d, w.entries);
    var (s1, status) := Evaluated(c, s, r.f, now, drawAt, o);
    var w1 := Alone(w, id, AnswerOf(IsCool(d, r.f), o.cool), AnswerOf(IsHerd(c, d, r.f, drawAt), o.herd), o);
    AloneIsAtomic(c, d, w, id, now, drawAt, o);
    FinishesAlone(c, s1, w, w1, id, status, x, doneAt);
    Handler.ServedLeaves(c, s, r.f, r.doneAs, o, x, now, drawAt, doneAt);
  }
}
