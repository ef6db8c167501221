/**
 The loop after a create: reconcile, wait, double the delay, until three successful reconciles
 in a row named one ID or the attempts run out.  Volumes and snapshots share it.
 */
module Polling {
  import opened Cloud
  import opened Reconcile
  import opened Protocol

  // ---------- what a conversation shows ----------

  /** The result of the reconcile that this reply ends, if it ends one. */
  function Ending(pc: Pc, reply: Reply): seq<Sample>
    requires Accepts(pc, reply)
  {
    match pc
    case Listing(_, target, _) =>
      if reply.Failed? then [SampleOfError(reply.error)]
      else (
        match PlanFor(target, reply)
        case Clash => [Hard(AlreadyExistsCode)]
        case Absent => [Missing]
        case Keep(canonical, doomed) => if doomed == [] then [Found(canonical)] else [])
    case Purging(_, _, _, canonical, _, later) =>
      if !SoftDelete(reply) then [Hard(StatusOf(reply.error))]
      else if later == [] then [Found(canonical)] else []
    case _ => []
  }

  /** The results of the reconciles completed in a conversation. */
  function Samples(pc: Pc, log: seq<Exchange>): seq<Sample>
    requires Follows(pc, log)
    decreases |log|
  {
    if log == [] then [] else Ending(pc, log[0].reply) + Samples(Step(pc, log[0].reply), log[1..])
  }

  /** The IDs that the successful reconciles found; the others leave no trace. */
  function FoundIds(samples: seq<Sample>): seq<string> {
    if samples == [] then []
    else
      var last := samples[|samples| - 1];
      FoundIds(samples[..|samples| - 1]) + if last.Found? then [last.resource.Id()] else []
  }

  /** The last `n` successful reconciles found one ID. */
  predicate Agree(ids: seq<string>, n: nat) {
    n <= |ids| && forall i :: |ids| - n <= i < |ids| ==> ids[i] == ids[|ids| - 1]
  }

  function DelayOf(call: Call): nat {
    if call.Wait? then call.delay else 0
  }

  function Waited(log: seq<Exchange>): nat {
    if log == [] then 0 else DelayOf(log[0].call) + Waited(log[1..])
  }

  function IsListing(call: Call): nat {
    if call.ListVolumes? || call.ListSnapshots? then 1 else 0
  }

  function Listings(log: seq<Exchange>): nat {
    if log == [] then 0 else IsListing(log[0].call) + Listings(log[1..])
  }

  function Pow2(n: nat): nat {
    if n == 0 then 1 else 2 * Pow2(n - 1)
  }

  // ---------- the invariant ----------

  /** The loop's variables say how the samples so far end. */
  predicate Summarizes(previous: string, stable: nat, samples: seq<Sample>) {
    var ids := FoundIds(samples);
    && stable < STABLE_SAMPLES
    && (ids == [] ==> stable == 0)
    && (ids != [] ==> previous == ids[|ids| - 1] && 0 < stable && Agree(ids, stable) && !Agree(ids, stable + 1))
  }

  predicate AtStage(stage: Stage, samples: seq<Sample>, waited: nat) {
    match stage
    case Polling(round, previous, stable, delay) =>
      && round == |samples| < ATTEMPTS
      && delay == INITIAL_DELAY * Pow2(round)
      && waited == INITIAL_DELAY * (Pow2(round) - 1)
      && Summarizes(previous, stable, samples)
    case LastTry =>
      && |samples| == ATTEMPTS
      && waited == INITIAL_DELAY * (Pow2(ATTEMPTS) - 1)
      && !Agree(FoundIds(samples), STABLE_SAMPLES)
    case _ => false
  }

  /** The loop may hand out `id`: the last reconcile found it, and it was stable or the last try. */
  predicate MayReturn(samples: seq<Sample>, id: string) {
    && samples != []
    && samples[|samples| - 1].Found?
    && samples[|samples| - 1].resource.Id() == id
    && (|samples| == ATTEMPTS + 1 || Agree(FoundIds(samples), STABLE_SAMPLES))
  }

  predicate PollInv(pc: Pc, samples: seq<Sample>, waited: nat, listings: nat) {
    && |samples| <= ATTEMPTS + 1
    && waited <= INITIAL_DELAY * (Pow2(ATTEMPTS) - 1)
    && listings <= ATTEMPTS + 1
    && match pc
       case Listing(_, _, stage) => AtStage(stage, samples, waited) && listings == |samples|
       case Purging(_, _, stage, _, _, _) => AtStage(stage, samples, waited) && listings == |samples| + 1
       case Sleeping(_, _, stage, delay) =>
         AtStage(stage, samples, waited + delay) && listings == |samples|
       case Verifying(_, _, id) => MayReturn(samples, id)
       case Unlocking(_, outcome) =>
         outcome.Refused?
         || (outcome.Returned? && (outcome.resource.FoundSnapshot? ==> MayReturn(samples, outcome.resource.Id())))
       case Finished(outcome) => true
       case _ => false
  }

  lemma {:induction false} FoundIdsSnoc(samples: seq<Sample>, s: Sample)
    ensures FoundIds(samples + [s]) == FoundIds(samples) + if s.Found? then [s.resource.Id()] else []
  {
    assert (samples + [s])[..|samples|] == samples;
  }

  /** One more success counts up when it repeats the ID, and starts over when it does not. */
  lemma {:induction false} AgreeSnoc(ids: seq<string>, id: string, n: nat)
    requires n > 0
    ensures Agree(ids + [id], n) <==> n == 1 || (Agree(ids, n - 1) && ids[|ids| - 1] == id)
  {
    var more := ids + [id];
    if Agree(more, n) && n > 1 {
      assert more[|ids| - 1] == id;
      forall i | |ids| - (n - 1) <= i < |ids| ensures ids[i] == ids[|ids| - 1] {
        assert more[i] == id;
      }
    }
    if n > 1 && Agree(ids, n - 1) && ids[|ids| - 1] == id {
      forall i | |more| - n <= i < |more| ensures more[i] == id {
        if i < |ids| { assert ids[i] == more[i]; }
      }
    }
  }

  lemma {:induction false} SummarizesFound(stage: Stage, samples: seq<Sample>, c: Resource)
    requires stage.Polling? && Summarizes(stage.previous, stage.stable, samples)
    ensures var count := StableCount(stage, c.Id());
            var more := samples + [Found(c)];
            if count >= STABLE_SAMPLES then Agree(FoundIds(more), STABLE_SAMPLES)
            else Summarizes(c.Id(), count, more)
  {
    var ids := FoundIds(samples);
    var count := StableCount(stage, c.Id());
    FoundIdsSnoc(samples, Found(c));
    AgreeSnoc(ids, c.Id(), count);
    AgreeSnoc(ids, c.Id(), count + 1);
  }

  lemma {:induction false} AgreeFewer(ids: seq<string>, m: nat, n: nat)
    requires Agree(ids, n) && m <= n
    ensures Agree(ids, m)
  {
  }

  lemma {:induction false} NotStable(previous: string, stable: nat, samples: seq<Sample>)
    requires Summarizes(previous, stable, samples)
    ensures !Agree(FoundIds(samples), STABLE_SAMPLES)
  {
    if Agree(FoundIds(samples), STABLE_SAMPLES) {
      AgreeFewer(FoundIds(samples), stable + 1, STABLE_SAMPLES);
    }
  }

  /** The reconcile of one round ends with `s`. */
  lemma {:induction false} RoundEnds(lock: Lock, target: Target, stage: Stage, s: Sample, samples: seq<Sample>,
        waited: nat)
    requires AtStage(stage, samples, waited)
    requires s.Found? ==> (s.resource.FoundSnapshot? <==> target.SnapshotTarget?)
    ensures PollInv(AfterReconcile(lock, target, stage, s), samples + [s], waited, |samples| + 1)
  {
    FoundIdsSnoc(samples, s);
    match stage
    case LastTry =>
    case Polling(round, previous, stable, delay) =>
      assert Pow2(round + 1) == 2 * Pow2(round);
      PowMonotone(round + 1, ATTEMPTS);
      if s.Found? {
        SummarizesFound(stage, samples, s.resource);
        var count := StableCount(stage, s.resource.Id());
        if count < STABLE_SAMPLES {
          NotStable(s.resource.Id(), count, samples + [s]);
        }
      } else {
        assert FoundIds(samples + [s]) == FoundIds(samples);
        NotStable(previous, stable, samples + [s]);
      }
  }

  lemma {:induction false} PowMonotone(m: nat, n: nat)
    requires m <= n
    ensures Pow2(m) <= Pow2(n)
  {
    if m < n {
      PowMonotone(m, n - 1);
    }
  }

  predicate Typed(pc: Pc) {
    pc.Purging? ==> (pc.canonical.FoundSnapshot? <==> pc.target.SnapshotTarget?)
  }

  lemma {:induction false} StepKeepsTyped(pc: Pc, reply: Reply)
    requires Typed(pc) && Accepts(pc, reply)
    ensures Typed(Step(pc, reply))
  {
  }

  lemma {:induction false} RunKeepsTyped(pc: Pc, log: seq<Exchange>)
    requires Typed(pc) && Follows(pc, log)
    ensures Typed(After(pc, log))
    decreases |log|
  {
    if log != [] {
      StepKeepsTyped(pc, log[0].reply);
      RunKeepsTyped(Step(pc, log[0].reply), log[1..]);
    }
  }

  /** A reply that ends a reconcile moves the machine on with the sample. */
  lemma {:induction false} EndingIsReconcile(pc: Pc, reply: Reply)
    requires Accepts(pc, reply) && Typed(pc) && Ending(pc, reply) != []
    ensures pc.Listing? || pc.Purging?
    ensures var s := Ending(pc, reply)[0];
            && Ending(pc, reply) == [s]
            && Step(pc, reply) == AfterReconcile(pc.lock, pc.target, pc.stage, s)
            && (s.Found? ==> (s.resource.FoundSnapshot? <==> pc.target.SnapshotTarget?))
  {
  }

  /** Between reconciles, and inside one, no sample is added. */
  lemma {:induction false} QuietStep(pc: Pc, reply: Reply, samples: seq<Sample>, waited: nat, listings: nat)
    requires Accepts(pc, reply) && Ending(pc, reply) == []
    requires PollInv(pc, samples, waited, listings)
    ensures PollInv(Step(pc, reply), samples, waited + DelayOf(CallOf(pc)), listings + IsListing(CallOf(pc)))
  {
    match pc
    case Listing(lock, target, stage) => assert Step(pc, reply).Purging?;
    case Purging(lock, target, stage, c, next, later) => assert Step(pc, reply).Purging?;
    case Sleeping(lock, target, stage, delay) =>
    case Verifying(lock, spec, id) =>
    case Unlocking(lock, outcome) =>
  }

  lemma {:induction false} PollStep(pc: Pc, reply: Reply, samples: seq<Sample>, waited: nat, listings: nat)
    requires Accepts(pc, reply) && Typed(pc) && PollInv(pc, samples, waited, listings)
    ensures PollInv(Step(pc, reply), samples + Ending(pc, reply), waited + DelayOf(CallOf(pc)),
      listings + IsListing(CallOf(pc)))
  {
    if Ending(pc, reply) == [] {
      QuietStep(pc, reply, samples, waited, listings);
      assert samples + [] == samples;
    } else {
      EndingIsReconcile(pc, reply);
      RoundEnds(pc.lock, pc.target, pc.stage, Ending(pc, reply)[0], samples, waited);
    }
  }

  lemma {:induction false} PollForward(pc: Pc, log: seq<Exchange>, samples: seq<Sample>, waited: nat, listings: nat)
    requires Follows(pc, log) && Typed(pc) && PollInv(pc, samples, waited, listings)
    ensures PollInv(After(pc, log), samples + Samples(pc, log), waited + Waited(log), listings + Listings(log))
    decreases |log|
  {
    if log == [] {
      assert samples + [] == samples;
    } else {
      var reply := log[0].reply;
      PollStep(pc, reply, samples, waited, listings);
      StepKeepsTyped(pc, reply);
      var next, more := Step(pc, reply), samples + Ending(pc, reply);
      PollForward(next, log[1..], more, waited + DelayOf(CallOf(pc)), listings + IsListing(CallOf(pc)));
      Associate(samples, Ending(pc, reply), Samples(next, log[1..]));
    }
  }

  // ---------- the lock and the target of a loop ----------

  /** A create or snapshot request, once it has its target, stays with it and with its lock. */
  predicate Stays(pc: Pc, lock: Lock, target: Target) {
    match pc
    case Listing(l, t, _) => l == lock && t == target
    case Purging(l, t, _, _, _, _) => l == lock && t == target
    case Creating(l, t) => l == lock && t == target
    case Sleeping(l, t, _, _) => l == lock && t == target
    case Verifying(l, spec, _) => l == lock && VolumeTarget(spec) == target
    case Unlocking(l, _) => l == lock
    case Finished(_) => true
    case _ => false
  }

  lemma {:induction false} ReconcileStays(lock: Lock, target: Target, stage: Stage, sample: Sample)
    ensures Stays(AfterReconcile(lock, target, stage, sample), lock, target)
  {
  }

  lemma {:induction false} StepStays(pc: Pc, reply: Reply, lock: Lock, target: Target)
    requires Stays(pc, lock, target) && Accepts(pc, reply)
    ensures Stays(Step(pc, reply), lock, target)
  {
    if (pc.Listing? || pc.Purging?) && Ending(pc, reply) != [] {
      ReconcileStays(lock, target, pc.stage, Ending(pc, reply)[0]);
    }
  }

  lemma {:induction false} RunStays(pc: Pc, log: seq<Exchange>, lock: Lock, target: Target)
    requires Stays(pc, lock, target) && Follows(pc, log)
    ensures Stays(After(pc, log), lock, target)
    decreases |log|
  {
    if log != [] {
      StepStays(pc, log[0].reply, lock, target);
      RunStays(Step(pc, log[0].reply), log[1..], lock, target);
    }
  }

  // ---------- where a round leads ----------

  /** The resource is taken: a volume goes on to be verified by that ID, a snapshot is the answer. */
  predicate HandsOut(pc: Pc, lock: Lock, target: Target, c: Resource) {
    match target
    case VolumeTarget(spec) => pc == Verifying(lock, spec, c.Id())
    case SnapshotTarget(_, _, _) => pc == Unlocking(lock, Returned(c))
  }

  predicate Pauses(pc: Pc, lock: Lock, target: Target, delay: nat) {
    pc.Sleeping? && pc.lock == lock && pc.target == target && pc.delay == delay
  }

  /** Where the loop stands after its reconciles have come to `samples`. */
  predicate Leads(pc: Pc, lock: Lock, target: Target, samples: seq<Sample>)
    requires samples != []
  {
    var n := |samples|;
    match samples[n - 1]
    case Hard(code) => pc == Unlocking(lock, Refused(code))
    case Found(c) =>
      if n == 8 || Agree(FoundIds(samples), 3) then HandsOut(pc, lock, target, c)
      else Pauses(pc, lock, target, 100 * Pow2(n - 1))
    case Missing =>
      if n == 8 then pc == Unlocking(lock, Refused(UnavailableCode))
      else Pauses(pc, lock, target, 100 * Pow2(n - 1))
  }

  lemma {:induction false} RoundLeads(lock: Lock, target: Target, stage: Stage, s: Sample, samples: seq<Sample>,
        waited: nat)
    requires AtStage(stage, samples, waited)
    ensures Leads(AfterReconcile(lock, target, stage, s), lock, target, samples + [s])
  {
    FoundIdsSnoc(samples, s);
    if stage.Polling? && s.Found? {
      SummarizesFound(stage, samples, s.resource);
      var count := StableCount(stage, s.resource.Id());
      if count < STABLE_SAMPLES {
        NotStable(s.resource.Id(), count, samples + [s]);
      }
    }
  }

  // ---------- the theorems ----------

  /** The loop is over: it is neither reconciling nor waiting. */
  predicate LeftLoop(pc: Pc) {
    !pc.Listing? && !pc.Purging? && !pc.Sleeping?
  }

  /**
   Whatever the provider answers, the loop after a create lists at most 8 times and waits at
   most 12.7 s in all; it hands out only the ID its last reconcile found, and before the last
   try only one that the last three successful reconciles agreed on, reconciles that found
   nothing not counting; and it does not go on once three agree.
   */
  lemma {:induction false} PollingBounded(lock: Lock, target: Target, log: seq<Exchange>)
    requires Follows(Listing(lock, target, FirstPoll()), log)
    ensures var start := Listing(lock, target, FirstPoll());
            var pc, samples := After(start, log), Samples(start, log);
            && Listings(log) <= 8
            && |samples| <= 8
            && Waited(log) <= 12700
            && (pc.Verifying? ==> MayReturn(samples, pc.id))
            && (pc.Unlocking? && pc.outcome.Returned? && pc.outcome.resource.FoundSnapshot? ==>
                  MayReturn(samples, pc.outcome.resource.Id()))
            && (Agree(FoundIds(samples), 3) ==> LeftLoop(pc))
  {
    var start := Listing(lock, target, FirstPoll());
    assert FoundIds([]) == [];
    PollForward(start, log, [], 0, 0);
    assert [] + Samples(start, log) == Samples(start, log);
    var pc, samples := After(start, log), Samples(start, log);
    assert Pow2(7) == 128;
    if (pc.Listing? || pc.Purging? || pc.Sleeping?) && pc.stage.Polling? {
      NotStable(pc.stage.previous, pc.stage.stable, samples);
    }
  }
}
