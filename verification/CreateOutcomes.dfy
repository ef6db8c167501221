/**
 What a create of a volume or snapshot answers to what it is told, for every provider.  Between
 its lock and its unlock it reconciles, creates, and reconciles again; where each reconcile leads
 is told by the conversation alone: whether the creation was made, what came of it, and the
 results of the reconciles so far.
 */
module CreateOutcomes {
  import opened Cloud
  import opened Reconcile
  import opened Protocol
  import opened Locking
  import opened Polling
  import opened Outcomes

  function CreationReply(e: Exchange): seq<Reply> {
    if e.call.CreateVolume? || e.call.CreateSnapshot? then [e.reply] else []
  }

  /** The replies to the creations in a conversation. */
  function Created(log: seq<Exchange>): seq<Reply> {
    if log == [] then [] else CreationReply(log[0]) + Created(log[1..])
  }

  // ---------- the invariant ----------

  predicate StageFits(target: Target, stage: Stage, samples: seq<Sample>, created: seq<Reply>, waited: nat) {
    match stage
    case BeforeCreate => samples == [] && created == [] && waited == 0
    case AfterExists =>
      samples == [Missing] && created == [Failed(AlreadyExists)] && target.VolumeTarget? && waited == 0
    case _ => samples != [] && samples[0] == Missing && created == [Ok] && AtStage(stage, samples[1..], waited)
  }

  predicate Phase(pc: Pc, samples: seq<Sample>, created: seq<Reply>, waited: nat) {
    match pc
    case Listing(_, target, stage) => StageFits(target, stage, samples, created, waited)
    case Purging(_, target, stage, _, _, _) => StageFits(target, stage, samples, created, waited)
    case Creating(_, _) => samples == [Missing] && created == [] && waited == 0
    case Sleeping(_, target, stage, delay) =>
      (stage.Polling? || stage.LastTry?) && StageFits(target, stage, samples, created, waited + delay)
    case Verifying(_, _, _) => true
    case Unlocking(_, _) => true
    case Finished(_) => true
    case _ => false
  }

  lemma {:induction false} RoundKeepsPhase(lock: Lock, target: Target, stage: Stage, s: Sample, samples: seq<Sample>,
        created: seq<Reply>, waited: nat)
    requires StageFits(target, stage, samples, created, waited)
    requires s.Found? ==> (s.resource.FoundSnapshot? <==> target.SnapshotTarget?)
    ensures Phase(AfterReconcile(lock, target, stage, s), samples + [s], created, waited)
  {
    if stage.Polling? || stage.LastTry? {
      RoundEnds(lock, target, stage, s, samples[1..], waited);
      assert (samples + [s])[1..] == samples[1..] + [s];
    }
  }

  lemma {:induction false} CreationKeepsPhase(pc: Pc, reply: Reply, samples: seq<Sample>)
    requires pc.Creating? && Accepts(pc, reply) && samples == [Missing]
    ensures Phase(Step(pc, reply), samples, [reply], 0)
  {
    assert Pow2(0) == 1 && samples[1..] == [] && FoundIds([]) == [];
  }

  lemma {:induction false} StepKeepsPhase(pc: Pc, reply: Reply, samples: seq<Sample>, created: seq<Reply>, waited: nat)
    requires Accepts(pc, reply) && Typed(pc) && Phase(pc, samples, created, waited)
    ensures Phase(Step(pc, reply), samples + Ending(pc, reply), created + CreationReply(Exchange(CallOf(pc), reply)),
      waited + DelayOf(CallOf(pc)))
  {
    if Ending(pc, reply) != [] {
      EndingIsReconcile(pc, reply);
      RoundKeepsPhase(pc.lock, pc.target, pc.stage, Ending(pc, reply)[0], samples, created, waited);
      assert created + [] == created;
    } else if pc.Creating? {
      CreationKeepsPhase(pc, reply, samples);
      assert samples + [] == samples && created + [reply] == [reply];
    } else {
      assert samples + [] == samples && created + [] == created;
    }
  }

  lemma {:induction false} RunKeepsPhase(pc: Pc, log: seq<Exchange>, samples: seq<Sample>, created: seq<Reply>,
        waited: nat)
    requires Follows(pc, log) && Typed(pc) && Phase(pc, samples, created, waited)
    ensures Phase(After(pc, log), samples + Samples(pc, log), created + Created(log), waited + Waited(log))
    decreases |log|
  {
    if log == [] {
      assert samples + [] == samples && created + [] == created;
    } else {
      var reply := log[0].reply;
      var next := Step(pc, reply);
      var ending, creation := Ending(pc, reply), CreationReply(log[0]);
      StepKeepsPhase(pc, reply, samples, created, waited);
      StepKeepsTyped(pc, reply);
      RunKeepsPhase(next, log[1..], samples + ending, created + creation, waited + DelayOf(log[0].call));
      Associate(samples, ending, Samples(next, log[1..]));
      Associate(created, creation, Created(log[1..]));
    }
  }

  // ---------- where a reconcile leads ----------

  /** Before the creation: the resource is taken, or created if there is none. */
  predicate FirstLeads(pc: Pc, lock: Lock, target: Target, s: Sample) {
    match s
    case Found(c) => HandsOut(pc, lock, target, c)
    case Missing => pc == Creating(lock, target)
    case Hard(code) => pc == Unlocking(lock, Refused(code))
  }

  /** After a creation that met a namesake: that one is taken, if it will do. */
  predicate SecondLeads(pc: Pc, lock: Lock, target: Target, s: Sample) {
    match s
    case Found(c) => HandsOut(pc, lock, target, c)
    case _ => pc == Unlocking(lock, Refused(AlreadyExistsCode))
  }

  /**
   Where every reconcile of a create leads, whatever the provider answered before: the first one
   to what it found, or to the creation; one after a creation that met a namesake to that one; and
   those after a creation that worked to the rounds of the retry loop.
   */
  lemma {:induction false} EveryReconcileLeads(lock: Lock, target: Target, log: seq<Exchange>, reply: Reply)
    requires var start := Listing(lock, target, BeforeCreate);
             && Follows(start, log) && Accepts(After(start, log), reply) && Ending(After(start, log), reply) != []
    ensures var start := Listing(lock, target, BeforeCreate);
            var pc := After(start, log);
            var next, s, samples, created := Step(pc, reply), Ending(pc, reply)[0], Samples(start, log), Created(log);
            if created == [] then samples == [] && FirstLeads(next, lock, target, s)
            else if created == [Failed(AlreadyExists)] then
              target.VolumeTarget? && samples == [Missing] && SecondLeads(next, lock, target, s)
            else
              && created == [Ok] && |samples| >= 1 && samples[0] == Missing
              && Leads(next, lock, target, samples[1..] + [s])
  {
    var start := Listing(lock, target, BeforeCreate);
    RunKeepsPhase(start, log, [], [], 0);
    RunKeepsTyped(start, log);
    RunStays(start, log, lock, target);
    var pc, samples, created := After(start, log), Samples(start, log), Created(log);
    assert [] + samples == samples && [] + created == created;
    EndingIsReconcile(pc, reply);
    if pc.stage.Polling? || pc.stage.LastTry? {
      RoundLeads(lock, target, pc.stage, Ending(pc, reply)[0], samples[1..], Waited(log));
    }
  }

  // ---------- the answer ----------

  /** What a read of the chosen volume comes to: the volume itself, if it is compatible. */
  predicate VerifiedAs(reply: Reply, spec: VolumeSpec, outcome: Outcome) {
    if reply.Failed? then
      if reply.error.NotFound? then outcome == Refused(UnavailableCode) else RefusedFor(outcome, reply)
    else
      && reply.OneVolume?
      && var v := reply.volume.(zone := if reply.volume.zone == "" then spec.zone else reply.volume.zone);
         outcome == if CompatibleVolume(v, spec) then Returned(FoundVolume(v)) else Refused(AlreadyExistsCode)
  }

  /** The last thing an RPC under its lock is told before it comes to its outcome. */
  ghost predicate EndsWith(start: Pc, log: seq<Exchange>, lock: Lock, outcome: Outcome) {
    Follows(start, log) && After(start, log) == Unlocking(lock, outcome) && log != [] && !start.Unlocking?
  }

  /** A create gives out a volume only as its own last read shows it; every other end is a refusal. */
  predicate CreateEnds(last: Exchange, spec: VolumeSpec, outcome: Outcome) {
    match last.call
    case GetVolume(_) => VerifiedAs(last.reply, spec, outcome)
    case CreateVolume(s) => s == spec && last.reply != Failed(AlreadyExists) && RefusedFor(outcome, last.reply)
    case Wait(_) => outcome == Refused(UnavailableCode)
    case _ => (last.call.ListVolumes? || last.call.DeleteVolume?) && outcome.Refused?
  }

  lemma {:induction false} ReconcileRefuses(pc: Pc, reply: Reply, lock: Lock, spec: VolumeSpec, outcome: Outcome)
    requires (pc.Listing? || pc.Purging?) && Stays(pc, lock, VolumeTarget(spec)) && Accepts(pc, reply) && Typed(pc)
    requires Step(pc, reply) == Unlocking(lock, outcome)
    ensures outcome.Refused?
  {
  }

  lemma {:induction false} CreateEndsByStep(pc: Pc, reply: Reply, lock: Lock, spec: VolumeSpec, outcome: Outcome)
    requires Stays(pc, lock, VolumeTarget(spec)) && Accepts(pc, reply) && !pc.Unlocking? && Typed(pc)
    requires Step(pc, reply) == Unlocking(lock, outcome)
    ensures CreateEnds(Exchange(CallOf(pc), reply), spec, outcome)
  {
    match pc
    case Listing(_, _, _) => ReconcileRefuses(pc, reply, lock, spec, outcome);
    case Purging(_, _, _, _, _, _) => ReconcileRefuses(pc, reply, lock, spec, outcome);
    case Creating(_, _) =>
    case Sleeping(_, _, _, _) =>
    case Verifying(_, _, _) =>
  }

  lemma {:induction false} NotYetUnlocking(pc: Pc, log: seq<Exchange>, lock: Lock, outcome: Outcome)
    requires EndsWith(pc, log, lock, outcome)
    ensures var most := log[..|log| - 1];
            && Follows(pc, most) && !After(pc, most).Unlocking? && Accepts(After(pc, most), log[|log| - 1].reply)
            && log[|log| - 1].call == CallOf(After(pc, most))
            && Step(After(pc, most), log[|log| - 1].reply) == Unlocking(lock, outcome)
  {
    LastExchange(pc, log);
  }

  /** Whatever the provider answers to a create, the last exchange before its unlock decides what it answers. */
  lemma {:induction false} CreateOutcome(lock: Lock, spec: VolumeSpec, log: seq<Exchange>, outcome: Outcome)
    requires EndsWith(Enter(lock, Create(spec)), log, lock, outcome)
    ensures CreateEnds(log[|log| - 1], spec, outcome)
  {
    var pc := Enter(lock, Create(spec));
    NotYetUnlocking(pc, log, lock, outcome);
    var most := log[..|log| - 1];
    RunStays(pc, most, lock, VolumeTarget(spec));
    RunKeepsPhase(pc, most, [], [], 0);
    RunKeepsTyped(pc, most);
    CreateEndsByStep(After(pc, most), log[|log| - 1].reply, lock, spec, outcome);
  }

  /** The end of a snapshot request that has read its source: the snapshot its last reconcile found, or a refusal. */
  predicate SnapshotEnds(last: Exchange, ending: seq<Sample>, target: Target, outcome: Outcome)
    requires target.SnapshotTarget?
  {
    match last.call
    case CreateSnapshot(name, source, zone) =>
      SnapshotTarget(name, source, zone) == target && RefusedFor(outcome, last.reply)
    case Wait(_) => outcome == Refused(UnavailableCode)
    case _ =>
      && ending != []
      && if ending[0].Found? then outcome == Returned(ending[0].resource) else outcome.Refused?
  }

  lemma {:induction false} SnapshotEndsByStep(pc: Pc, reply: Reply, lock: Lock, target: Target, outcome: Outcome)
    requires target.SnapshotTarget? && Stays(pc, lock, target) && Accepts(pc, reply) && !pc.Unlocking? && Typed(pc)
    requires Step(pc, reply) == Unlocking(lock, outcome)
    ensures SnapshotEnds(Exchange(CallOf(pc), reply), Ending(pc, reply), target, outcome)
  {
    if Ending(pc, reply) != [] {
      EndingIsReconcile(pc, reply);
    }
  }

  /**
   A snapshot request reads its source first, and answers with the error if that fails; then it
   works in the source's zone, and its last exchange decides.
   */
  ghost predicate SnapshotGoes(lock: Lock, name: string, source: string, fallbackZone: string, log: seq<Exchange>,
        outcome: Outcome)
  {
    && log != [] && log[0].call == GetVolume(source)
    && var reply := log[0].reply;
       if reply.Failed? then |log| == 1 && RefusedFor(outcome, reply)
       else
         && reply.OneVolume? && |log| > 1
         && var zone := if reply.volume.zone != "" then reply.volume.zone else fallbackZone;
            SnapshotEndsIn(lock, SnapshotTarget(name, source, zone), log[1..], outcome)
  }

  ghost predicate SnapshotEndsIn(lock: Lock, target: Target, log: seq<Exchange>, outcome: Outcome)
    requires target.SnapshotTarget?
  {
    var start := Listing(lock, target, BeforeCreate);
    && EndsWith(start, log, lock, outcome)
    && var most, last := log[..|log| - 1], log[|log| - 1];
       && Follows(start, most) && Accepts(After(start, most), last.reply)
       && SnapshotEnds(last, Ending(After(start, most), last.reply), target, outcome)
  }

  lemma {:induction false} SnapshotOutcome(lock: Lock, name: string, source: string, fallbackZone: string,
        log: seq<Exchange>, outcome: Outcome)
    requires EndsWith(Enter(lock, TakeSnapshot(name, source, fallbackZone)), log, lock, outcome)
    ensures SnapshotGoes(lock, name, source, fallbackZone, log, outcome)
  {
    var pc := Enter(lock, TakeSnapshot(name, source, fallbackZone));
    Unroll(pc, log);
    var reply := log[0].reply;
    if reply.Failed? {
      UnlockingIsLast(lock, Refused(StatusOf(reply.error)), log[1..]);
    } else {
      SnapshotEndsAfterReading(lock, SnapshotTarget(name, source, Or(reply.volume.zone, fallbackZone)), log[1..],
        outcome);
    }
  }

  lemma {:induction false} SnapshotEndsAfterReading(lock: Lock, target: Target, log: seq<Exchange>, outcome: Outcome)
    requires target.SnapshotTarget? && EndsWith(Listing(lock, target, BeforeCreate), log, lock, outcome)
    ensures SnapshotEndsIn(lock, target, log, outcome)
  {
    var start := Listing(lock, target, BeforeCreate);
    NotYetUnlocking(start, log, lock, outcome);
    var most := log[..|log| - 1];
    RunStays(start, most, lock, target);
    RunKeepsPhase(start, most, [], [], 0);
    RunKeepsTyped(start, most);
    SnapshotEndsByStep(After(start, most), log[|log| - 1].reply, lock, target, outcome);
  }

  // ---------- all RPCs that take a lock ----------

  /** What is known of the conversation that an RPC has under its lock, and of the outcome. */
  ghost predicate Goes(rpc: Rpc, log: seq<Exchange>, outcome: Outcome) {
    match rpc
    case Create(spec) => log != [] && CreateEnds(log[|log| - 1], spec, outcome)
    case TakeSnapshot(name, source, fallbackZone) =>
      SnapshotGoes(LockFor(rpc), name, source, fallbackZone, log, outcome)
    case Delete(id) => DeleteGoes(DeleteVolume(id), log, outcome)
    case Publish(id, node, fallbackZone) => PublishGoes(id, node, fallbackZone, log, outcome)
    case Unpublish(id, node, fallbackZone) => UnpublishGoes(id, node, fallbackZone, log, outcome)
    case Expand(id, capacity) => ExpandGoes(id, capacity, log, outcome)
    case DropSnapshot(_, _) => true    // takes no lock, see DropOutcome
  }

  lemma {:induction false} EveryOutcome(rpc: Rpc, log: seq<Exchange>, outcome: Outcome)
    requires UnderLock(rpc, log, outcome)
    ensures Goes(rpc, log[1..|log| - 1], outcome)
  {
    var lock, inner := LockFor(rpc), log[1..|log| - 1];
    match rpc
    case Create(spec) => CreateOutcome(lock, spec, inner, outcome);
    case TakeSnapshot(name, source, fallbackZone) => SnapshotOutcome(lock, name, source, fallbackZone, inner, outcome);
    case Delete(id) => DeleteOutcome(lock, id, inner, outcome);
    case Publish(id, node, fallbackZone) => PublishOutcome(lock, id, node, fallbackZone, inner, outcome);
    case Unpublish(id, node, fallbackZone) => UnpublishOutcome(lock, id, node, fallbackZone, inner, outcome);
    case Expand(id, capacity) => ExpandOutcome(lock, id, capacity, inner, outcome);
    case DropSnapshot(_, _) =>
  }

  /** A conversation that began with the grant of its lock went as `Goes` says. */
  lemma {:induction false} EveryConversation(rpc: Rpc, log: seq<Exchange>, outcome: Outcome)
    requires !rpc.DropSnapshot? && Follows(Begin(rpc), log) && After(Begin(rpc), log) == Finished(outcome)
    requires log != [] && log[0].reply == Granted(true)
    ensures UnderLock(rpc, log, outcome) && Goes(rpc, log[1..|log| - 1], outcome)
  {
    WholeConversation(rpc, log, outcome);
    EveryOutcome(rpc, log, outcome);
  }
}
