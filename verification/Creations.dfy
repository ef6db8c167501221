/**
 What a create comes to over the in-memory provider when nobody interferes with its name: which
 answer it gives, after how many calls, and what it leaves behind.
 */
module Creations {
  import opened Cloud
  import opened Reconcile
  import opened Protocol
  import opened Fakes
  import opened FakeLaws
  import opened Histories

  // ---------- what others may do meanwhile ----------

  /** The call deletes or resizes no volume of the name, and makes none but the very same one. */
  predicate LeavesName(f: FakeState, call: Call, spec: VolumeSpec) {
    match call
    case CreateVolume(other) => other.name == spec.name ==> other == spec
    case DeleteVolume(id) => !VolumeNamed(f, id, spec.name)
    case ResizeVolume(id, _, _) => !VolumeNamed(f, id, spec.name)
    case _ => true
  }

  predicate Uncontested(fs: seq<FakeState>, h: seq<Entry>, who: nat, spec: VolumeSpec)
    requires |fs| == |h| + 1
  {
    forall i :: 0 <= i < |h| && h[i].who != who ==> LeavesName(fs[i], h[i].call, spec)
  }

  ghost predicate Unused(f: FakeState, name: string) {
    forall id :: !VolumeNamed(f, id, name)
  }

  /** The volume has the name and all that was asked for; where no type was, any will do. */
  predicate AsRequested(v: Volume, spec: VolumeSpec) {
    && v.name == spec.name && v.size == spec.size && v.zone == spec.zone && v.encrypted == spec.encrypted
    && (spec.kind != "" ==> v.kind == spec.kind)
  }

  ghost predicate Compliant(f: FakeState, spec: VolumeSpec) {
    forall id :: VolumeNamed(f, id, spec.name) ==> AsRequested(f.volumes[id], spec)
  }

  lemma {:induction false} NobodyTakes(f: FakeState, call: Call, reply: Reply, f': FakeState, spec: VolumeSpec,
        id: string)
    requires FakeInv(f) && FakeStep(f, call, reply, f') && LeavesName(f, call, spec) && !VolumeNamed(f, id, spec.name)
    ensures !Taken(f', id, spec)
  {
    if id in f.volumes && id in f'.volumes {
      StepKeepsVolume(f, call, reply, f', id);
    } else if call.CreateVolume? {
      OthersUntouched(f, call, reply, f', id);
    }
  }

  lemma {:induction false} OthersLeave(f: FakeState, call: Call, reply: Reply, f': FakeState, spec: VolumeSpec,
        id: string)
    requires FakeInv(f) && FakeStep(f, call, reply, f') && LeavesName(f, call, spec)
    ensures Stored(f, id, spec) ==> Stored(f', id, spec)
    ensures Taken(f', id, spec) <==> Taken(f, id, spec)
  {
    if VolumeNamed(f, id, spec.name) {
      UndisturbedKeeps(f, call, reply, f', id);
    } else {
      NobodyTakes(f, call, reply, f', spec, id);
    }
  }

  // ---------- where a create stands ----------

  ghost predicate HasStored(f: FakeState, spec: VolumeSpec) {
    exists id :: Stored(f, id, spec)
  }

  /** The loop has found the volume in every round so far. */
  ghost predicate AtRound(f: FakeState, stage: Stage, spec: VolumeSpec) {
    match stage
    case BeforeCreate => Compliant(f, spec)
    case Polling(round, previous, stable, _) =>
      HasStored(f, spec) && stable == round < 3 && (round > 0 ==> Stored(f, previous, spec))
    case _ => false
  }

  predicate Delivered(f: FakeState, outcome: Outcome, spec: VolumeSpec) {
    && outcome.Returned? && outcome.resource.FoundVolume?
    && var v := outcome.resource.volume;
       AsRequested(v, spec) && v.id in f.volumes && AsRequested(f.volumes[v.id], spec)
  }

  /** How many calls are left at most, the unlock not counted. */
  function Left(pc: Pc): int {
    match pc
    case Listing(_, _, stage) => if stage.Polling? then 6 - 2 * stage.round else 8
    case Creating(_, _) => 7
    case Sleeping(_, _, stage, _) => if stage.Polling? then 7 - 2 * stage.round else 0
    case Verifying(_, _, _) => 1
    case _ => 0
  }

  ghost predicate Heading(f: FakeState, pc: Pc, n: nat, spec: VolumeSpec) {
    && n + Left(pc) <= 8
    && match pc
       case Listing(_, target, stage) => target == VolumeTarget(spec) && AtRound(f, stage, spec)
       case Creating(_, target) => target == VolumeTarget(spec) && Compliant(f, spec)
       case Sleeping(_, target, stage, _) =>
         target == VolumeTarget(spec) && stage.Polling? && stage.round > 0 && AtRound(f, stage, spec)
       case Verifying(_, s, id) => s == spec && Stored(f, id, spec)
       case Unlocking(_, outcome) => Delivered(f, outcome, spec)
       case _ => false
  }

  ghost function Bound(spec: VolumeSpec): Standing {
    (f, pc, n: nat) => Heading(f, pc, n, spec)
  }

  /** A new, free volume of the name has come, and all else is as it was. */
  ghost predicate Gains(f: FakeState, f': FakeState, spec: VolumeSpec) {
    && Unused(f, spec.name)
    && exists v: Volume ::
         && v.id !in f.volumes && AsRequested(v, spec) && v.attachments == [] && v.status == Available
         && f'.volumes == f.volumes[v.id := v] && f'.snapshots == f.snapshots
  }

  ghost function GainsAtMost(spec: VolumeSpec): (FakeState, FakeState) -> bool {
    (f, f') => f' == f || Gains(f, f', spec)
  }

  // ---------- one step ----------

  lemma {:induction false} ListingOfUnused(f: FakeState, spec: VolumeSpec, vs: seq<Volume>)
    requires Unused(f, spec.name) && VolumeListing(f, spec.name, spec.zone, vs)
    ensures PlanVolumes(vs, spec) == Absent
  {
    PlanVolumesMeaning(vs, spec);
    forall v | v in vs ensures v.name != spec.name {
      assert !VolumeNamed(f, v.id, spec.name);
    }
  }

  lemma {:induction false} FreshIsStored(f: FakeState, spec: VolumeSpec, reply: Reply, f': FakeState)
    requires FakeInv(f) && Unused(f, spec.name) && CreateVolumeStep(f, spec, reply, f')
    ensures reply == Ok && HasStored(f', spec) && Gains(f, f', spec)
  {
    var id := VolumeName(f.nextVolume);
    NewNameIsFresh(f);
    assert id in f.volumes ==> VolumeInv(f, id);
    assert Stored(f', id, spec);
    assert f'.volumes == f.volumes[FreshVolume(id, spec).id := FreshVolume(id, spec)];
  }

  lemma {:induction false} CompliantIsStoredOrUnused(f: FakeState, spec: VolumeSpec)
    requires Compliant(f, spec)
    ensures HasStored(f, spec) || Unused(f, spec.name)
  {
    if id :| VolumeNamed(f, id, spec.name) {
      assert !Taken(f, id, spec);
      assert Stored(f, id, spec);
    }
  }

  lemma {:induction false} OwnCreation(f: FakeState, spec: VolumeSpec, reply: Reply, f': FakeState)
    requires FakeInv(f) && Compliant(f, spec) && CreateVolumeStep(f, spec, reply, f')
    ensures reply == Ok && HasStored(f', spec) && (f' == f || Gains(f, f', spec))
  {
    CompliantIsStoredOrUnused(f, spec);
    if id :| VolumeNamed(f, id, spec.name) {
      var other :| NamesakeAnswers(f, other, spec, reply);
      assert !Taken(f, other, spec);
    } else {
      FreshIsStored(f, spec, reply, f');
    }
  }

  lemma {:induction false} OwnListing(f: FakeState, pc: Pc, n: nat, reply: Reply, spec: VolumeSpec)
    requires FakeInv(f) && pc.Listing? && Heading(f, pc, n, spec) && reply.VolumeList?
    requires VolumeListing(f, spec.name, spec.zone, reply.volumes)
    ensures Heading(f, Step(pc, reply), n + 1, spec)
  {
    if id :| Stored(f, id, spec) {
      ListingOfStored(f, id, spec, reply.volumes);
      if pc.stage.Polling? && pc.stage.round > 0 {
        assert pc.stage.previous == id;
      }
    } else {
      CompliantIsStoredOrUnused(f, spec);
      ListingOfUnused(f, spec, reply.volumes);
    }
  }

  lemma {:induction false} OwnStep(f: FakeState, pc: Pc, n: nat, reply: Reply, f': FakeState, spec: VolumeSpec)
    requires FakeInv(f) && Heading(f, pc, n, spec) && Accepts(pc, reply) && FakeStep(f, CallOf(pc), reply, f')
    requires pc.Sleeping? ==> reply == Ok
    ensures Heading(f', Step(pc, reply), n + 1, spec) && GainsAtMost(spec)(f, f')
  {
    match pc
    case Listing(_, _, _) => OwnListing(f, pc, n, reply, spec);
    case Creating(_, _) => OwnCreation(f, spec, reply, f');
    case Sleeping(_, _, _, _) =>
    case Verifying(_, _, id) => assert VolumeInv(f, id);
    case Unlocking(_, _) =>
  }

  lemma {:induction false} OthersStep(f: FakeState, call: Call, reply: Reply, f': FakeState, pc: Pc, n: nat,
        spec: VolumeSpec)
    requires FakeInv(f) && Heading(f, pc, n, spec) && FakeStep(f, call, reply, f') && LeavesName(f, call, spec)
    ensures Heading(f', pc, n, spec)
  {
    forall id
      ensures Stored(f, id, spec) ==> Stored(f', id, spec)
      ensures Taken(f', id, spec) <==> Taken(f, id, spec)
    {
      OthersLeave(f, call, reply, f', spec, id);
    }
    assert pc.Unlocking? ==> Stored(f, pc.outcome.resource.volume.id, spec);
  }

  lemma {:induction false} EntryKeeps(f: FakeState, e: Entry, f': FakeState, who: nat, spec: VolumeSpec)
    requires FakeInv(f) && FakeStep(f, e.call, e.reply, f')
    requires if e.who == who then e.call.Wait? ==> e.reply == Ok else LeavesName(f, e.call, spec)
    ensures Keeps(f, e, f', who, Bound(spec), GainsAtMost(spec))
  {
    if e.who == who {
      forall pc, n: nat | Heading(f, pc, n, spec) && Accepts(pc, e.reply) && e.call == CallOf(pc)
        ensures Heading(f', Step(pc, e.reply), n + 1, spec) && GainsAtMost(spec)(f, f')
      {
        OwnStep(f, pc, n, e.reply, f', spec);
      }
    } else {
      forall pc, n: nat | Heading(f, pc, n, spec) ensures Heading(f', pc, n, spec) {
        OthersStep(f, e.call, e.reply, f', pc, n, spec);
      }
    }
  }

  // ---------- the theorems ----------

  /**
   A create whose name has no incompatible volume, whose waits are not cut short, and with whose
   name nobody else does anything but to make the very same request, answers within eight calls,
   and the answer is a volume of its name, compatible and stored.  On the way it adds one volume
   at most, and that only if its name had none.
   */
  lemma {:induction false} CreateSucceeds(fs: seq<FakeState>, h: seq<Entry>, who: nat, lock: Lock, spec: VolumeSpec)
    requires History(fs, h) && Uncontested(fs, h, who, spec) && WaitsOut(h, who)
    requires Compliant(fs[0], spec)
    requires Follows(Enter(lock, Create(spec)), Mine(h, who))
    ensures var end := After(Enter(lock, Create(spec)), Mine(h, who));
            && |Mine(h, who)| <= 8
            && (|Mine(h, who)| == 8 ==> end.Unlocking?)
            && (end.Unlocking? ==> Delivered(fs[|h|], end.outcome, spec))
    ensures forall i :: 0 <= i < |h| && h[i].who == who ==> fs[i + 1] == fs[i] || Gains(fs[i], fs[i + 1], spec)
  {
    forall i | 0 <= i < |h| ensures Keeps(fs[i], h[i], fs[i + 1], who, Bound(spec), GainsAtMost(spec)) {
      InvThroughout(fs, h, 0, i);
      assert h[i] in h;
      EntryKeeps(fs[i], h[i], fs[i + 1], who, spec);
    }
    RunKeeps(fs, h, who, Enter(lock, Create(spec)), 0, Bound(spec), GainsAtMost(spec));
  }

  // ---------- a name that an incompatible volume has ----------

  function LeftBeforeRefusal(pc: Pc): int {
    match pc
    case Listing(_, _, stage) => if stage.BeforeCreate? then 3 else 1
    case Creating(_, _) => 2
    case _ => 0
  }

  ghost predicate HeadingForRefusal(f: FakeState, pc: Pc, n: nat, id: string, spec: VolumeSpec) {
    n + LeftBeforeRefusal(pc) <= 3 && Taken(f, id, spec) && Rebuffed(pc, spec)
  }

  ghost function RefusalBound(id: string, spec: VolumeSpec): Standing {
    (f, pc, n: nat) => HeadingForRefusal(f, pc, n, id, spec)
  }

  lemma {:induction false} RefusalListingCounts(lock: Lock, spec: VolumeSpec, stage: Stage, reply: Reply)
    requires reply.VolumeList? && !PlanVolumes(reply.volumes, spec).Keep?
    requires stage == BeforeCreate || stage == AfterExists
    ensures LeftBeforeRefusal(AfterListing(lock, VolumeTarget(spec), stage, reply)) <
      if stage == BeforeCreate then 3 else 1
  {
  }

  lemma {:induction false} RefusalCounts(f: FakeState, pc: Pc, reply: Reply, f': FakeState, id: string,
        spec: VolumeSpec)
    requires FakeInv(f) && Taken(f, id, spec) && Rebuffed(pc, spec)
    requires Accepts(pc, reply) && FakeStep(f, CallOf(pc), reply, f')
    ensures LeftBeforeRefusal(Step(pc, reply)) < LeftBeforeRefusal(pc)
  {
    match pc
    case Listing(lock, _, stage) =>
      ListingOfTaken(f, id, spec, reply.volumes);
      RefusalListingCounts(lock, spec, stage, reply);
    case Creating(_, _) => CreateOfTaken(f, id, spec, reply, f');
    case Unlocking(_, _) =>
  }

  lemma {:induction false} EntryKeepsRefusal(f: FakeState, e: Entry, f': FakeState, who: nat, id: string,
        spec: VolumeSpec)
    requires FakeInv(f) && FakeStep(f, e.call, e.reply, f')
    requires e.who != who ==> LeavesName(f, e.call, spec)
    ensures Keeps(f, e, f', who, RefusalBound(id, spec), NoChange())
  {
    if e.who == who {
      forall pc, n: nat | HeadingForRefusal(f, pc, n, id, spec) && Accepts(pc, e.reply) && e.call == CallOf(pc)
        ensures HeadingForRefusal(f', Step(pc, e.reply), n + 1, id, spec) && f' == f
      {
        RebuffedStep(f, pc, e.reply, f', id, spec);
        RefusalCounts(f, pc, e.reply, f', id, spec);
      }
    } else {
      OthersLeave(f, e.call, e.reply, f', spec, id);
    }
  }

  lemma {:induction false} CreateIsRefused(fs: seq<FakeState>, h: seq<Entry>, who: nat, lock: Lock, spec: VolumeSpec,
        id: string)
    requires History(fs, h) && Uncontested(fs, h, who, spec) && Taken(fs[0], id, spec)
    requires Follows(Enter(lock, Create(spec)), Mine(h, who))
    ensures HeadingForRefusal(fs[|h|], After(Enter(lock, Create(spec)), Mine(h, who)), |Mine(h, who)|, id, spec)
    ensures forall i :: 0 <= i < |h| && h[i].who == who ==> fs[i + 1] == fs[i]
  {
    forall i | 0 <= i < |h| ensures Keeps(fs[i], h[i], fs[i + 1], who, RefusalBound(id, spec), NoChange()) {
      InvThroughout(fs, h, 0, i);
      EntryKeepsRefusal(fs[i], h[i], fs[i + 1], who, id, spec);
    }
    assert HeadingForRefusal(fs[0], Enter(lock, Create(spec)), 0, id, spec);
    RunKeeps(fs, h, who, Enter(lock, Create(spec)), 0, RefusalBound(id, spec), NoChange());
  }

  /**
   The answer is known beforehand: a volume, if all volumes of the name are compatible, and
   AlreadyExists otherwise, after three calls at most, which change nothing.
   */
  lemma {:induction false} CreateAnswers(fs: seq<FakeState>, h: seq<Entry>, who: nat, lock: Lock, spec: VolumeSpec)
    requires History(fs, h) && Uncontested(fs, h, who, spec) && WaitsOut(h, who)
    requires Follows(Enter(lock, Create(spec)), Mine(h, who))
    ensures var end := After(Enter(lock, Create(spec)), Mine(h, who));
            end.Unlocking? ==>
              if Compliant(fs[0], spec) then Delivered(fs[|h|], end.outcome, spec)
              else end.outcome == Refused(AlreadyExistsCode)
    ensures !Compliant(fs[0], spec) ==>
              |Mine(h, who)| <= 3 && forall i :: 0 <= i < |h| && h[i].who == who ==> fs[i + 1] == fs[i]
  {
    if Compliant(fs[0], spec) {
      CreateSucceeds(fs, h, who, lock, spec);
    } else {
      var id :| VolumeNamed(fs[0], id, spec.name) && !AsRequested(fs[0].volumes[id], spec);
      CreateIsRefused(fs, h, who, lock, spec, id);
    }
  }

  /** Any two creates of the same request that race with each other answer with the same volume. */
  lemma {:induction false} RacingCreatesAgree(fs: seq<FakeState>, h: seq<Entry>, a: nat, b: nat, lock: Lock,
        spec: VolumeSpec)
    requires History(fs, h) && Uncontested(fs, h, a, spec) && Uncontested(fs, h, b, spec)
    requires WaitsOut(h, a) && WaitsOut(h, b) && Compliant(fs[0], spec)
    requires Follows(Enter(lock, Create(spec)), Mine(h, a)) && Follows(Enter(lock, Create(spec)), Mine(h, b))
    ensures var pc := Enter(lock, Create(spec));
            var one, other := After(pc, Mine(h, a)), After(pc, Mine(h, b));
            one.Unlocking? && other.Unlocking? ==>
              && Delivered(fs[|h|], one.outcome, spec) && Delivered(fs[|h|], other.outcome, spec)
              && one.outcome.resource.Id() == other.outcome.resource.Id()
  {
    CreateSucceeds(fs, h, a, lock, spec);
    CreateSucceeds(fs, h, b, lock, spec);
    InvThroughout(fs, h, 0, |h|);
  }
}
