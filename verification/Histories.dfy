/**
 Whole histories of the in-memory provider, with the calls of any number of RPCs mixed: what
 never changes, and what a repeated request comes to.
 */
module Histories {
  import opened Cloud
  import opened Reconcile
  import opened Protocol
  import opened Fakes
  import opened FakeLaws

  /** A call, its reply, and the RPC that made it. */
  datatype Entry = Entry(who: nat, call: Call, reply: Reply)

  /** `fs[i]` is the provider's state before entry `i`. */
  ghost predicate History(fs: seq<FakeState>, h: seq<Entry>) {
    && |fs| == |h| + 1
    && FakeInv(fs[0])
    && forall i :: 0 <= i < |h| ==> FakeStep(fs[i], h[i].call, h[i].reply, fs[i + 1])
  }

  lemma {:induction false} InvThroughout(fs: seq<FakeState>, h: seq<Entry>, i: nat, j: nat)
    requires History(fs, h) && i <= j <= |h|
    ensures FakeInv(fs[j])
    ensures fs[i].nextVolume <= fs[j].nextVolume && fs[i].nextSnapshot <= fs[j].nextSnapshot
    decreases j
  {
    if j > 0 {
      InvThroughout(fs, h, if i < j then i else 0, j - 1);
      FakeStepKeepsInv(fs[j - 1], h[j - 1].call, h[j - 1].reply, fs[j]);
    }
  }

  lemma {:induction false} CutHistory(fs: seq<FakeState>, h: seq<Entry>, m: nat)
    requires History(fs, h) && m <= |h|
    ensures History(fs[..m + 1], h[..m]) && History(fs[m..], h[m..])
    ensures FakeInv(fs[m]) && fs[..m + 1][m] == fs[m] == fs[m..][0] && fs[m..][|h| - m] == fs[|h|]
  {
    InvThroughout(fs, h, 0, m);
  }

  // ---------- IDs and sizes ----------

  /** An ID that was minted and is gone stays gone. */
  lemma {:induction false} StaysGone(f: FakeState, call: Call, reply: Reply, f': FakeState, id: string)
    requires FakeInv(f) && FakeStep(f, call, reply, f')
    requires MintedVolume(f, id) && id !in f.volumes
    ensures id !in f'.volumes
  {
    NewNameIsFresh(f);
  }

  lemma {:induction false} GoneForEver(fs: seq<FakeState>, h: seq<Entry>, i: nat, j: nat, id: string)
    requires History(fs, h) && i <= j <= |h|
    requires MintedVolume(fs[i], id) && id !in fs[i].volumes
    ensures id !in fs[j].volumes
    decreases j - i
  {
    if i < j {
      InvThroughout(fs, h, 0, i);
      StaysGone(fs[i], h[i].call, h[i].reply, fs[i + 1], id);
      FakeStepKeepsInv(fs[i], h[i].call, h[i].reply, fs[i + 1]);
      MintedStays(fs[i], fs[i + 1]);
      GoneForEver(fs, h, i + 1, j, id);
    }
  }

  /** In no history is the ID of a deleted volume given to another. */
  lemma {:induction false} IdsNeverReused(fs: seq<FakeState>, h: seq<Entry>, i: nat, j: nat, k: nat, id: string)
    requires History(fs, h) && i <= j <= k <= |h|
    requires id in fs[i].volumes && id !in fs[j].volumes
    ensures id !in fs[k].volumes
  {
    InvThroughout(fs, h, 0, i);
    assert VolumeInv(fs[i], id);
    InvThroughout(fs, h, i, j);
    MintedStays(fs[i], fs[j]);
    GoneForEver(fs, h, j, k, id);
  }

  lemma {:induction false} SnapshotStaysGone(f: FakeState, call: Call, reply: Reply, f': FakeState, id: string)
    requires FakeInv(f) && FakeStep(f, call, reply, f')
    requires MintedSnapshot(f, id) && id !in f.snapshots
    ensures id !in f'.snapshots
  {
    NewNameIsFresh(f);
  }

  lemma {:induction false} SnapshotGoneForEver(fs: seq<FakeState>, h: seq<Entry>, i: nat, j: nat, id: string)
    requires History(fs, h) && i <= j <= |h|
    requires MintedSnapshot(fs[i], id) && id !in fs[i].snapshots
    ensures id !in fs[j].snapshots
    decreases j - i
  {
    if i < j {
      InvThroughout(fs, h, 0, i);
      SnapshotStaysGone(fs[i], h[i].call, h[i].reply, fs[i + 1], id);
      FakeStepKeepsInv(fs[i], h[i].call, h[i].reply, fs[i + 1]);
      MintedStays(fs[i], fs[i + 1]);
      SnapshotGoneForEver(fs, h, i + 1, j, id);
    }
  }

  /** Nor is the ID of a deleted snapshot. */
  lemma {:induction false} SnapshotIdsNeverReused(fs: seq<FakeState>, h: seq<Entry>, i: nat, j: nat, k: nat, id: string)
    requires History(fs, h) && i <= j <= k <= |h|
    requires id in fs[i].snapshots && id !in fs[j].snapshots
    ensures id !in fs[k].snapshots
  {
    InvThroughout(fs, h, 0, i);
    InvThroughout(fs, h, i, j);
    MintedStays(fs[i], fs[j]);
    SnapshotGoneForEver(fs, h, j, k, id);
  }

  /** What a volume keeps for life, and its size, which only grows. */
  predicate SameVolume(was: Volume, now: Volume) {
    && now.id == was.id && now.name == was.name && now.zone == was.zone
    && now.kind == was.kind && now.encrypted == was.encrypted && was.size <= now.size
  }

  lemma {:induction false} NamedCallKeepsVolume(f: FakeState, call: Call, reply: Reply, f': FakeState, id: string)
    requires FakeStep(f, call, reply, f') && AltersVolume(call, id) && id in f.volumes && id in f'.volumes
    ensures SameVolume(f.volumes[id], f'.volumes[id])
    ensures !call.ResizeVolume? ==> f'.volumes[id].size == f.volumes[id].size
  {
  }

  lemma {:induction false} StepKeepsVolume(f: FakeState, call: Call, reply: Reply, f': FakeState, id: string)
    requires FakeInv(f) && FakeStep(f, call, reply, f') && id in f.volumes && id in f'.volumes
    ensures SameVolume(f.volumes[id], f'.volumes[id])
    ensures !(call.ResizeVolume? && call.id == id) ==> f'.volumes[id].size == f.volumes[id].size
  {
    if AltersVolume(call, id) {
      NamedCallKeepsVolume(f, call, reply, f', id);
    } else {
      OthersUntouched(f, call, reply, f', id);
    }
  }

  /** No history shrinks a volume, or changes its name, zone, type or encryption. */
  lemma {:induction false} VolumesOnlyGrow(fs: seq<FakeState>, h: seq<Entry>, i: nat, j: nat, id: string)
    requires History(fs, h) && i <= j <= |h| && id in fs[i].volumes && id in fs[j].volumes
    ensures SameVolume(fs[i].volumes[id], fs[j].volumes[id])
    decreases j - i
  {
    if i < j {
      InvThroughout(fs, h, 0, i);
      assert VolumeInv(fs[i], id);
      if id !in fs[i + 1].volumes {
        IdsNeverReused(fs, h, i, i + 1, j, id);
      }
      StepKeepsVolume(fs[i], h[i].call, h[i].reply, fs[i + 1], id);
      VolumesOnlyGrow(fs, h, i + 1, j, id);
    }
  }

  // ---------- the zone of a volume ----------

  /** The zone in which the driver works on a volume. */
  function ZoneFor(f: FakeState, id: string, fallbackZone: string): string
    requires id in f.volumes
  {
    Or(f.volumes[id].zone, fallbackZone)
  }

  /** `zone` is the one to work in for as long as the volume exists. */
  ghost predicate InZone(f: FakeState, id: string, fallbackZone: string, zone: string) {
    MintedVolume(f, id) && (id in f.volumes ==> ZoneFor(f, id, fallbackZone) == zone)
  }

  lemma {:induction false} InZoneStays(f: FakeState, call: Call, reply: Reply, f': FakeState, id: string,
        fallbackZone: string, zone: string)
    requires FakeInv(f) && FakeStep(f, call, reply, f') && InZone(f, id, fallbackZone, zone)
    ensures InZone(f', id, fallbackZone, zone)
  {
    FakeStepKeepsInv(f, call, reply, f');
    MintedStays(f, f');
    if id in f.volumes && id in f'.volumes {
      StepKeepsVolume(f, call, reply, f', id);
    } else if id !in f.volumes {
      StaysGone(f, call, reply, f', id);
    }
  }

  // ---------- one RPC in a history ----------

  function Own(e: Entry, who: nat): seq<Exchange> {
    if e.who == who then [Exchange(e.call, e.reply)] else []
  }

  /** The exchanges of one RPC. */
  function Mine(h: seq<Entry>, who: nat): seq<Exchange> {
    if h == [] then [] else Own(h[0], who) + Mine(h[1..], who)
  }

  lemma {:induction false} MineSplit(a: seq<Entry>, b: seq<Entry>, who: nat)
    ensures Mine(a + b, who) == Mine(a, who) + Mine(b, who)
  {
    if a == [] {
      assert a + b == b;
    } else {
      var rest := a[1..];
      MineSplit(rest, b, who);
      var whole := a + b;
      assert whole[0] == a[0] && whole[1..] == rest + b;
      Associate(Own(a[0], who), Mine(rest, who), Mine(b, who));
    }
  }

  /** Nobody deletes or expands the volume. */
  predicate Undisturbed(h: seq<Entry>, id: string) {
    forall e :: e in h ==> e.call != DeleteVolume(id) && !(e.call.ResizeVolume? && e.call.id == id)
  }

  predicate Stored(f: FakeState, id: string, spec: VolumeSpec) {
    id in f.volumes && f.volumes[id].name == spec.name && CompatibleVolume(f.volumes[id], spec)
  }

  lemma {:induction false} UndisturbedKeeps(f: FakeState, call: Call, reply: Reply, f': FakeState, id: string)
    requires FakeInv(f) && FakeStep(f, call, reply, f') && id in f.volumes
    requires call != DeleteVolume(id) && !(call.ResizeVolume? && call.id == id)
    ensures id in f'.volumes && SameVolume(f.volumes[id], f'.volumes[id]) && f'.volumes[id].size == f.volumes[id].size
  {
    StepKeepsVolume(f, call, reply, f', id) by {
      assert id in f'.volumes;
    }
  }

  /** Where an RPC can stand, given the provider and how many calls it has made. */
  type Standing = (FakeState, Pc, nat) -> bool

  /** An entry keeps `inv`; if it is the RPC's own, the RPC steps, and `change` says what it does to the provider. */
  ghost predicate Keeps(f: FakeState, e: Entry, f': FakeState, who: nat, inv: Standing,
        change: (FakeState, FakeState) -> bool)
  {
    if e.who != who then forall pc, n: nat :: inv(f, pc, n) ==> inv(f', pc, n)
    else
      forall pc, n: nat :: inv(f, pc, n) && Accepts(pc, e.reply) && e.call == CallOf(pc) ==>
        inv(f', Step(pc, e.reply), n + 1) && change(f, f')
  }

  lemma {:induction false} KeepsRest(fs: seq<FakeState>, h: seq<Entry>, who: nat, inv: Standing,
        change: (FakeState, FakeState) -> bool)
    requires |fs| == |h| + 1 && h != []
    requires forall i :: 0 <= i < |h| ==> Keeps(fs[i], h[i], fs[i + 1], who, inv, change)
    ensures forall i :: 0 <= i < |h[1..]| ==> Keeps(fs[1..][i], h[1..][i], fs[1..][i + 1], who, inv, change)
  {
    forall i | 0 <= i < |h[1..]| ensures Keeps(fs[1..][i], h[1..][i], fs[1..][i + 1], who, inv, change) {
      assert Keeps(fs[i + 1], h[i + 1], fs[i + 2], who, inv, change);
    }
  }

  lemma {:induction false} ChangesFrom(fs: seq<FakeState>, h: seq<Entry>, who: nat,
        change: (FakeState, FakeState) -> bool)
    requires |fs| == |h| + 1 && h != []
    requires h[0].who == who ==> change(fs[0], fs[1])
    requires forall i :: 0 <= i < |h[1..]| && h[1..][i].who == who ==> change(fs[1..][i], fs[1..][i + 1])
    ensures forall i :: 0 <= i < |h| && h[i].who == who ==> change(fs[i], fs[i + 1])
  {
    forall i | 0 <= i < |h| && h[i].who == who ensures change(fs[i], fs[i + 1]) {
      if i > 0 {
        assert h[1..][i - 1] == h[i] && fs[1..][i] == fs[i + 1] && fs[1..][i - 1] == fs[i];
      }
    }
  }

  /** Induction over a history, for one RPC in it. */
  lemma {:induction false} RunKeeps(fs: seq<FakeState>, h: seq<Entry>, who: nat, pc: Pc, n: nat, inv: Standing,
        change: (FakeState, FakeState) -> bool)
    requires |fs| == |h| + 1 && Follows(pc, Mine(h, who)) && inv(fs[0], pc, n)
    requires forall i :: 0 <= i < |h| ==> Keeps(fs[i], h[i], fs[i + 1], who, inv, change)
    ensures inv(fs[|h|], After(pc, Mine(h, who)), n + |Mine(h, who)|)
    ensures forall i :: 0 <= i < |h| && h[i].who == who ==> change(fs[i], fs[i + 1])
    decreases |h|
  {
    if h != [] {
      var mine := Mine(h, who);
      assert Keeps(fs[0], h[0], fs[1], who, inv, change);
      KeepsRest(fs, h, who, inv, change);
      if h[0].who == who {
        assert mine[0] == Exchange(h[0].call, h[0].reply) && mine[1..] == Mine(h[1..], who);
        RunKeeps(fs[1..], h[1..], who, Step(pc, h[0].reply), n + 1, inv, change);
      } else {
        assert mine == Mine(h[1..], who) && inv(fs[1], pc, n);
        RunKeeps(fs[1..], h[1..], who, pc, n, inv, change);
      }
      ChangesFrom(fs, h, who, change);
    }
  }

  lemma {:induction false} UnchangedSince(fs: seq<FakeState>, h: seq<Entry>, m: nat, who: nat)
    requires |fs| == |h| + 1 && m <= |h|
    requires forall i :: 0 <= i < |h[m..]| && h[m..][i].who == who ==> fs[m..][i + 1] == fs[m..][i]
    ensures forall i :: m <= i < |h| && h[i].who == who ==> fs[i + 1] == fs[i]
  {
    forall i | m <= i < |h| && h[i].who == who ensures fs[i + 1] == fs[i] {
      assert h[m..][i - m] == h[i] && fs[m..][i - m + 1] == fs[i + 1] && fs[m..][i - m] == fs[i];
    }
  }

  /** No wait of the RPC is cut short. */
  predicate WaitsOut(h: seq<Entry>, who: nat) {
    forall e :: e in h && e.who == who && e.call.Wait? ==> e.reply == Ok
  }

  ghost function NoChange(): (FakeState, FakeState) -> bool {
    (f, f') => f' == f
  }

  // ---------- listings have one namesake at most ----------

  lemma {:induction false} SomeMember(xs: seq<string>)
    requires xs != []
    ensures exists x :: x in xs
  {
    assert xs[0] in xs;
  }

  lemma {:induction false} ListingOfStored(f: FakeState, id: string, spec: VolumeSpec, vs: seq<Volume>)
    requires FakeInv(f) && Stored(f, id, spec) && VolumeListing(f, spec.name, spec.zone, vs)
    ensures f.volumes[id].id == id && PlanVolumes(vs, spec) == Keep(FoundVolume(f.volumes[id]), [])
  {
    assert VolumeInv(f, id);
    var v := f.volumes[id];
    assert v in vs;
    assert forall w :: w in vs && w.name == spec.name ==> w == v;
    PlanVolumesMeaning(vs, spec);
    PlanOfDistinctVolumes(vs, spec);
    var plan := PlanVolumes(vs, spec);
    assert plan.Keep? && plan.canonical.volume == v;
    assert forall d :: !Orphan(vs, spec.name, plan.canonical.Id(), d);
    assert forall d :: d !in plan.doomed;
    if plan.doomed != [] {
      SomeMember(plan.doomed);
    }
  }

  /** The namesake is stored with other parameters. */
  predicate Taken(f: FakeState, id: string, spec: VolumeSpec) {
    VolumeNamed(f, id, spec.name) && !CompatibleVolume(f.volumes[id], spec)
  }

  lemma {:induction false} ListingOfTaken(f: FakeState, id: string, spec: VolumeSpec, vs: seq<Volume>)
    requires FakeInv(f) && Taken(f, id, spec) && VolumeListing(f, spec.name, spec.zone, vs)
    ensures !PlanVolumes(vs, spec).Keep?
  {
    assert VolumeInv(f, id);
    PlanVolumesMeaning(vs, spec);
    PlanOfDistinctVolumes(vs, spec);
    assert forall v :: v in vs && v.name == spec.name ==> v == f.volumes[id];
  }

  // ---------- a create that finds its volume ----------

  /** Where a create can be while its volume is stored. */
  predicate Retrying(pc: Pc, id: string, spec: VolumeSpec) {
    match pc
    case Listing(_, target, stage) => target == VolumeTarget(spec) && stage == BeforeCreate
    case Verifying(_, s, chosen) => s == spec && chosen == id
    case Unlocking(_, outcome) =>
      outcome.Returned? && outcome.resource.FoundVolume? && outcome.resource.volume.id == id
    case _ => false
  }

  lemma {:induction false} RetryStep(f: FakeState, pc: Pc, reply: Reply, f': FakeState, id: string, spec: VolumeSpec)
    requires FakeInv(f) && Stored(f, id, spec) && Retrying(pc, id, spec)
    requires Accepts(pc, reply) && FakeStep(f, CallOf(pc), reply, f')
    ensures Retrying(Step(pc, reply), id, spec) && f' == f
  {
    assert VolumeInv(f, id);
    if pc.Listing? {
      ListingOfStored(f, id, spec, reply.volumes);
    }
  }

  lemma {:induction false} RetryRun(fs: seq<FakeState>, h: seq<Entry>, who: nat, pc: Pc, id: string, spec: VolumeSpec)
    requires History(fs, h) && Undisturbed(h, id) && Stored(fs[0], id, spec)
    requires Follows(pc, Mine(h, who)) && Retrying(pc, id, spec)
    ensures Retrying(After(pc, Mine(h, who)), id, spec)
    ensures forall i :: 0 <= i < |h| && h[i].who == who ==> fs[i + 1] == fs[i]
    decreases |h|
  {
    if h != [] {
      assert h[0] in h;
      UndisturbedKeeps(fs[0], h[0].call, h[0].reply, fs[1], id);
      FakeStepKeepsInv(fs[0], h[0].call, h[0].reply, fs[1]);
      assert Undisturbed(h[1..], id);
      assert History(fs[1..], h[1..]);
      if h[0].who == who {
        var mine := Mine(h, who);
        assert mine[0] == Exchange(h[0].call, h[0].reply) && mine[1..] == Mine(h[1..], who);
        RetryStep(fs[0], pc, h[0].reply, fs[1], id, spec);
        RetryRun(fs[1..], h[1..], who, Step(pc, h[0].reply), id, spec);
      } else {
        assert Mine(h, who) == Mine(h[1..], who);
        RetryRun(fs[1..], h[1..], who, pc, id, spec);
      }
      ChangesFrom(fs, h, who, (f, g) => g == f);
    }
  }

  // ---------- a create that succeeds has stored its volume ----------

  /** A volume the create has picked carries its name and zone for as long as it exists. */
  ghost predicate Picked(f: FakeState, id: string, spec: VolumeSpec) {
    MintedVolume(f, id) && (id in f.volumes ==> f.volumes[id].name == spec.name && f.volumes[id].zone == spec.zone)
  }

  ghost predicate Creates(f: FakeState, pc: Pc, spec: VolumeSpec) {
    match pc
    case Listing(_, target, _) => target == VolumeTarget(spec)
    case Purging(_, target, _, canonical, _, _) => target == VolumeTarget(spec) && Picked(f, canonical.Id(), spec)
    case Creating(_, target) => target == VolumeTarget(spec)
    case Sleeping(_, target, _, _) => target == VolumeTarget(spec)
    case Verifying(_, s, id) => s == spec && Picked(f, id, spec)
    case Unlocking(_, _) => true
    case _ => false
  }

  lemma {:induction false} PickedStays(f: FakeState, call: Call, reply: Reply, f': FakeState, id: string,
        spec: VolumeSpec)
    requires FakeInv(f) && FakeStep(f, call, reply, f') && Picked(f, id, spec)
    ensures Picked(f', id, spec)
  {
    FakeStepKeepsInv(f, call, reply, f');
    MintedStays(f, f');
    if id in f.volumes && id in f'.volumes {
      StepKeepsVolume(f, call, reply, f', id);
    } else if id !in f.volumes {
      StaysGone(f, call, reply, f', id);
    }
  }

  lemma {:induction false} CreatesStays(f: FakeState, call: Call, reply: Reply, f': FakeState, pc: Pc, spec: VolumeSpec)
    requires FakeInv(f) && FakeStep(f, call, reply, f') && Creates(f, pc, spec)
    ensures Creates(f', pc, spec)
  {
    if pc.Purging? {
      PickedStays(f, call, reply, f', pc.canonical.Id(), spec);
    } else if pc.Verifying? {
      PickedStays(f, call, reply, f', pc.id, spec);
    }
  }

  lemma {:induction false} ReconcileCreates(f: FakeState, lock: Lock, stage: Stage, sample: Sample, spec: VolumeSpec)
    requires sample.Found? ==> Picked(f, sample.resource.Id(), spec)
    ensures Creates(f, AfterReconcile(lock, VolumeTarget(spec), stage, sample), spec)
  {
  }

  lemma {:induction false} ListingPicks(f: FakeState, vs: seq<Volume>, spec: VolumeSpec)
    requires FakeInv(f) && VolumeListing(f, spec.name, spec.zone, vs) && PlanVolumes(vs, spec).Keep?
    ensures Picked(f, PlanVolumes(vs, spec).canonical.Id(), spec)
  {
    PlanVolumesMeaning(vs, spec);
    PlanOfDistinctVolumes(vs, spec);
    var c := PlanVolumes(vs, spec).canonical.volume;
    assert VolumeInv(f, c.id);
    assert CompatibleVolume(c, spec);
  }

  lemma {:induction false} CreateStep(f: FakeState, pc: Pc, reply: Reply, f': FakeState, spec: VolumeSpec)
    requires FakeInv(f) && Creates(f, pc, spec) && Accepts(pc, reply) && FakeStep(f, CallOf(pc), reply, f')
    ensures Creates(f', Step(pc, reply), spec)
  {
    match pc
    case Listing(lock, target, stage) =>
      var plan := PlanFor(target, reply);
      if plan.Keep? {
        ListingPicks(f, reply.volumes, spec);
        ReconcileCreates(f, lock, stage, Found(plan.canonical), spec);
      } else {
        ReconcileCreates(f, lock, stage, if plan.Clash? then Hard(AlreadyExistsCode) else Missing, spec);
      }
    case Purging(lock, target, stage, canonical, next, later) =>
      PickedStays(f, CallOf(pc), reply, f', canonical.Id(), spec);
      ReconcileCreates(f', lock, stage, Found(canonical), spec);
    case _ =>
  }

  lemma {:induction false} CreateRun(fs: seq<FakeState>, h: seq<Entry>, who: nat, pc: Pc, spec: VolumeSpec)
    requires History(fs, h) && Follows(pc, Mine(h, who)) && Creates(fs[0], pc, spec)
    ensures Creates(fs[|h|], After(pc, Mine(h, who)), spec)
    decreases |h|
  {
    if h != [] {
      FakeStepKeepsInv(fs[0], h[0].call, h[0].reply, fs[1]);
      assert History(fs[1..], h[1..]);
      if h[0].who == who {
        var mine := Mine(h, who);
        assert mine[0] == Exchange(h[0].call, h[0].reply) && mine[1..] == Mine(h[1..], who);
        CreateStep(fs[0], pc, h[0].reply, fs[1], spec);
        CreateRun(fs[1..], h[1..], who, Step(pc, h[0].reply), spec);
      } else {
        assert Mine(h, who) == Mine(h[1..], who);
        CreatesStays(fs[0], h[0].call, h[0].reply, fs[1], pc, spec);
        CreateRun(fs[1..], h[1..], who, pc, spec);
      }
    }
  }

  /** The last entry of a history is the RPC's own: everything before it leads to the last step. */
  lemma {:induction false} LastOfMine(h: seq<Entry>, who: nat, pc: Pc)
    requires h != [] && h[|h| - 1].who == who && Follows(pc, Mine(h, who))
    ensures var before := Mine(h[..|h| - 1], who);
            var last := h[|h| - 1];
            && Follows(pc, before)
            && Accepts(After(pc, before), last.reply)
            && last.call == CallOf(After(pc, before))
            && After(pc, Mine(h, who)) == Step(After(pc, before), last.reply)
  {
    var n := |h| - 1;
    assert h == h[..n] + [h[n]];
    MineSplit(h[..n], [h[n]], who);
    var mine := Mine(h, who);
    assert Mine([h[n]], who) == [Exchange(h[n].call, h[n].reply)];
    assert mine[..|mine| - 1] == Mine(h[..n], who);
    LastExchange(pc, mine);
  }

  /**
   The history ends with the last exchange of a create that succeeds with volume `v`: then the
   provider holds `v` under the requested name, compatible with the request.
   */
  lemma {:induction false} SuccessIsStored(fs: seq<FakeState>, h: seq<Entry>, who: nat, lock: Lock, spec: VolumeSpec,
        v: Volume)
    requires History(fs, h) && h != [] && h[|h| - 1].who == who
    requires Follows(Enter(lock, Create(spec)), Mine(h, who))
    requires After(Enter(lock, Create(spec)), Mine(h, who)) == Unlocking(lock, Returned(FoundVolume(v)))
    ensures Stored(fs[|h|], v.id, spec)
  {
    var n := |h| - 1;
    var pc := Enter(lock, Create(spec));
    LastOfMine(h, who, pc);
    assert History(fs[..n + 1], h[..n]);
    CreateRun(fs[..n + 1], h[..n], who, pc, spec);
    InvThroughout(fs, h, 0, n);
    var last := After(pc, Mine(h[..n], who));
    ReturnedByVerify(fs[n], last, h[n].reply, fs[n + 1], spec, lock, v);
  }

  lemma {:induction false} ReturnedByVerify(f: FakeState, pc: Pc, reply: Reply, f': FakeState, spec: VolumeSpec,
        lock: Lock, v: Volume)
    requires FakeInv(f) && Creates(f, pc, spec) && Accepts(pc, reply) && FakeStep(f, CallOf(pc), reply, f')
    requires Step(pc, reply) == Unlocking(lock, Returned(FoundVolume(v)))
    ensures Stored(f', v.id, spec)
  {
    OnlyVerifyingReturns(pc, reply, lock, v);
    assert VolumeInv(f, pc.id);
  }

  /** A create hands out a volume only as it was verified. */
  lemma {:induction false} OnlyVerifyingReturns(pc: Pc, reply: Reply, lock: Lock, v: Volume)
    requires pc.Listing? || pc.Purging? ==> pc.target.VolumeTarget?
    requires pc.Listing? || pc.Purging? || pc.Creating? || pc.Sleeping? || pc.Verifying?
    requires Accepts(pc, reply) && Step(pc, reply) == Unlocking(lock, Returned(FoundVolume(v)))
    ensures pc.Verifying? && reply.OneVolume? && v == Verified(reply.volume, pc.spec) && CompatibleVolume(v, pc.spec)
  {
  }

  // ---------- the theorems about creates ----------

  /**
   Idempotence, with any other calls mixed in: after a create has succeeded with a volume, the
   same request, with no delete or expand of that volume in between or meanwhile, can only come
   back with that very volume, and none of its own calls changes the provider.
   */
  lemma {:induction false} CreateIsIdempotent(fs: seq<FakeState>, h: seq<Entry>, m: nat, a: nat, b: nat, lock: Lock,
        spec: VolumeSpec, v: Volume)
    requires History(fs, h) && 0 < m <= |h| && h[m - 1].who == a
    requires var mine := Mine(h[..m], a);
             Follows(Enter(lock, Create(spec)), mine)
               && After(Enter(lock, Create(spec)), mine) == Unlocking(lock, Returned(FoundVolume(v)))
    requires Undisturbed(h[m..], v.id)
    requires Follows(Enter(lock, Create(spec)), Mine(h[m..], b))
    ensures var end := After(Enter(lock, Create(spec)), Mine(h[m..], b));
            end.Unlocking? ==>
              end.outcome.Returned? && end.outcome.resource.FoundVolume? && end.outcome.resource.volume.id == v.id
    ensures forall i :: m <= i < |h| && h[i].who == b ==> fs[i + 1] == fs[i]
  {
    CutHistory(fs, h, m);
    SuccessIsStored(fs[..m + 1], h[..m], a, lock, spec, v);
    RetryRun(fs[m..], h[m..], b, Enter(lock, Create(spec)), v.id, spec);
    UnchangedSince(fs, h, m, b);
  }

  /** Where a create can be while its name is taken by an incompatible volume. */
  predicate Rebuffed(pc: Pc, spec: VolumeSpec) {
    match pc
    case Listing(_, target, stage) => target == VolumeTarget(spec) && (stage == BeforeCreate || stage == AfterExists)
    case Creating(_, target) => target == VolumeTarget(spec)
    case Unlocking(_, outcome) => outcome == Refused(AlreadyExistsCode)
    case _ => false
  }

  lemma {:induction false} CreateOfTaken(f: FakeState, id: string, spec: VolumeSpec, reply: Reply, f': FakeState)
    requires FakeInv(f) && Taken(f, id, spec) && CreateVolumeStep(f, spec, reply, f')
    ensures reply == Failed(AlreadyExists) && f' == f
  {
    assert VolumeNamed(f, id, spec.name);
    var other :| NamesakeAnswers(f, other, spec, reply);
    assert other == id;
  }

  lemma {:induction false} RebuffedListing(lock: Lock, spec: VolumeSpec, stage: Stage, reply: Reply)
    requires reply.VolumeList? && !PlanVolumes(reply.volumes, spec).Keep?
    requires stage == BeforeCreate || stage == AfterExists
    ensures Rebuffed(AfterListing(lock, VolumeTarget(spec), stage, reply), spec)
  {
  }

  lemma {:induction false} RebuffedStep(f: FakeState, pc: Pc, reply: Reply, f': FakeState, id: string, spec: VolumeSpec)
    requires FakeInv(f) && Taken(f, id, spec) && Rebuffed(pc, spec)
    requires Accepts(pc, reply) && FakeStep(f, CallOf(pc), reply, f')
    ensures Rebuffed(Step(pc, reply), spec) && f' == f
  {
    match pc
    case Listing(lock, _, stage) =>
      ListingOfTaken(f, id, spec, reply.volumes);
      RebuffedListing(lock, spec, stage, reply);
    case Creating(_, _) => CreateOfTaken(f, id, spec, reply, f');
    case _ =>
  }

  lemma {:induction false} RebuffedRun(fs: seq<FakeState>, h: seq<Entry>, who: nat, pc: Pc, id: string,
        spec: VolumeSpec)
    requires History(fs, h) && Undisturbed(h, id) && Taken(fs[0], id, spec)
    requires Follows(pc, Mine(h, who)) && Rebuffed(pc, spec)
    ensures Rebuffed(After(pc, Mine(h, who)), spec)
    ensures forall i :: 0 <= i < |h| && h[i].who == who ==> fs[i + 1] == fs[i]
    decreases |h|
  {
    if h != [] {
      assert h[0] in h;
      UndisturbedKeeps(fs[0], h[0].call, h[0].reply, fs[1], id);
      FakeStepKeepsInv(fs[0], h[0].call, h[0].reply, fs[1]);
      assert Undisturbed(h[1..], id);
      assert History(fs[1..], h[1..]);
      if h[0].who == who {
        var mine := Mine(h, who);
        assert mine[0] == Exchange(h[0].call, h[0].reply) && mine[1..] == Mine(h[1..], who);
        RebuffedStep(fs[0], pc, h[0].reply, fs[1], id, spec);
        RebuffedRun(fs[1..], h[1..], who, Step(pc, h[0].reply), id, spec);
      } else {
        assert Mine(h, who) == Mine(h[1..], who);
        RebuffedRun(fs[1..], h[1..], who, pc, id, spec);
      }
      ChangesFrom(fs, h, who, (f, g) => g == f);
    }
  }

  /**
   A create for a name that an incompatible volume has, in whatever zone, can only come back
   with AlreadyExists, and none of its calls changes the provider.
   */
  lemma {:induction false} IncompatibleCreateIsRefused(fs: seq<FakeState>, h: seq<Entry>, who: nat, lock: Lock,
        id: string, spec: VolumeSpec)
    requires History(fs, h) && Undisturbed(h, id) && Taken(fs[0], id, spec)
    requires Follows(Enter(lock, Create(spec)), Mine(h, who))
    ensures var end := After(Enter(lock, Create(spec)), Mine(h, who));
            end.Unlocking? ==> end.outcome == Refused(AlreadyExistsCode)
    ensures forall i :: 0 <= i < |h| && h[i].who == who ==> fs[i + 1] == fs[i]
  {
    RebuffedRun(fs, h, who, Enter(lock, Create(spec)), id, spec);
  }
}
