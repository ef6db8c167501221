/** Repeated and conflicting snapshot requests over the in-memory provider, with any other calls mixed in. */
module SnapshotHistories {
  import opened Cloud
  import opened Reconcile
  import opened Protocol
  import opened Fakes
  import opened Histories

  /** The snapshot is stored, and listings of the zone show it. */
  predicate Visible(f: FakeState, id: string, name: string, source: string, zone: string) {
    SnapshotNamed(f, id, name) && f.snapshots[id].volumeId == source && Shown(zone, f.snapshots[id].zone)
  }

  predicate Kept(f: FakeState, id: string, name: string, source: string, fallbackZone: string, zone: string) {
    && Visible(f, id, name, source, zone)
    && source in f.volumes && ZoneFor(f, source, fallbackZone) == zone
  }

  /** Nobody deletes the snapshot or its source. */
  predicate Unharmed(h: seq<Entry>, id: string, source: string) {
    forall e :: e in h ==> e.call != DeleteVolume(source) && !(e.call.DeleteSnapshot? && e.call.id == id)
  }

  lemma {:induction false} UnharmedKeeps(f: FakeState, call: Call, reply: Reply, f': FakeState,
                                         id: string, name: string, source: string, fallbackZone: string, zone: string)
    requires FakeInv(f) && FakeStep(f, call, reply, f') && Kept(f, id, name, source, fallbackZone, zone)
    requires call != DeleteVolume(source) && !(call.DeleteSnapshot? && call.id == id)
    ensures Kept(f', id, name, source, fallbackZone, zone)
  {
    NewNameIsFresh(f);
    assert VolumeInv(f, source);
  }

  /** The listing shows this snapshot as the only one of its name. */
  lemma {:induction false} ListingOfVisible(f: FakeState, id: string, name: string, source: string, zone: string,
        ss: seq<Snapshot>)
    requires FakeInv(f) && Visible(f, id, name, source, zone) && SnapshotListing(f, name, zone, ss)
    ensures PlanSnapshots(ss, name, source, zone) ==
      Keep(FoundSnapshot(f.snapshots[id].(zone := Or(f.snapshots[id].zone, zone))), [])
  {
    var s := f.snapshots[id];
    assert s.id == id && s in ss;
    assert forall t :: t in ss && t.name == name ==> t == s;
    PlanSnapshotsMeaning(ss, name, source, zone);
    PlanOfDistinctSnapshots(ss, name, source, zone);
    var plan := PlanSnapshots(ss, name, source, zone);
    assert plan.Keep?;
    if plan.doomed != [] {
      SomeMember(plan.doomed);
    }
  }

  // ---------- a request that finds its snapshot ----------

  predicate Retaking(pc: Pc, id: string, name: string, source: string, fallbackZone: string, zone: string) {
    match pc
    case ReadingSource(_, n, src, fallback) => n == name && src == source && fallback == fallbackZone
    case Listing(_, target, stage) => target == SnapshotTarget(name, source, zone) && stage == BeforeCreate
    case Unlocking(_, outcome) =>
      outcome.Returned? && outcome.resource.FoundSnapshot? && outcome.resource.snapshot.id == id
    case _ => false
  }

  lemma {:induction false} RetakeStep(f: FakeState, pc: Pc, reply: Reply, f': FakeState,
                                      id: string, name: string, source: string, fallbackZone: string, zone: string)
    requires FakeInv(f) && Kept(f, id, name, source, fallbackZone, zone)
      && Retaking(pc, id, name, source, fallbackZone, zone)
    requires Accepts(pc, reply) && FakeStep(f, CallOf(pc), reply, f')
    ensures Retaking(Step(pc, reply), id, name, source, fallbackZone, zone) && f' == f
  {
    if pc.Listing? {
      ListingOfVisible(f, id, name, source, zone, reply.snapshots);
      assert f.snapshots[id].id == id;
    }
  }

  lemma {:induction false} RetakeRun(fs: seq<FakeState>, h: seq<Entry>, who: nat, pc: Pc,
                                     id: string, name: string, source: string, fallbackZone: string, zone: string)
    requires History(fs, h) && Unharmed(h, id, source) && Kept(fs[0], id, name, source, fallbackZone, zone)
    requires Follows(pc, Mine(h, who)) && Retaking(pc, id, name, source, fallbackZone, zone)
    ensures Retaking(After(pc, Mine(h, who)), id, name, source, fallbackZone, zone)
    ensures forall i :: 0 <= i < |h| && h[i].who == who ==> fs[i + 1] == fs[i]
    decreases |h|
  {
    if h != [] {
      assert h[0] in h;
      UnharmedKeeps(fs[0], h[0].call, h[0].reply, fs[1], id, name, source, fallbackZone, zone);
      FakeStepKeepsInv(fs[0], h[0].call, h[0].reply, fs[1]);
      assert Unharmed(h[1..], id, source);
      assert History(fs[1..], h[1..]);
      if h[0].who == who {
        var mine := Mine(h, who);
        assert mine[0] == Exchange(h[0].call, h[0].reply) && mine[1..] == Mine(h[1..], who);
        RetakeStep(fs[0], pc, h[0].reply, fs[1], id, name, source, fallbackZone, zone);
        RetakeRun(fs[1..], h[1..], who, Step(pc, h[0].reply), id, name, source, fallbackZone, zone);
      } else {
        assert Mine(h, who) == Mine(h[1..], who);
        RetakeRun(fs[1..], h[1..], who, pc, id, name, source, fallbackZone, zone);
      }
      ChangesFrom(fs, h, who, (f, g) => g == f);
    }
  }

  // ---------- a request that succeeds has its snapshot stored ----------

  ghost predicate TakesFor(f: FakeState, target: Target, name: string, source: string, fallbackZone: string) {
    target.SnapshotTarget? && target.name == name && target.source == source
      && InZone(f, source, fallbackZone, target.zone)
  }

  ghost predicate Taking(f: FakeState, pc: Pc, name: string, source: string, fallbackZone: string) {
    match pc
    case ReadingSource(_, n, src, fallback) => n == name && src == source && fallback == fallbackZone
    case Listing(_, target, _) => TakesFor(f, target, name, source, fallbackZone)
    case Creating(_, target) => TakesFor(f, target, name, source, fallbackZone)
    case Sleeping(_, target, _, _) => TakesFor(f, target, name, source, fallbackZone)
    case Unlocking(_, _) => true
    case _ => false
  }

  lemma {:induction false} TakingStays(f: FakeState, call: Call, reply: Reply, f': FakeState, pc: Pc, name: string,
        source: string, fallbackZone: string)
    requires FakeInv(f) && FakeStep(f, call, reply, f') && Taking(f, pc, name, source, fallbackZone)
    ensures Taking(f', pc, name, source, fallbackZone)
  {
    if pc.Listing? || pc.Creating? || pc.Sleeping? {
      InZoneStays(f, call, reply, f', source, fallbackZone, pc.target.zone);
    }
  }

  /** No listing of the in-memory provider has two snapshots of a name. */
  lemma {:induction false} NothingDoomed(f: FakeState, name: string, source: string, zone: string, ss: seq<Snapshot>)
    requires FakeInv(f) && SnapshotListing(f, name, zone, ss) && PlanSnapshots(ss, name, source, zone).Keep?
    ensures var plan := PlanSnapshots(ss, name, source, zone);
            plan.doomed == [] && Visible(f, plan.canonical.Id(), name, source, zone)
  {
    PlanSnapshotsMeaning(ss, name, source, zone);
    PlanOfDistinctSnapshots(ss, name, source, zone);
    var plan := PlanSnapshots(ss, name, source, zone);
    var s :| s in ss && s.name == name && plan.canonical.snapshot == s.(zone := Or(s.zone, zone));
    assert Visible(f, s.id, name, source, zone);
    ListingOfVisible(f, s.id, name, source, zone, ss);
  }

  lemma {:induction false} ReconcileTaking(f: FakeState, lock: Lock, target: Target, stage: Stage, sample: Sample,
        name: string, source: string, fallbackZone: string)
    requires TakesFor(f, target, name, source, fallbackZone)
    ensures Taking(f, AfterReconcile(lock, target, stage, sample), name, source, fallbackZone)
  {
  }

  lemma {:induction false} TakingStep(f: FakeState, pc: Pc, reply: Reply, f': FakeState, name: string, source: string,
        fallbackZone: string)
    requires FakeInv(f) && Taking(f, pc, name, source, fallbackZone) && Accepts(pc, reply)
      && FakeStep(f, CallOf(pc), reply, f')
    ensures Taking(f', Step(pc, reply), name, source, fallbackZone)
  {
    match pc
    case ReadingSource(_, _, _, _) =>
      if reply.OneVolume? {
        assert VolumeInv(f, source);
      }
    case Listing(lock, target, stage) =>
      var plan := PlanFor(target, reply);
      if plan.Keep? {
        NothingDoomed(f, name, source, target.zone, reply.snapshots);
        ReconcileTaking(f, lock, target, stage, Found(plan.canonical), name, source, fallbackZone);
      } else {
        ReconcileTaking(f, lock, target, stage, if plan.Clash? then Hard(AlreadyExistsCode) else Missing, name, source,
          fallbackZone);
      }
    case Unlocking(_, _) =>
    case Creating(_, target) => InZoneStays(f, CallOf(pc), reply, f', source, fallbackZone, target.zone);
    case Sleeping(_, target, _, _) =>
  }

  lemma {:induction false} TakingRun(fs: seq<FakeState>, h: seq<Entry>, who: nat, pc: Pc, name: string, source: string,
        fallbackZone: string)
    requires History(fs, h) && Follows(pc, Mine(h, who)) && Taking(fs[0], pc, name, source, fallbackZone)
    ensures Taking(fs[|h|], After(pc, Mine(h, who)), name, source, fallbackZone)
    decreases |h|
  {
    if h != [] {
      FakeStepKeepsInv(fs[0], h[0].call, h[0].reply, fs[1]);
      assert History(fs[1..], h[1..]);
      if h[0].who == who {
        var mine := Mine(h, who);
        assert mine[0] == Exchange(h[0].call, h[0].reply) && mine[1..] == Mine(h[1..], who);
        TakingStep(fs[0], pc, h[0].reply, fs[1], name, source, fallbackZone);
        TakingRun(fs[1..], h[1..], who, Step(pc, h[0].reply), name, source, fallbackZone);
      } else {
        assert Mine(h, who) == Mine(h[1..], who);
        TakingStays(fs[0], h[0].call, h[0].reply, fs[1], pc, name, source, fallbackZone);
        TakingRun(fs[1..], h[1..], who, pc, name, source, fallbackZone);
      }
    }
  }

  lemma {:induction false} ReturnedByListing(f: FakeState, pc: Pc, reply: Reply, f': FakeState, name: string,
        source: string, fallbackZone: string, lock: Lock, s: Snapshot)
    requires FakeInv(f) && Taking(f, pc, name, source, fallbackZone) && Accepts(pc, reply)
      && FakeStep(f, CallOf(pc), reply, f')
    requires Step(pc, reply) == Unlocking(lock, Returned(FoundSnapshot(s)))
    ensures pc.Listing? && TakesFor(f', pc.target, name, source, fallbackZone)
      && Visible(f', s.id, name, source, pc.target.zone)
  {
    assert pc.Listing?;
    NothingDoomed(f, name, source, pc.target.zone, reply.snapshots);
  }

  /** When a snapshot request succeeds, the provider holds the snapshot under the requested name and source. */
  lemma {:induction false} SnapshotIsStored(fs: seq<FakeState>, h: seq<Entry>, who: nat, lock: Lock,
                                            name: string, source: string, fallbackZone: string, s: Snapshot)
    requires History(fs, h) && h != [] && h[|h| - 1].who == who
    requires Follows(Enter(lock, TakeSnapshot(name, source, fallbackZone)), Mine(h, who))
    requires After(Enter(lock, TakeSnapshot(name, source, fallbackZone)), Mine(h, who)) ==
      Unlocking(lock, Returned(FoundSnapshot(s)))
    ensures SnapshotNamed(fs[|h|], s.id, name) && fs[|h|].snapshots[s.id].volumeId == source
    ensures source in fs[|h|].volumes ==>
              Kept(fs[|h|], s.id, name, source, fallbackZone, ZoneFor(fs[|h|], source, fallbackZone))
  {
    var n := |h| - 1;
    var pc := Enter(lock, TakeSnapshot(name, source, fallbackZone));
    LastOfMine(h, who, pc);
    var last := TakingBeforeLast(fs, h, who, pc, name, source, fallbackZone);
    ReturnedByListing(fs[n], last, h[n].reply, fs[n + 1], name, source, fallbackZone, lock, s);
  }

  lemma {:induction false} TakingBeforeLast(fs: seq<FakeState>, h: seq<Entry>, who: nat, pc: Pc, name: string,
        source: string, fallbackZone: string)
    returns (last: Pc)
    requires History(fs, h) && h != [] && Taking(fs[0], pc, name, source, fallbackZone)
    requires Follows(pc, Mine(h[..|h| - 1], who))
    ensures last == After(pc, Mine(h[..|h| - 1], who))
    ensures FakeInv(fs[|h| - 1]) && Taking(fs[|h| - 1], last, name, source, fallbackZone)
  {
    var n := |h| - 1;
    assert History(fs[..n + 1], h[..n]);
    TakingRun(fs[..n + 1], h[..n], who, pc, name, source, fallbackZone);
    InvThroughout(fs, h, 0, n);
    last := After(pc, Mine(h[..n], who));
  }

  // ---------- the theorems ----------

  /**
   Idempotence: after a snapshot request has succeeded, the same request, as long as nobody
   deletes the snapshot or its source, can only come back with that very snapshot, and none of
   its own calls changes the provider.
   */
  lemma {:induction false} SnapshotIsIdempotent(fs: seq<FakeState>, h: seq<Entry>, m: nat, a: nat, b: nat, lock: Lock,
                                                name: string, source: string, fallbackZone: string, s: Snapshot)
    requires History(fs, h) && 0 < m <= |h| && h[m - 1].who == a
    requires var mine := Mine(h[..m], a);
             Follows(Enter(lock, TakeSnapshot(name, source, fallbackZone)), mine)
             && After(Enter(lock, TakeSnapshot(name, source, fallbackZone)), mine) ==
               Unlocking(lock, Returned(FoundSnapshot(s)))
    requires source in fs[m].volumes && Unharmed(h[m..], s.id, source)
    requires Follows(Enter(lock, TakeSnapshot(name, source, fallbackZone)), Mine(h[m..], b))
    ensures var end := After(Enter(lock, TakeSnapshot(name, source, fallbackZone)), Mine(h[m..], b));
            end.Unlocking? ==>
              end.outcome.Returned? && end.outcome.resource.FoundSnapshot? && end.outcome.resource.snapshot.id == s.id
    ensures forall i :: m <= i < |h| && h[i].who == b ==> fs[i + 1] == fs[i]
  {
    CutHistory(fs, h, m);
    SnapshotIsStored(fs[..m + 1], h[..m], a, lock, name, source, fallbackZone, s);
    var pc := Enter(lock, TakeSnapshot(name, source, fallbackZone));
    RetakeRun(fs[m..], h[m..], b, pc, s.id, name, source, fallbackZone, ZoneFor(fs[m], source, fallbackZone));
    UnchangedSince(fs, h, m, b);
  }

  // ---------- a name that another source's snapshot has ----------

  predicate Occupied(f: FakeState, id: string, name: string, source: string) {
    SnapshotNamed(f, id, name) && f.snapshots[id].volumeId != source
  }

  predicate Repelled(pc: Pc, name: string, source: string) {
    match pc
    case ReadingSource(_, n, src, _) => n == name && src == source
    case Listing(_, target, stage) =>
      target.SnapshotTarget? && target.name == name && target.source == source && stage == BeforeCreate
    case Creating(_, target) => target.SnapshotTarget? && target.name == name && target.source == source
    case Unlocking(_, outcome) => outcome == Refused(AlreadyExistsCode) || outcome == Refused(NotFoundCode)
    case _ => false
  }

  lemma {:induction false} OccupiedStays(f: FakeState, call: Call, reply: Reply, f': FakeState, id: string,
        name: string, source: string)
    requires FakeInv(f) && FakeStep(f, call, reply, f') && Occupied(f, id, name, source)
    requires !(call.DeleteSnapshot? && call.id == id)
    ensures Occupied(f', id, name, source)
  {
    NewNameIsFresh(f);
  }

  lemma {:induction false} ListingOfOccupied(f: FakeState, id: string, name: string, source: string, zone: string,
        ss: seq<Snapshot>)
    requires FakeInv(f) && Occupied(f, id, name, source) && SnapshotListing(f, name, zone, ss)
    ensures !PlanSnapshots(ss, name, source, zone).Keep?
  {
    PlanSnapshotsMeaning(ss, name, source, zone);
    PlanOfDistinctSnapshots(ss, name, source, zone);
    assert forall t :: t in ss && t.name == name ==> t == f.snapshots[id];
  }

  lemma {:induction false} CreateOfOccupied(f: FakeState, id: string, name: string, source: string, zone: string,
        reply: Reply, f': FakeState)
    requires FakeInv(f) && Occupied(f, id, name, source) && CreateSnapshotStep(f, name, source, zone, reply, f')
    ensures (reply == Failed(AlreadyExists) || reply == Failed(NotFound)) && f' == f
  {
    if source in f.volumes {
      var other :| SnapshotNamesakeAnswers(f, other, name, source, reply);
      assert other == id;
    }
  }

  lemma {:induction false} RepelStep(f: FakeState, pc: Pc, reply: Reply, f': FakeState, id: string, name: string,
        source: string)
    requires FakeInv(f) && Occupied(f, id, name, source) && Repelled(pc, name, source)
    requires Accepts(pc, reply) && FakeStep(f, CallOf(pc), reply, f')
    ensures Repelled(Step(pc, reply), name, source) && f' == f
  {
    match pc
    case Listing(_, target, _) => ListingOfOccupied(f, id, name, source, target.zone, reply.snapshots);
    case Creating(_, target) => CreateOfOccupied(f, id, name, source, target.zone, reply, f');
    case _ =>
  }

  lemma {:induction false} RepelRun(fs: seq<FakeState>, h: seq<Entry>, who: nat, pc: Pc, id: string, name: string,
        source: string)
    requires History(fs, h) && Occupied(fs[0], id, name, source)
    requires forall e :: e in h ==> !(e.call.DeleteSnapshot? && e.call.id == id)
    requires Follows(pc, Mine(h, who)) && Repelled(pc, name, source)
    ensures Repelled(After(pc, Mine(h, who)), name, source)
    ensures forall i :: 0 <= i < |h| && h[i].who == who ==> fs[i + 1] == fs[i]
    decreases |h|
  {
    if h != [] {
      assert h[0] in h;
      OccupiedStays(fs[0], h[0].call, h[0].reply, fs[1], id, name, source);
      FakeStepKeepsInv(fs[0], h[0].call, h[0].reply, fs[1]);
      assert forall e :: e in h[1..] ==> e in h;
      assert History(fs[1..], h[1..]);
      if h[0].who == who {
        var mine := Mine(h, who);
        assert mine[0] == Exchange(h[0].call, h[0].reply) && mine[1..] == Mine(h[1..], who);
        RepelStep(fs[0], pc, h[0].reply, fs[1], id, name, source);
        RepelRun(fs[1..], h[1..], who, Step(pc, h[0].reply), id, name, source);
      } else {
        assert Mine(h, who) == Mine(h[1..], who);
        RepelRun(fs[1..], h[1..], who, pc, id, name, source);
      }
      ChangesFrom(fs, h, who, (f, g) => g == f);
    }
  }

  /**
   While a name belongs to a snapshot of another volume, a request for it can only answer
   AlreadyExists, or NotFound for want of its own source, and changes nothing.
   */
  lemma {:induction false} OccupiedNameIsRefused(fs: seq<FakeState>, h: seq<Entry>, who: nat, lock: Lock,
                                                 id: string, name: string, source: string, fallbackZone: string)
    requires History(fs, h) && Occupied(fs[0], id, name, source)
    requires forall e :: e in h ==> !(e.call.DeleteSnapshot? && e.call.id == id)
    requires Follows(Enter(lock, TakeSnapshot(name, source, fallbackZone)), Mine(h, who))
    ensures var end := After(Enter(lock, TakeSnapshot(name, source, fallbackZone)), Mine(h, who));
            end.Unlocking? ==> end.outcome == Refused(AlreadyExistsCode) || end.outcome == Refused(NotFoundCode)
    ensures forall i :: 0 <= i < |h| && h[i].who == who ==> fs[i + 1] == fs[i]
  {
    RepelRun(fs, h, who, Enter(lock, TakeSnapshot(name, source, fallbackZone)), id, name, source);
  }
}
