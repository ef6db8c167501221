/** Expanding a volume, and deleting a snapshot by the ID its creation returned, over the in-memory provider. */
module Lifetimes {
  import opened Cloud
  import opened Capacity
  import opened Reconcile
  import opened Identifiers
  import opened Pagination
  import opened Protocol
  import opened Fakes
  import opened Histories

  // ---------- expanding ----------

  predicate Expands(pc: Pc, id: string, wanted: int) {
    match pc
    case Measuring(_, i, n) => i == id && n == wanted
    case Resizing(_, i, n, _) => i == id && n == wanted
    case Unlocking(_, _) => true
    case Finished(_) => true
    case _ => false
  }

  lemma {:induction false} ExpandShape(pc: Pc, log: seq<Exchange>, id: string, wanted: int)
    requires Follows(pc, log) && Expands(pc, id, wanted)
    ensures Expands(After(pc, log), id, wanted)
    decreases |log|
  {
    if log != [] {
      ExpandShape(Step(pc, log[0].reply), log[1..], id, wanted);
    }
  }

  /** An expand that succeeds with its last call reports the true size, at least the one asked for. */
  lemma {:induction false} ExpandReaches(fs: seq<FakeState>, h: seq<Entry>, who: nat, lock: Lock, id: string,
        wanted: int, capacity: int)
    requires History(fs, h) && h != [] && h[|h| - 1].who == who
    requires Follows(Enter(lock, Expand(id, Bytes(wanted))), Mine(h, who))
    requires After(Enter(lock, Expand(id, Bytes(wanted))), Mine(h, who)) == Unlocking(lock, Expanded(capacity))
    ensures wanted <= capacity && id in fs[|h|].volumes && fs[|h|].volumes[id].size == capacity
  {
    var n := |h| - 1;
    var pc := Enter(lock, Expand(id, Bytes(wanted)));
    LastOfMine(h, who, pc);
    ExpandShape(pc, Mine(h[..n], who), id, wanted);
    ExpandedBy(fs[n], After(pc, Mine(h[..n], who)), h[n].reply, fs[n + 1], lock, id, wanted, capacity);
  }

  lemma {:induction false} ExpandedBy(f: FakeState, pc: Pc, reply: Reply, f': FakeState, lock: Lock, id: string,
        wanted: int, capacity: int)
    requires Expands(pc, id, wanted) && Accepts(pc, reply) && FakeStep(f, CallOf(pc), reply, f')
    requires Step(pc, reply) == Unlocking(lock, Expanded(capacity))
    ensures wanted <= capacity && id in f'.volumes && f'.volumes[id].size == capacity
  {
  }

  /** The history ends with an expand that succeeds. */
  ghost predicate ExpandSucceeds(fs: seq<FakeState>, h: seq<Entry>, who: nat, lock: Lock, id: string, size: Requested,
        capacity: int)
  {
    && History(fs, h) && h != [] && h[|h| - 1].who == who
    && Follows(Enter(lock, Expand(id, size)), Mine(h, who))
    && After(Enter(lock, Expand(id, size)), Mine(h, who)) == Unlocking(lock, Expanded(capacity))
  }

  /** Every expand to `required` bytes that succeeds reports at least so many. */
  ghost predicate ExpandCovers(required: int, limit: int) {
    forall fs, h, who, lock, id, capacity ::
      ExpandSucceeds(fs, h, who, lock, id, DefaultRequestedBytes(required, limit), capacity) ==> capacity >= required
  }

  lemma {:induction false} RefusedStays(lock: Lock, code: Code, log: seq<Exchange>)
    requires Follows(Unlocking(lock, Refused(code)), log)
    ensures !After(Unlocking(lock, Refused(code)), log).Unlocking? || log == []
  {
    if log != [] {
      assert Follows(Finished(Refused(code)), log[1..]);
    }
  }

  lemma {:induction false} RoundedCovers(required: int, limit: int)
    requires Int64(required) && required <= TWO63 - GIB
    ensures var size := DefaultRequestedBytes(required, limit); size.Bytes? ==> size.n >= required
  {
    RoundingOverflows(required, limit);
  }

  /** A volume of one GiB is large enough for a request that has wrapped around. */
  lemma {:induction false} WrappedExpandSucceeds(limit: int, required: int)
    returns (fs: seq<FakeState>, h: seq<Entry>, lock: Lock, id: string)
    requires Int64(required) && required > TWO63 - GIB
    ensures ExpandSucceeds(fs, h, 0, lock, id, DefaultRequestedBytes(required, limit), GIB)
  {
    RoundingOverflows(required, limit);
    id, lock := VolumeName(1), Lock(Volumes, VolumeName(1));
    var v := FreshVolume(id, VolumeSpec("data", GIB, "zone", "", false));
    var f := FakeState(map[id := v], map[], 2, 1);
    assert MintedVolume(f, id);
    assert VolumeInv(f, id);
    fs, h := [f, f], [Entry(0, GetVolume(id), OneVolume(v))];
    var pc := Enter(lock, Expand(id, Bytes(-TWO63)));
    assert h[1..] == [] && Mine([], 0) == [];
    assert Mine(h, 0) == [Exchange(CallOf(pc), OneVolume(v))];
    FollowsOne(pc, OneVolume(v));
  }

  /**
   An expand that succeeds covers what was required if and only if that is at most 2^63 - 2^30;
   beyond, it can report any old size.
   */
  lemma {:induction false} ExpandCoversIff(required: int, limit: int)
    requires Int64(required)
    ensures ExpandCovers(required, limit) <==> required <= TWO63 - GIB
  {
    var size := DefaultRequestedBytes(required, limit);
    if required <= TWO63 - GIB {
      RoundedCovers(required, limit);
      forall fs, h, who, lock, id, capacity | ExpandSucceeds(fs, h, who, lock, id, size, capacity)
        ensures capacity >= required
      {
        match size
        case Bytes(wanted) => ExpandReaches(fs, h, who, lock, id, wanted, capacity);
        case ExceedsLimit => RefusedStays(lock, OutOfRangeCode, Mine(h, who));
      }
    } else {
      var fs, h, lock, id := WrappedExpandSucceeds(limit, required);
      assert GIB < required;
    }
  }

  predicate LargeEnough(f: FakeState, id: string, wanted: int) {
    id in f.volumes && wanted <= f.volumes[id].size
  }

  predicate Satisfied(pc: Pc, id: string, wanted: int) {
    match pc
    case Measuring(_, i, n) => i == id && n == wanted
    case Unlocking(_, outcome) => outcome.Expanded? && wanted <= outcome.capacity
    case _ => false
  }

  lemma {:induction false} SatisfiedRun(fs: seq<FakeState>, h: seq<Entry>, who: nat, pc: Pc, id: string, wanted: int)
    requires History(fs, h) && LargeEnough(fs[0], id, wanted)
    requires forall e :: e in h ==> e.call != DeleteVolume(id)
    requires Follows(pc, Mine(h, who)) && Satisfied(pc, id, wanted)
    ensures Satisfied(After(pc, Mine(h, who)), id, wanted)
    ensures forall i :: 0 <= i < |h| && h[i].who == who ==> fs[i + 1] == fs[i]
    decreases |h|
  {
    if h != [] {
      assert h[0] in h;
      assert VolumeInv(fs[0], id);
      StepKeepsVolume(fs[0], h[0].call, h[0].reply, fs[1], id);
      FakeStepKeepsInv(fs[0], h[0].call, h[0].reply, fs[1]);
      assert History(fs[1..], h[1..]);
      if h[0].who == who {
        var mine := Mine(h, who);
        assert mine[0] == Exchange(h[0].call, h[0].reply) && mine[1..] == Mine(h[1..], who);
        SatisfiedRun(fs[1..], h[1..], who, Step(pc, h[0].reply), id, wanted);
      } else {
        assert Mine(h, who) == Mine(h[1..], who);
        SatisfiedRun(fs[1..], h[1..], who, pc, id, wanted);
      }
      ChangesFrom(fs, h, who, (f, g) => g == f);
    }
  }

  lemma {:induction false} RepeatedExpand(fs: seq<FakeState>, h: seq<Entry>, who: nat, lock: Lock, id: string,
        wanted: int)
    requires History(fs, h) && LargeEnough(fs[0], id, wanted)
    requires forall e :: e in h ==> e.call != DeleteVolume(id)
    requires Follows(Enter(lock, Expand(id, Bytes(wanted))), Mine(h, who))
    ensures Satisfied(After(Enter(lock, Expand(id, Bytes(wanted))), Mine(h, who)), id, wanted)
    ensures forall i :: 0 <= i < |h| && h[i].who == who ==> fs[i + 1] == fs[i]
  {
    SatisfiedRun(fs, h, who, Enter(lock, Expand(id, Bytes(wanted))), id, wanted);
  }

  /**
   After an expand has succeeded, the same request, with anything but a delete of the volume
   mixed in, can only succeed again, reports at least the size asked for, and changes nothing.
   */
  lemma {:induction false} ExpandIsIdempotent(fs: seq<FakeState>, h: seq<Entry>, m: nat, a: nat, b: nat, lock: Lock,
        id: string, wanted: int, capacity: int)
    requires History(fs, h) && 0 < m <= |h| && h[m - 1].who == a
    requires var mine := Mine(h[..m], a);
             Follows(Enter(lock, Expand(id, Bytes(wanted))), mine)
             && After(Enter(lock, Expand(id, Bytes(wanted))), mine) == Unlocking(lock, Expanded(capacity))
    requires forall e :: e in h[m..] ==> e.call != DeleteVolume(id)
    requires Follows(Enter(lock, Expand(id, Bytes(wanted))), Mine(h[m..], b))
    ensures var end := After(Enter(lock, Expand(id, Bytes(wanted))), Mine(h[m..], b));
            end.Unlocking? ==> end.outcome.Expanded? && wanted <= end.outcome.capacity
    ensures forall i :: m <= i < |h| && h[i].who == b ==> fs[i + 1] == fs[i]
  {
    CutHistory(fs, h, m);
    var before, after := fs[..m + 1], fs[m..];
    ExpandReaches(before, h[..m], a, lock, id, wanted, capacity);
    assert LargeEnough(after[0], id, wanted);
    RepeatedExpand(after, h[m..], b, lock, id, wanted);
    UnchangedSince(fs, h, m, b);
  }

  // ---------- snapshots ----------

  /** The snapshot keeps the zone it is returned with for as long as it exists. */
  ghost predicate Recorded(f: FakeState, s: Snapshot, fallbackZone: string) {
    && MintedSnapshot(f, s.id)
    && (s.id in f.snapshots ==> f.snapshots[s.id].zone == s.zone)
    && (s.zone == "" ==> fallbackZone == "")
  }

  ghost predicate RecordedResource(f: FakeState, r: Resource, fallbackZone: string) {
    r.FoundSnapshot? && Recorded(f, r.snapshot, fallbackZone)
  }

  predicate ZonedTarget(target: Target, fallbackZone: string) {
    target.SnapshotTarget? && (target.zone == "" ==> fallbackZone == "")
  }

  ghost predicate Takes(f: FakeState, pc: Pc, fallbackZone: string) {
    match pc
    case ReadingSource(_, _, _, zone) => zone == fallbackZone
    case Listing(_, target, _) => ZonedTarget(target, fallbackZone)
    case Purging(_, target, _, canonical, _, _) =>
      ZonedTarget(target, fallbackZone) && RecordedResource(f, canonical, fallbackZone)
    case Creating(_, target) => ZonedTarget(target, fallbackZone)
    case Sleeping(_, target, _, _) => ZonedTarget(target, fallbackZone)
    case Unlocking(_, outcome) => outcome.Returned? ==> RecordedResource(f, outcome.resource, fallbackZone)
    case _ => false
  }

  lemma {:induction false} RecordedStays(f: FakeState, call: Call, reply: Reply, f': FakeState, s: Snapshot,
        fallbackZone: string)
    requires FakeInv(f) && FakeStep(f, call, reply, f') && Recorded(f, s, fallbackZone)
    ensures Recorded(f', s, fallbackZone)
  {
    FakeStepKeepsInv(f, call, reply, f');
    MintedStays(f, f');
    NewNameIsFresh(f);
  }

  lemma {:induction false} TakesStays(f: FakeState, call: Call, reply: Reply, f': FakeState, pc: Pc,
        fallbackZone: string)
    requires FakeInv(f) && FakeStep(f, call, reply, f') && Takes(f, pc, fallbackZone)
    ensures Takes(f', pc, fallbackZone)
  {
    if pc.Purging? {
      RecordedStays(f, call, reply, f', pc.canonical.snapshot, fallbackZone);
    } else if pc.Unlocking? && pc.outcome.Returned? {
      RecordedStays(f, call, reply, f', pc.outcome.resource.snapshot, fallbackZone);
    }
  }

  lemma {:induction false} ListingRecorded(f: FakeState, target: Target, ss: seq<Snapshot>, fallbackZone: string)
    requires FakeInv(f) && ZonedTarget(target, fallbackZone)
    requires SnapshotListing(f, target.name, target.zone, ss)
    requires PlanSnapshots(ss, target.name, target.source, target.zone).Keep?
    ensures RecordedResource(f, PlanSnapshots(ss, target.name, target.source, target.zone).canonical, fallbackZone)
  {
    PlanSnapshotsMeaning(ss, target.name, target.source, target.zone);
    PlanOfDistinctSnapshots(ss, target.name, target.source, target.zone);
    var c := PlanSnapshots(ss, target.name, target.source, target.zone).canonical.snapshot;
    var s :| s in ss && s.name == target.name && c == s.(zone := Or(s.zone, target.zone));
    assert s.id in f.snapshots && MintedSnapshot(f, s.id);
  }

  lemma {:induction false} ReconcileTakes(f: FakeState, lock: Lock, target: Target, stage: Stage, sample: Sample,
        fallbackZone: string)
    requires ZonedTarget(target, fallbackZone)
    requires sample.Found? ==> RecordedResource(f, sample.resource, fallbackZone)
    ensures Takes(f, AfterReconcile(lock, target, stage, sample), fallbackZone)
  {
  }

  lemma {:induction false} TakeListing(f: FakeState, lock: Lock, target: Target, stage: Stage, reply: Reply,
        fallbackZone: string)
    requires FakeInv(f) && ZonedTarget(target, fallbackZone)
    requires reply.SnapshotList? && SnapshotListing(f, target.name, target.zone, reply.snapshots)
    ensures Takes(f, AfterListing(lock, target, stage, reply), fallbackZone)
  {
    var plan := PlanFor(target, reply);
    if plan.Keep? {
      ListingRecorded(f, target, reply.snapshots, fallbackZone);
      ReconcileTakes(f, lock, target, stage, Found(plan.canonical), fallbackZone);
    } else {
      ReconcileTakes(f, lock, target, stage, if plan.Clash? then Hard(AlreadyExistsCode) else Missing, fallbackZone);
    }
  }

  lemma {:induction false} TakeStep(f: FakeState, pc: Pc, reply: Reply, f': FakeState, fallbackZone: string)
    requires FakeInv(f) && Takes(f, pc, fallbackZone) && Accepts(pc, reply) && FakeStep(f, CallOf(pc), reply, f')
    ensures Takes(f', Step(pc, reply), fallbackZone)
  {
    match pc
    case Listing(lock, target, stage) => TakeListing(f, lock, target, stage, reply, fallbackZone);
    case Purging(lock, target, stage, canonical, next, later) =>
      RecordedStays(f, CallOf(pc), reply, f', canonical.snapshot, fallbackZone);
      ReconcileTakes(f', lock, target, stage, if SoftDelete(reply) then Found(canonical) else Missing, fallbackZone);
    case _ =>
  }

  lemma {:induction false} TakeRun(fs: seq<FakeState>, h: seq<Entry>, who: nat, pc: Pc, fallbackZone: string)
    requires History(fs, h) && Follows(pc, Mine(h, who)) && Takes(fs[0], pc, fallbackZone)
    ensures Takes(fs[|h|], After(pc, Mine(h, who)), fallbackZone)
    decreases |h|
  {
    if h != [] {
      FakeStepKeepsInv(fs[0], h[0].call, h[0].reply, fs[1]);
      assert History(fs[1..], h[1..]);
      if h[0].who == who {
        var mine := Mine(h, who);
        assert mine[0] == Exchange(h[0].call, h[0].reply) && mine[1..] == Mine(h[1..], who);
        TakeStep(fs[0], pc, h[0].reply, fs[1], fallbackZone);
        TakeRun(fs[1..], h[1..], who, Step(pc, h[0].reply), fallbackZone);
      } else {
        assert Mine(h, who) == Mine(h[1..], who);
        TakesStays(fs[0], h[0].call, h[0].reply, fs[1], pc, fallbackZone);
        TakeRun(fs[1..], h[1..], who, pc, fallbackZone);
      }
    }
  }

  lemma {:induction false} SnapshotNamesAreSlashFree(n: nat)
    ensures SlashFree(SnapshotName(n))
  {
    var s := SnapshotName(n);
    forall i | 0 <= i < |s| ensures s[i] != '/' {
      if i >= 5 {
        assert s[i] == Itoa(n)[i - 5] && IsDigit(Itoa(n)[i - 5]);
      }
    }
  }

  /**
   The CSI ID that a create returned, handed to DeleteSnapshot, removes that snapshot and nothing
   else, at any later time and with anything mixed in, provided the zone has no "/".
   */
  lemma {:induction false} DeleteRemovesWhatCreateReturned(fs: seq<FakeState>, h: seq<Entry>, m: nat, j: nat, who: nat,
                                        lock: Lock, name: string, source: string, fallbackZone: string, s: Snapshot)
    requires History(fs, h) && m <= j < |h|
    requires var mine := Mine(h[..m], who);
             Follows(Enter(lock, TakeSnapshot(name, source, fallbackZone)), mine)
             && After(Enter(lock, TakeSnapshot(name, source, fallbackZone)), mine) ==
               Unlocking(lock, Returned(FoundSnapshot(s)))
    requires SlashFree(s.zone)
    requires var (id, zone) := DecodeSnapshotId(EncodeSnapshotId(s.id, s.zone), fallbackZone);
             h[j].call == DeleteSnapshot(id, zone)
    ensures Begin(DropSnapshot(EncodeSnapshotId(s.id, s.zone), fallbackZone)) == Dropping(s.id, s.zone)
    ensures h[j].reply == Ok && fs[j + 1] == fs[j].(snapshots := fs[j].snapshots - {s.id})
  {
    assert History(fs[..m + 1], h[..m]);
    TakeRun(fs[..m + 1], h[..m], who, Enter(lock, TakeSnapshot(name, source, fallbackZone)), fallbackZone);
    assert Recorded(fs[m], s, fallbackZone);
    RecordedLater(fs, h, m, j, s, fallbackZone);
    ReturnedIdDecodes(fs[j], s, fallbackZone);
    assert h[j].call == DeleteSnapshot(s.id, s.zone);
    assert FakeStep(fs[j], h[j].call, h[j].reply, fs[j + 1]);
    RecordedIsDeleted(fs[j], s, fallbackZone);
  }

  lemma {:induction false} ReturnedIdDecodes(f: FakeState, s: Snapshot, fallbackZone: string)
    requires Recorded(f, s, fallbackZone) && SlashFree(s.zone)
    ensures DecodeSnapshotId(EncodeSnapshotId(s.id, s.zone), fallbackZone) == (s.id, s.zone)
    ensures Begin(DropSnapshot(EncodeSnapshotId(s.id, s.zone), fallbackZone)) == Dropping(s.id, s.zone)
  {
    var k: nat :| s.id == SnapshotName(k);
    SnapshotNamesAreSlashFree(k);
    assert s.id[0] == 's';
    SnapshotIdRoundTrip(s.id, s.zone, fallbackZone);
    assert EncodeSnapshotId(s.id, s.zone) != "";
  }

  lemma {:induction false} RecordedIsDeleted(f: FakeState, s: Snapshot, fallbackZone: string)
    requires Recorded(f, s, fallbackZone)
    ensures SnapshotDeleted(f, s.id, s.zone) == (Ok, f.(snapshots := f.snapshots - {s.id}))
  {
    if s.id !in f.snapshots {
      assert f.snapshots - {s.id} == f.snapshots;
      assert f.(snapshots := f.snapshots - {s.id}) == f;
    }
  }

  lemma {:induction false} RecordedLater(fs: seq<FakeState>, h: seq<Entry>, m: nat, j: nat, s: Snapshot,
        fallbackZone: string)
    requires History(fs, h) && m <= j <= |h| && Recorded(fs[m], s, fallbackZone)
    ensures Recorded(fs[j], s, fallbackZone)
    decreases j
  {
    if m < j {
      RecordedLater(fs, h, m, j - 1, s, fallbackZone);
      InvThroughout(fs, h, 0, j - 1);
      RecordedStays(fs[j - 1], h[j - 1].call, h[j - 1].reply, fs[j], s, fallbackZone);
    }
  }
}
