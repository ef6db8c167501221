/**
 The in-memory provider.  `FakeStep` says what each call does to its state; class `Fake` is the
 code, with its maps and counters, proved against it; `FakeInv` is what every call keeps.
 */
module Fakes {
  import opened Ordering
  import opened Cloud
  import opened Pagination
  import opened Protocol

  datatype FakeState = FakeState(
    volumes: map<string, Volume>, snapshots: map<string, Snapshot>, nextVolume: nat, nextSnapshot: nat)

  function VolumeName(n: nat): string { "vol-" + Itoa(n) }

  function SnapshotName(n: nat): string { "snap-" + Itoa(n) }

  function DevicePath(id: string): string { "/dev/disk/by-id/virtio-" + id }

  function ProviderVolumeType(spec: VolumeSpec): string {
    if spec.kind != "" then spec.kind
    else if spec.encrypted then ENCRYPTED_VOLUME_TYPE
    else DEFAULT_VOLUME_TYPE
  }

  function FreshVolume(id: string, spec: VolumeSpec): Volume {
    Volume(id, spec.name, spec.size, Available, spec.zone, ProviderVolumeType(spec), spec.encrypted, false, [])
  }

  function DetachedVolume(v: Volume, node: string): Volume {
    var left := WithoutNode(v.attachments, node);
    v.(attachments := left, status := if left == [] then Available else v.status)
  }

  // ---------- what every state looks like ----------

  ghost predicate MintedVolume(f: FakeState, id: string) {
    exists k: nat :: k < f.nextVolume && id == VolumeName(k)
  }

  ghost predicate MintedSnapshot(f: FakeState, id: string) {
    exists k: nat :: k < f.nextSnapshot && id == SnapshotName(k)
  }

  ghost predicate VolumeInv(f: FakeState, id: string)
    requires id in f.volumes
  {
    var v := f.volumes[id];
    && v.id == id
    && MintedVolume(f, id)
    && |v.attachments| <= 1
    && (v.status == InUse <==> v.attachments != [])
    && (v.status == Available <==> v.attachments == [])
    && (v.attachments != [] ==> v.attachments[0].device == DevicePath(id))
    && !v.multiattach
  }

  ghost predicate FakeInv(f: FakeState) {
    && (forall id :: id in f.volumes ==> VolumeInv(f, id))
    && (forall a, b :: a in f.volumes && b in f.volumes && f.volumes[a].name == f.volumes[b].name ==> a == b)
    && (forall id :: id in f.snapshots ==> f.snapshots[id].id == id && MintedSnapshot(f, id))
    && (forall a, b :: a in f.snapshots && b in f.snapshots && f.snapshots[a].name == f.snapshots[b].name ==> a == b)
  }

  // ---------- what each call does ----------

  predicate Shown(wanted: string, actual: string) {
    wanted == "" || actual == wanted
  }

  /** All stored volumes that pass the filters, by ID. */
  ghost predicate VolumeListing(f: FakeState, name: string, zone: string, vs: seq<Volume>) {
    && Sorted(vs, VolumeId) && DistinctKeys(vs, VolumeId)
    && forall v :: v in vs <==> v.id in f.volumes && f.volumes[v.id] == v && Shown(zone, v.zone) && Shown(name, v.name)
  }

  ghost predicate SnapshotListing(f: FakeState, name: string, zone: string, ss: seq<Snapshot>) {
    && Sorted(ss, SnapshotId) && DistinctKeys(ss, SnapshotId)
    && forall s :: s in ss <==>
         s.id in f.snapshots && f.snapshots[s.id] == s && Shown(zone, s.zone) && Shown(name, s.name)
  }

  predicate VolumeNamed(f: FakeState, id: string, name: string) {
    id in f.volumes && f.volumes[id].name == name
  }

  predicate SnapshotNamed(f: FakeState, id: string, name: string) {
    id in f.snapshots && f.snapshots[id].name == name
  }

  /** A namesake is returned if compatible, and otherwise in the way. */
  predicate NamesakeAnswers(f: FakeState, id: string, spec: VolumeSpec, reply: Reply) {
    && VolumeNamed(f, id, spec.name)
    && reply == if CompatibleVolume(f.volumes[id], spec) then Ok else Failed(AlreadyExists)
  }

  predicate SnapshotNamesakeAnswers(f: FakeState, id: string, name: string, source: string, reply: Reply) {
    SnapshotNamed(f, id, name) && reply == if f.snapshots[id].volumeId == source then Ok else Failed(AlreadyExists)
  }

  ghost predicate CreateVolumeStep(f: FakeState, spec: VolumeSpec, reply: Reply, f': FakeState) {
    if exists id :: VolumeNamed(f, id, spec.name) then
      f' == f && exists id :: NamesakeAnswers(f, id, spec, reply)
    else
      var id := VolumeName(f.nextVolume);
      reply == Ok && f' == f.(volumes := f.volumes[id := FreshVolume(id, spec)], nextVolume := f.nextVolume + 1)
  }

  ghost predicate CreateSnapshotStep(f: FakeState, name: string, source: string, zone: string, reply: Reply,
        f': FakeState)
  {
    if source !in f.volumes then reply == Failed(NotFound) && f' == f
    else if exists id :: SnapshotNamed(f, id, name) then
      f' == f && exists id :: SnapshotNamesakeAnswers(f, id, name, source, reply)
    else
      var id := SnapshotName(f.nextSnapshot);
      var s := Snapshot(id, name, source, f.volumes[source].size, true, zone);
      reply == Ok && f' == f.(snapshots := f.snapshots[id := s], nextSnapshot := f.nextSnapshot + 1)
  }

  function Resized(f: FakeState, id: string, size: int, zone: string): (Reply, FakeState) {
    if id !in f.volumes || !Shown(zone, f.volumes[id].zone) then (Failed(NotFound), f)
    else if size < f.volumes[id].size then (Failed(OutOfRange), f)
    else (Size(size), f.(volumes := f.volumes[id := f.volumes[id].(size := size)]))
  }

  function Attached(f: FakeState, id: string, node: string, zone: string): (Reply, FakeState) {
    if id !in f.volumes || !Shown(zone, f.volumes[id].zone) then (Failed(NotFound), f)
    else
      var v := f.volumes[id];
      if v.attachments != [] then
        (if v.attachments[0].instance != node then Failed(Conflict) else Device(v.attachments[0].device), f)
      else
        var v' := v.(attachments := [Attachment(node, DevicePath(id))], status := InUse);
        (Device(DevicePath(id)), f.(volumes := f.volumes[id := v']))
  }

  function Unattached(f: FakeState, id: string, node: string, zone: string): FakeState {
    if id !in f.volumes || !Shown(zone, f.volumes[id].zone) then f
    else f.(volumes := f.volumes[id := DetachedVolume(f.volumes[id], node)])
  }

  function SnapshotDeleted(f: FakeState, id: string, zone: string): (Reply, FakeState) {
    if id !in f.snapshots then (Ok, f)
    else if !Shown(zone, f.snapshots[id].zone) then (Failed(NotFound), f)
    else (Ok, f.(snapshots := f.snapshots - {id}))
  }

  ghost predicate FakeStep(f: FakeState, call: Call, reply: Reply, f': FakeState) {
    match call
    case CreateVolume(spec) => CreateVolumeStep(f, spec, reply, f')
    case GetVolume(id) =>
      f' == f && reply == if id in f.volumes then OneVolume(f.volumes[id]) else Failed(NotFound)
    case ListVolumes(name, zone) => f' == f && reply.VolumeList? && VolumeListing(f, name, zone, reply.volumes)
    case DeleteVolume(id) => reply == Ok && f' == f.(volumes := f.volumes - {id})
    case ResizeVolume(id, size, zone) => (reply, f') == Resized(f, id, size, zone)
    case AttachVolume(id, node, zone) => (reply, f') == Attached(f, id, node, zone)
    case DetachVolume(id, node, zone) => reply == Ok && f' == Unattached(f, id, node, zone)
    case CreateSnapshot(name, source, zone) => CreateSnapshotStep(f, name, source, zone, reply, f')
    case DeleteSnapshot(id, zone) => (reply, f') == SnapshotDeleted(f, id, zone)
    case ListSnapshots(name, zone) => f' == f && reply.SnapshotList? && SnapshotListing(f, name, zone, reply.snapshots)
    case Wait(_) => f' == f && (reply == Ok || reply == Failed(Unavailable))
    case TryLock(_) => false
    case Unlock(_) => false
  }

  // ---------- the invariant is kept ----------

  lemma {:induction false} NewNameIsFresh(f: FakeState)
    requires FakeInv(f)
    ensures !MintedVolume(f, VolumeName(f.nextVolume))
    ensures !MintedSnapshot(f, SnapshotName(f.nextSnapshot))
  {
    if k: nat :| k < f.nextVolume && VolumeName(f.nextVolume) == VolumeName(k) {
      assert VolumeName(k)[4..] == Itoa(k) && VolumeName(f.nextVolume)[4..] == Itoa(f.nextVolume);
      ItoaInjective(k, f.nextVolume);
    }
    if k: nat :| k < f.nextSnapshot && SnapshotName(f.nextSnapshot) == SnapshotName(k) {
      assert SnapshotName(k)[5..] == Itoa(k) && SnapshotName(f.nextSnapshot)[5..] == Itoa(f.nextSnapshot);
      ItoaInjective(k, f.nextSnapshot);
    }
  }

  lemma {:induction false} DetachedShrinks(attachments: seq<Attachment>, node: string)
    requires |attachments| <= 1
    ensures WithoutNode(attachments, node) == if AttachedTo(attachments, node) then [] else attachments
  {
    if attachments != [] {
      assert attachments == [attachments[0]] && attachments[1..] == [];
    }
  }

  lemma {:induction false} MintedStays(f: FakeState, f': FakeState)
    requires f.nextVolume <= f'.nextVolume && f.nextSnapshot <= f'.nextSnapshot
    ensures forall id :: MintedVolume(f, id) ==> MintedVolume(f', id)
    ensures forall id :: MintedSnapshot(f, id) ==> MintedSnapshot(f', id)
  {
  }

  /** Changing one volume in place, with its name and ID kept, keeps the invariant. */
  lemma {:induction false} UpdateKeepsFakeInv(f: FakeState, id: string, v: Volume)
    requires FakeInv(f) && id in f.volumes
    requires v.id == id && v.name == f.volumes[id].name && |v.attachments| <= 1
    requires v.status == (if v.attachments == [] then Available else InUse)
    requires !v.multiattach && (v.attachments != [] ==> v.attachments[0].device == DevicePath(id))
    ensures FakeInv(f.(volumes := f.volumes[id := v]))
  {
    var f' := f.(volumes := f.volumes[id := v]);
    MintedStays(f, f');
    assert VolumeInv(f, id);
    forall x | x in f'.volumes ensures VolumeInv(f', x) {
      assert VolumeInv(f, x);
    }
  }

  lemma {:induction false} CreateVolumeKeepsInv(f: FakeState, spec: VolumeSpec, reply: Reply, f': FakeState)
    requires FakeInv(f) && CreateVolumeStep(f, spec, reply, f')
    ensures FakeInv(f')
  {
    if f' != f {
      var id := VolumeName(f.nextVolume);
      NewNameIsFresh(f);
      MintedStays(f, f');
      assert MintedVolume(f', id);
      forall x | x in f'.volumes ensures VolumeInv(f', x) {
        if x != id { assert VolumeInv(f, x); }
      }
      forall x | x in f.volumes ensures f.volumes[x].name != spec.name {
        assert !VolumeNamed(f, x, spec.name);
      }
    }
  }

  lemma {:induction false} CreateSnapshotKeepsInv(f: FakeState, name: string, source: string, zone: string,
        reply: Reply, f': FakeState)
    requires FakeInv(f) && CreateSnapshotStep(f, name, source, zone, reply, f')
    ensures FakeInv(f')
  {
    if f' != f {
      var id := SnapshotName(f.nextSnapshot);
      NewNameIsFresh(f);
      MintedStays(f, f');
      assert MintedSnapshot(f', id);
      forall x | x in f'.volumes ensures VolumeInv(f', x) {
        assert VolumeInv(f, x);
      }
      forall x | x in f.snapshots ensures f.snapshots[x].name != name {
        assert !SnapshotNamed(f, x, name);
      }
    }
  }

  lemma {:induction false} DeletesKeepInv(f: FakeState, f': FakeState)
    requires FakeInv(f) && f'.nextVolume == f.nextVolume && f'.nextSnapshot == f.nextSnapshot
    requires forall id :: id in f'.volumes ==> id in f.volumes && f'.volumes[id] == f.volumes[id]
    requires forall id :: id in f'.snapshots ==> id in f.snapshots && f'.snapshots[id] == f.snapshots[id]
    ensures FakeInv(f')
  {
    MintedStays(f, f');
    forall id | id in f'.volumes ensures VolumeInv(f', id) {
      assert VolumeInv(f, id);
    }
  }

  /**
   Every call keeps: keys are IDs, IDs were minted by the counters, names are distinct, a volume
   has at most one attachment, at its own device path, and is in use exactly when it has one.
   */
  lemma {:induction false} FakeStepKeepsInv(f: FakeState, call: Call, reply: Reply, f': FakeState)
    requires FakeInv(f) && FakeStep(f, call, reply, f')
    ensures FakeInv(f')
    ensures f.nextVolume <= f'.nextVolume && f.nextSnapshot <= f'.nextSnapshot
  {
    match call
    case CreateVolume(spec) => CreateVolumeKeepsInv(f, spec, reply, f');
    case CreateSnapshot(name, source, zone) => CreateSnapshotKeepsInv(f, name, source, zone, reply, f');
    case DeleteVolume(id) => DeletesKeepInv(f, f');
    case DeleteSnapshot(id, zone) => DeletesKeepInv(f, f');
    case ResizeVolume(id, size, zone) =>
      if f' != f {
        assert VolumeInv(f, id);
        UpdateKeepsFakeInv(f, id, f.volumes[id].(size := size));
      }
    case AttachVolume(id, node, zone) =>
      if f' != f {
        assert VolumeInv(f, id);
        UpdateKeepsFakeInv(f, id, f'.volumes[id]);
      }
    case DetachVolume(id, node, zone) =>
      if f' != f {
        assert VolumeInv(f, id);
        DetachedShrinks(f.volumes[id].attachments, node);
        UpdateKeepsFakeInv(f, id, DetachedVolume(f.volumes[id], node));
      }
    case _ =>
  }

  // ---------- the code ----------

  class Fake {
    var volumes: map<string, Volume>
    var snapshots: map<string, Snapshot>
    var nextVolume: nat
    var nextSnapshot: nat

    ghost function State(): FakeState
      reads this
    {
      FakeState(volumes, snapshots, nextVolume, nextSnapshot)
    }

    constructor ()
      ensures State() == FakeState(map[], map[], 1, 1) && FakeInv(State())
    {
      volumes, snapshots, nextVolume, nextSnapshot := map[], map[], 1, 1;
    }

    method CreateVolume(spec: VolumeSpec) returns (reply: Reply)
      modifies this
      ensures FakeStep(old(State()), Call.CreateVolume(spec), reply, State())
    {
      var pending := volumes.Keys;
      while pending != {}
        invariant State() == old(State()) && pending <= volumes.Keys
        invariant forall id :: id in volumes.Keys - pending ==> !VolumeNamed(State(), id, spec.name)
      {
        var id :| id in pending;
        var volume := volumes[id];
        if volume.name == spec.name {
          assert VolumeNamed(State(), id, spec.name);
          reply := if !CompatibleVolume(volume, spec) then Failed(AlreadyExists) else Ok;
          assert NamesakeAnswers(State(), id, spec, reply);
          return;
        }
        pending := pending - {id};
      }
      var id := VolumeName(nextVolume);
      nextVolume := nextVolume + 1;
      volumes := volumes[id := FreshVolume(id, spec)];
      return Ok;
    }

    method GetVolumeById(id: string) returns (reply: Reply)
      ensures FakeStep(State(), GetVolume(id), reply, State())
    {
      if id !in volumes {
        return Failed(NotFound);
      }
      return OneVolume(volumes[id]);
    }

    /** One page; the reconcile asks for everything, with no token and size 0. */
    method ListVolumes(token: string, size: int, name: string, zone: string)
      returns (page: Option<(seq<Volume>, string)>)
      requires FakeInv(State())
      ensures exists vs :: VolumeListing(State(), name, zone, vs) && page == Paginate(vs, token, size)
    {
      var pending := volumes.Keys;
      var shown: seq<Volume> := [];
      while pending != {}
        invariant pending <= volumes.Keys
        invariant DistinctKeys(shown, VolumeId)
        invariant forall v :: v in shown <==>
                    v.id in volumes.Keys - pending && volumes[v.id] == v && Shown(zone, v.zone) && Shown(name, v.name)
      {
        var id :| id in pending;
        assert VolumeInv(State(), id);
        pending := pending - {id};
        var volume := volumes[id];
        if zone != "" && volume.zone != zone {
          continue;
        }
        if name != "" && volume.name != name {
          continue;
        }
        forall i | 0 <= i < |shown| ensures VolumeId(shown[i]) != id {
          assert shown[i] in shown;
        }
        shown := shown + [volume];
      }
      SortSorts(shown, VolumeId);
      SortKeepsDistinct(shown, VolumeId);
      forall v {
        SortMembers(shown, VolumeId, v);
      }
      shown := Sort(shown, VolumeId);
      assert VolumeListing(State(), name, zone, shown);
      page := Paginate(shown, token, size);
    }

    method DeleteVolume(id: string) returns (reply: Reply)
      modifies this
      ensures FakeStep(old(State()), Call.DeleteVolume(id), reply, State())
    {
      volumes := volumes - {id};
      return Ok;
    }

    method ResizeVolume(id: string, size: int, zone: string) returns (reply: Reply)
      modifies this
      ensures FakeStep(old(State()), Call.ResizeVolume(id, size, zone), reply, State())
    {
      if id !in volumes {
        return Failed(NotFound);
      }
      var volume := volumes[id];
      if zone != "" && volume.zone != zone {
        return Failed(NotFound);
      }
      if size < volume.size {
        return Failed(OutOfRange);
      }
      volume := volume.(size := size);
      volumes := volumes[id := volume];
      return Size(size);
    }

    method AttachVolume(id: string, node: string, zone: string) returns (reply: Reply)
      modifies this
      ensures FakeStep(old(State()), Call.AttachVolume(id, node, zone), reply, State())
    {
      if id !in volumes {
        return Failed(NotFound);
      }
      var volume := volumes[id];
      if zone != "" && volume.zone != zone {
        return Failed(NotFound);
      }
      if |volume.attachments| > 0 {
        var attachment := volume.attachments[0];
        if attachment.instance != node {
          return Failed(Conflict);
        }
        return Device(attachment.device);
      }
      var device := DevicePath(id);
      assert volume.attachments + [Attachment(node, device)] == [Attachment(node, device)];
      volume := volume.(attachments := volume.attachments + [Attachment(node, device)]);
      volume := volume.(status := InUse);
      volumes := volumes[id := volume];
      return Device(device);
    }

    method DetachVolume(id: string, node: string, zone: string) returns (reply: Reply)
      modifies this
      ensures FakeStep(old(State()), Call.DetachVolume(id, node, zone), reply, State())
    {
      if id !in volumes {
        return Ok;
      }
      var volume := volumes[id];
      if zone != "" && volume.zone != zone {
        return Ok;
      }
      volume := volume.(attachments := WithoutNode(volume.attachments, node));
      if |volume.attachments| == 0 {
        volume := volume.(status := Available);
      }
      volumes := volumes[id := volume];
      return Ok;
    }

    method CreateSnapshot(name: string, source: string, zone: string) returns (reply: Reply)
      modifies this
      ensures FakeStep(old(State()), Call.CreateSnapshot(name, source, zone), reply, State())
    {
      if source !in volumes {
        return Failed(NotFound);
      }
      var volume := volumes[source];
      var pending := snapshots.Keys;
      while pending != {}
        invariant State() == old(State()) && pending <= snapshots.Keys
        invariant forall id :: id in snapshots.Keys - pending ==> !SnapshotNamed(State(), id, name)
      {
        var id :| id in pending;
        var snapshot := snapshots[id];
        if snapshot.name == name {
          assert SnapshotNamed(State(), id, name);
          reply := if snapshot.volumeId != source then Failed(AlreadyExists) else Ok;
          assert SnapshotNamesakeAnswers(State(), id, name, source, reply);
          return;
        }
        pending := pending - {id};
      }
      var id := SnapshotName(nextSnapshot);
      nextSnapshot := nextSnapshot + 1;
      snapshots := snapshots[id := Snapshot(id, name, source, volume.size, true, zone)];
      return Ok;
    }

    method DeleteSnapshot(id: string, zone: string) returns (reply: Reply)
      modifies this
      ensures FakeStep(old(State()), Call.DeleteSnapshot(id, zone), reply, State())
    {
      if id !in snapshots {
        return Ok;
      }
      if zone != "" && snapshots[id].zone != zone {
        return Failed(NotFound);
      }
      snapshots := snapshots - {id};
      return Ok;
    }

    method ListSnapshots(token: string, size: int, name: string, zone: string)
      returns (page: Option<(seq<Snapshot>, string)>)
      requires FakeInv(State())
      ensures exists ss :: SnapshotListing(State(), name, zone, ss) && page == Paginate(ss, token, size)
    {
      var pending := snapshots.Keys;
      var shown: seq<Snapshot> := [];
      while pending != {}
        invariant pending <= snapshots.Keys
        invariant DistinctKeys(shown, SnapshotId)
        invariant forall s :: s in shown <==>
                    s.id in snapshots.Keys - pending && snapshots[s.id] == s && Shown(zone, s.zone)
                      && Shown(name, s.name)
      {
        var id :| id in pending;
        pending := pending - {id};
        var snapshot := snapshots[id];
        if zone != "" && snapshot.zone != zone {
          continue;
        }
        if name != "" && snapshot.name != name {
          continue;
        }
        forall i | 0 <= i < |shown| ensures SnapshotId(shown[i]) != id {
          assert shown[i] in shown;
        }
        shown := shown + [snapshot];
      }
      SortSorts(shown, SnapshotId);
      SortKeepsDistinct(shown, SnapshotId);
      forall s {
        SortMembers(shown, SnapshotId, s);
      }
      shown := Sort(shown, SnapshotId);
      assert SnapshotListing(State(), name, zone, shown);
      page := Paginate(shown, token, size);
    }
  }
}
