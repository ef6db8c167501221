/**
 What the calls of the in-memory provider come to for a caller: whom they touch, when they are
 refused, and what undoes what.
 */
module FakeLaws {
  import opened Cloud
  import opened Protocol
  import opened Fakes

  /** The volume that a call may change or remove. */
  predicate AltersVolume(call: Call, id: string) {
    match call
    case DeleteVolume(i) => i == id
    case ResizeVolume(i, _, _) => i == id
    case AttachVolume(i, _, _) => i == id
    case DetachVolume(i, _, _) => i == id
    case _ => false
  }

  predicate AltersSnapshot(call: Call, id: string) {
    call.DeleteSnapshot? && call.id == id
  }

  /** A call leaves alone every volume but the one it names, and only a create adds one. */
  lemma {:induction false} OthersUntouched(f: FakeState, call: Call, reply: Reply, f': FakeState, id: string)
    requires FakeInv(f) && FakeStep(f, call, reply, f')
    ensures id in f.volumes && !AltersVolume(call, id) ==> id in f'.volumes && f'.volumes[id] == f.volumes[id]
    ensures id in f'.volumes && id !in f.volumes ==> call.CreateVolume? && id == VolumeName(f.nextVolume)
  {
    NewNameIsFresh(f);
    if id in f.volumes {
      assert VolumeInv(f, id);
    }
  }

  /** Nor does it touch another snapshot. */
  lemma {:induction false} OtherSnapshotsUntouched(f: FakeState, call: Call, reply: Reply, f': FakeState, id: string)
    requires FakeInv(f) && FakeStep(f, call, reply, f')
    ensures id in f.snapshots && !AltersSnapshot(call, id) ==>
              id in f'.snapshots && f'.snapshots[id] == f.snapshots[id]
    ensures id in f'.snapshots && id !in f.snapshots ==> call.CreateSnapshot? && id == SnapshotName(f.nextSnapshot)
  {
    NewNameIsFresh(f);
  }

  /** A call that is refused, and a read, change nothing. */
  lemma {:induction false} RefusalsChangeNothing(f: FakeState, call: Call, reply: Reply, f': FakeState)
    requires FakeStep(f, call, reply, f')
    requires reply.Failed? || call.GetVolume? || call.ListVolumes? || call.ListSnapshots? || call.Wait?
    ensures f' == f
  {
  }

  predicate OnNode(f: FakeState, id: string, node: string) {
    id in f.volumes && AttachedTo(f.volumes[id].attachments, node)
  }

  predicate Elsewhere(f: FakeState, id: string, node: string) {
    id in f.volumes && exists a :: a in f.volumes[id].attachments && a.instance != node
  }

  /** The call's zone, if it gives one, is the volume's. */
  predicate Reaches(f: FakeState, id: string, zone: string) {
    id in f.volumes && (zone == "" || zone == f.volumes[id].zone)
  }

  /**
   An attach works exactly on a volume that the zone reaches and that is on no other node, and
   then the volume is on that node, at the device that was answered, and nowhere else.
   */
  lemma {:induction false} AttachMeaning(f: FakeState, id: string, node: string, zone: string, reply: Reply,
        f': FakeState)
    requires FakeInv(f) && FakeStep(f, AttachVolume(id, node, zone), reply, f')
    ensures reply.Device? <==> Reaches(f, id, zone) && !Elsewhere(f, id, node)
    ensures reply == Failed(Conflict) <==> Reaches(f, id, zone) && Elsewhere(f, id, node)
    ensures reply == Failed(NotFound) <==> !Reaches(f, id, zone)
    ensures reply.Device? ==>
              && id in f'.volumes
              && f'.volumes[id].attachments == [Attachment(node, reply.device)]
              && f'.volumes[id].(attachments := f.volumes[id].attachments, status := f.volumes[id].status)
                 == f.volumes[id]
    ensures OnNode(f, id, node) ==> f' == f
  {
    if id in f.volumes {
      assert VolumeInv(f, id);
      var attachments := f.volumes[id].attachments;
      if attachments != [] {
        assert attachments == [attachments[0]] && attachments[0] in attachments;
      }
    }
  }

  /**
   A detach that reaches the volume ends its attachment to that node and to no other; one that
   does not reach it changes nothing.  Both succeed.
   */
  lemma {:induction false} DetachMeaning(f: FakeState, id: string, node: string, zone: string, reply: Reply,
        f': FakeState)
    requires FakeInv(f) && FakeStep(f, DetachVolume(id, node, zone), reply, f')
    ensures reply == Ok
    ensures !Reaches(f, id, zone) || !OnNode(f, id, node) ==> f' == f
    ensures Reaches(f, id, zone) ==>
              && id in f'.volumes
              && !OnNode(f', id, node)
              && (forall a :: a in f'.volumes[id].attachments <==> a in f.volumes[id].attachments && a.instance != node)
              && f'.volumes[id].(attachments := f.volumes[id].attachments, status := f.volumes[id].status)
                 == f.volumes[id]
  {
    if Reaches(f, id, zone) {
      assert VolumeInv(f, id);
      WithoutNodeMembers(f.volumes[id].attachments, node);
      DetachedShrinks(f.volumes[id].attachments, node);
      if !OnNode(f, id, node) {
        assert DetachedVolume(f.volumes[id], node) == f.volumes[id];
        assert f.volumes[id := f.volumes[id]] == f.volumes;
      }
    }
  }

  lemma {:induction false} AttachedThenDetached(v: Volume, id: string, node: string)
    requires v.attachments == [] && v.status == Available
    ensures DetachedVolume(v.(attachments := [Attachment(node, DevicePath(id))], status := InUse), node) == v
  {
    var one := [Attachment(node, DevicePath(id))];
    assert one[1..] == [] && WithoutNode(one, node) == [];
  }

  /** Attaching a free volume and detaching it again restores the provider, status and all. */
  lemma {:induction false} DetachUndoesAttach(f: FakeState, id: string, node: string, zone: string, zone': string,
        mid: FakeState, f': FakeState)
    requires FakeInv(f) && Reaches(f, id, zone) && Reaches(f, id, zone') && f.volumes[id].attachments == []
    requires exists device :: FakeStep(f, AttachVolume(id, node, zone), Device(device), mid)
    requires FakeStep(mid, DetachVolume(id, node, zone'), Ok, f')
    ensures f' == f
  {
    assert VolumeInv(f, id);
    var v := f.volumes[id];
    AttachedThenDetached(v, id, node);
    assert mid.volumes[id].zone == v.zone;
    assert f' == mid.(volumes := mid.volumes[id := v]);
    assert f'.volumes == f.volumes;
  }

  /** A delete always succeeds, removes that volume, and changes nothing else. */
  lemma {:induction false} DeleteMeaning(f: FakeState, id: string, reply: Reply, f': FakeState)
    requires FakeStep(f, DeleteVolume(id), reply, f')
    ensures reply == Ok && id !in f'.volumes
    ensures f'.volumes == map x | x in f.volumes && x != id :: f.volumes[x]
    ensures f'.snapshots == f.snapshots && f'.nextVolume == f.nextVolume && f'.nextSnapshot == f.nextSnapshot
  {
  }

  /** A resize is answered with the size the volume then has, and never makes it smaller. */
  lemma {:induction false} ResizeMeaning(f: FakeState, id: string, size: int, zone: string, reply: Reply,
        f': FakeState)
    requires FakeStep(f, ResizeVolume(id, size, zone), reply, f')
    ensures reply == Failed(NotFound) <==> !Reaches(f, id, zone)
    ensures reply == Failed(OutOfRange) <==> Reaches(f, id, zone) && size < f.volumes[id].size
    ensures !reply.Failed? ==>
              && reply == Size(size) && id in f'.volumes && f'.volumes[id].size == size
              && f'.volumes[id].(size := f.volumes[id].size) == f.volumes[id]
  {
  }

  /**
   A create is refused exactly when the name has an incompatible volume; otherwise a compatible
   one has it afterwards, and the volume is new exactly when the name had none.
   */
  lemma {:induction false} CreateMeaning(f: FakeState, spec: VolumeSpec, reply: Reply, f': FakeState)
    requires FakeInv(f) && FakeStep(f, CreateVolume(spec), reply, f')
    ensures reply == Failed(AlreadyExists) <==>
              exists id :: VolumeNamed(f, id, spec.name) && !CompatibleVolume(f.volumes[id], spec)
    ensures !reply.Failed? ==>
              exists id :: VolumeNamed(f', id, spec.name) && CompatibleVolume(f'.volumes[id], spec)
    ensures f' == f <==> exists id :: VolumeNamed(f, id, spec.name)
  {
    if id :| VolumeNamed(f, id, spec.name) {
      var other :| NamesakeAnswers(f, other, spec, reply);
      assert other == id;
    } else {
      var id := VolumeName(f.nextVolume);
      assert VolumeNamed(f', id, spec.name);
    }
  }

  /** A new volume is free and is what was asked for, with the provider's type for its encryption if none was. */
  lemma {:induction false} NewVolume(f: FakeState, spec: VolumeSpec, reply: Reply, f': FakeState, id: string)
    requires FakeInv(f) && FakeStep(f, CreateVolume(spec), reply, f') && id in f'.volumes && id !in f.volumes
    ensures var v := f'.volumes[id];
            && v.name == spec.name && v.size == spec.size && v.zone == spec.zone && v.encrypted == spec.encrypted
            && v.attachments == [] && v.status == Available && !v.multiattach
            && (spec.kind != "" ==> v.kind == spec.kind)
            && (spec.kind == "" ==> v.kind == if v.encrypted then "Encrypted-v1" else "__DEFAULT__")
  {
  }

  /** No two volumes are at the same device. */
  lemma {:induction false} DevicesDiffer(f: FakeState, a: string, b: string)
    requires FakeInv(f) && a in f.volumes && b in f.volumes && a != b
    requires f.volumes[a].attachments != [] && f.volumes[b].attachments != []
    ensures f.volumes[a].attachments[0].device != f.volumes[b].attachments[0].device
  {
    assert VolumeInv(f, a) && VolumeInv(f, b);
    var n := |DevicePath("")|;
    assert DevicePath(a)[n..] == a && DevicePath(b)[n..] == b;
  }

  /** The same for snapshots, whose source must exist and must be the same. */
  lemma {:induction false} CreateSnapshotMeaning(f: FakeState, name: string, source: string, zone: string,
        reply: Reply, f': FakeState)
    requires FakeInv(f) && FakeStep(f, CreateSnapshot(name, source, zone), reply, f')
    ensures reply == Failed(NotFound) <==> source !in f.volumes
    ensures reply == Failed(AlreadyExists) <==>
              source in f.volumes && exists id :: SnapshotNamed(f, id, name) && f.snapshots[id].volumeId != source
    ensures !reply.Failed? ==> exists id :: SnapshotNamed(f', id, name) && f'.snapshots[id].volumeId == source
    ensures f' == f <==> reply.Failed? || exists id :: SnapshotNamed(f, id, name)
  {
    if source in f.volumes {
      if id :| SnapshotNamed(f, id, name) {
        var other :| SnapshotNamesakeAnswers(f, other, name, source, reply);
        assert other == id;
      } else {
        var id := SnapshotName(f.nextSnapshot);
        assert SnapshotNamed(f', id, name);
      }
    }
  }

  /** A snapshot is deleted if the zone reaches it; a snapshot that is not there counts as deleted. */
  lemma {:induction false} DeleteSnapshotMeaning(f: FakeState, id: string, zone: string, reply: Reply, f': FakeState)
    requires FakeStep(f, DeleteSnapshot(id, zone), reply, f')
    ensures reply == Failed(NotFound) <==> id in f.snapshots && zone != "" && f.snapshots[id].zone != zone
    ensures reply == Ok || reply == Failed(NotFound)
    ensures reply == Ok ==> f'.snapshots == map x | x in f.snapshots && x != id :: f.snapshots[x]
    ensures f'.volumes == f.volumes
  {
  }
}
