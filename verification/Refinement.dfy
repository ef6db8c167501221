/**
 The in-memory provider is one of the permissive providers of module `System`: each of its
 steps is a step they permit, and it reports attachments as they are.  So what is proved of
 every run of the system holds of runs against it.
 */
module Refinement {
  import opened Cloud
  import opened Reconcile
  import opened Protocol
  import opened System
  import opened Fakes

  predicate LiveIn(f: FakeState, ref: Ref) {
    match ref
    case VolumeRef(id) => id in f.volumes
    case SnapshotRef(id) => id in f.snapshots
  }

  ghost predicate Minted(f: FakeState, ref: Ref) {
    match ref
    case VolumeRef(id) => MintedVolume(f, id)
    case SnapshotRef(id) => MintedSnapshot(f, id)
  }

  ghost predicate SameLive(p: Provider, f: FakeState) {
    forall ref :: ref in p.live <==> LiveIn(f, ref)
  }

  ghost predicate SameIdentities(p: Provider, f: FakeState) {
    && (forall id :: id in f.volumes ==> TrueVolume(p, f.volumes[id]))
    && (forall id :: id in f.snapshots ==> TrueSnapshot(p, f.snapshots[id]))
  }

  ghost predicate AllMinted(p: Provider, f: FakeState) {
    forall ref :: ref in p.ever ==> Minted(f, ref)
  }

  ghost predicate SameAttachments(p: Provider, f: FakeState) {
    && (forall id :: id in p.attached ==> VolumeRef(id) in p.ever)
    && (forall id :: id in f.volumes ==> AttachmentsOf(p, id) == f.volumes[id].attachments)
  }

  /** The provider `p` is what the state `f` looks like from outside, with a memory of all it ever held. */
  ghost predicate Abstracts(p: Provider, f: FakeState) {
    SameLive(p, f) && SameIdentities(p, f) && AllMinted(p, f) && SameAttachments(p, f)
  }

  /** What the in-memory provider did, in the permissive provider's terms. */
  ghost function EffectOf(f: FakeState, call: Call, reply: Reply, f': FakeState): Effect {
    match call
    case CreateVolume(spec) => if f' == f then Nothing else Creation(VolumeName(f.nextVolume))
    case CreateSnapshot(_, _, _) => if f' == f then Nothing else Creation(SnapshotName(f.nextSnapshot))
    case DeleteVolume(id) => Removal
    case DeleteSnapshot(id, _) => if f' == f then Nothing else Removal
    case AttachVolume(id, _, _) => if f' == f then Nothing else Attaches(DevicePath(id))
    case DetachVolume(id, _, _) => if f' == f then Nothing else Detaches
    case _ => Nothing
  }

  lemma {:induction false} ListingsAreTrue(p: Provider, f: FakeState, name: string, zone: string)
    requires SameIdentities(p, f)
    ensures forall vs, v :: VolumeListing(f, name, zone, vs) && v in vs ==> TrueVolume(p, v)
    ensures forall ss, s :: SnapshotListing(f, name, zone, ss) && s in ss ==> TrueSnapshot(p, s)
  {
  }

  lemma {:induction false} ReadsAreHonest(p: Provider, f: FakeState, call: Call, reply: Reply, f': FakeState)
    requires FakeInv(f) && Abstracts(p, f) && FakeStep(f, call, reply, f')
    ensures Honest(p, call, reply)
    ensures reply.OneVolume? && call.GetVolume? ==> reply.volume.attachments == AttachmentsOf(p, call.id)
  {
    match call
    case ListVolumes(name, zone) => ListingsAreTrue(p, f, name, zone);
    case ListSnapshots(name, zone) => ListingsAreTrue(p, f, name, zone);
    case GetVolume(id) =>
      if id in f.volumes {
        assert VolumeInv(f, id);
      }
    case _ =>
  }

  lemma {:induction false} CreationIsFresh(p: Provider, f: FakeState)
    requires FakeInv(f) && Abstracts(p, f)
    ensures VolumeRef(VolumeName(f.nextVolume)) !in p.ever && SnapshotRef(SnapshotName(f.nextSnapshot)) !in p.ever
  {
    NewNameIsFresh(f);
    assert VolumeRef(VolumeName(f.nextVolume)) in p.ever ==> Minted(f, VolumeRef(VolumeName(f.nextVolume)));
    assert SnapshotRef(SnapshotName(f.nextSnapshot)) in p.ever ==> Minted(f, SnapshotRef(SnapshotName(f.nextSnapshot)));
  }

  lemma {:induction false} StepIsPermitted(p: Provider, f: FakeState, call: Call, reply: Reply, f': FakeState)
    requires FakeInv(f) && Abstracts(p, f) && FakeStep(f, call, reply, f')
    ensures Permits(p, call, reply, EffectOf(f, call, reply, f'))
  {
    ReadsAreHonest(p, f, call, reply, f');
    CreationIsFresh(p, f);
    if call.AttachVolume? && f' != f {
      assert LiveIn(f, VolumeRef(call.id));
    }
  }

  lemma {:induction false} NewlyMinted(f: FakeState, f': FakeState, ref: Ref)
    requires f.nextVolume <= f'.nextVolume && f.nextSnapshot <= f'.nextSnapshot
    ensures Minted(f, ref) ==> Minted(f', ref)
    ensures f.nextVolume < f'.nextVolume && ref == VolumeRef(VolumeName(f.nextVolume)) ==> Minted(f', ref)
    ensures f.nextSnapshot < f'.nextSnapshot && ref == SnapshotRef(SnapshotName(f.nextSnapshot)) ==> Minted(f', ref)
  {
  }

  lemma {:induction false} IdentitiesGrow(p: Provider, p': Provider, f: FakeState)
    requires SameIdentities(p, f)
    requires forall ref :: ref in p.ever ==> ref in p'.ever && p'.ever[ref] == p.ever[ref]
    ensures SameIdentities(p', f)
  {
    forall x | x in f.volumes ensures TrueVolume(p', f.volumes[x]) {
      assert TrueVolume(p, f.volumes[x]);
    }
    forall x | x in f.snapshots ensures TrueSnapshot(p', f.snapshots[x]) {
      assert TrueSnapshot(p, f.snapshots[x]);
    }
  }

  lemma {:induction false} MintedWithNew(p: Provider, p': Provider, f: FakeState, f': FakeState, ref: Ref)
    requires AllMinted(p, f) && f.nextVolume <= f'.nextVolume && f.nextSnapshot <= f'.nextSnapshot
    requires p'.ever.Keys == p.ever.Keys + {ref} && Minted(f', ref)
    ensures AllMinted(p', f')
  {
    forall r | r in p'.ever ensures Minted(f', r) {
      assert r in p'.ever.Keys;
      NewlyMinted(f, f', r);
    }
  }

  lemma {:induction false} CreateVolumeAbstracts(p: Provider, f: FakeState, id: string, spec: VolumeSpec)
    requires Abstracts(p, f) && id == VolumeName(f.nextVolume) && VolumeRef(id) !in p.ever
    ensures var f' := f.(volumes := f.volumes[id := FreshVolume(id, spec)], nextVolume := f.nextVolume + 1);
            var ref := VolumeRef(id);
            Abstracts(p.(ever := p.ever[ref := VolumeKey(spec.name, spec.zone)], live := p.live + {ref}), f')
  {
    var f' := f.(volumes := f.volumes[id := FreshVolume(id, spec)], nextVolume := f.nextVolume + 1);
    var ref := VolumeRef(id);
    var p' := p.(ever := p.ever[ref := VolumeKey(spec.name, spec.zone)], live := p.live + {ref});
    IdentitiesGrow(p, p', f);
    NewlyMinted(f, f', ref);
    MintedWithNew(p, p', f, f', ref);
    NewVolumeAttachments(p, p', f, f', id);
  }

  lemma {:induction false} NewVolumeAttachments(p: Provider, p': Provider, f: FakeState, f': FakeState, id: string)
    requires SameAttachments(p, f) && VolumeRef(id) !in p.ever
    requires p'.attached == p.attached && p'.ever.Keys == p.ever.Keys + {VolumeRef(id)}
    requires id in f'.volumes && f'.volumes == f.volumes[id := f'.volumes[id]] && f'.volumes[id].attachments == []
    ensures SameAttachments(p', f')
  {
    assert AttachmentsOf(p', id) == [];
    assert forall x :: x in p.ever ==> x in p'.ever.Keys;
  }

  lemma {:induction false} CreateSnapshotAbstracts(p: Provider, f: FakeState, id: string, s: Snapshot)
    requires Abstracts(p, f) && id == SnapshotName(f.nextSnapshot) && s.id == id && SnapshotRef(id) !in p.ever
    ensures var f' := f.(snapshots := f.snapshots[id := s], nextSnapshot := f.nextSnapshot + 1);
            var ref := SnapshotRef(id);
            Abstracts(p.(ever := p.ever[ref := SnapshotKey(s.name, s.volumeId)], live := p.live + {ref}), f')
  {
    var f' := f.(snapshots := f.snapshots[id := s], nextSnapshot := f.nextSnapshot + 1);
    var ref := SnapshotRef(id);
    var p' := p.(ever := p.ever[ref := SnapshotKey(s.name, s.volumeId)], live := p.live + {ref});
    IdentitiesGrow(p, p', f);
    NewlyMinted(f, f', ref);
    MintedWithNew(p, p', f, f', ref);
  }

  /** A volume changed in place, with its identity kept and its attachments as given. */
  lemma {:induction false} UpdateAbstracts(p: Provider, f: FakeState, id: string, v: Volume, p': Provider)
    requires FakeInv(f) && Abstracts(p, f) && id in f.volumes
    requires v.id == f.volumes[id].id && v.name == f.volumes[id].name && v.zone == f.volumes[id].zone
    requires p' == p.(attached := p'.attached)
    requires AttachmentsOf(p', id) == v.attachments
    requires forall x :: x != id ==>
      (x in p'.attached <==> x in p.attached) && AttachmentsOf(p', x) == AttachmentsOf(p, x)
    ensures Abstracts(p', f.(volumes := f.volumes[id := v]))
  {
    var f' := f.(volumes := f.volumes[id := v]);
    MintedStays(f, f');
    assert LiveIn(f, VolumeRef(id)) && TrueVolume(p, f.volumes[id]);
    forall x | x in f'.volumes
      ensures TrueVolume(p', f'.volumes[x]) && AttachmentsOf(p', x) == f'.volumes[x].attachments
    {
      assert TrueVolume(p, f.volumes[x]);
    }
    forall x | x in p'.attached ensures VolumeRef(x) in p'.ever {
      assert x == id ==> VolumeInv(f, id) && TrueVolume(p, f.volumes[id]);
    }
  }

  lemma {:induction false} LiveIsKnown(p: Provider, f: FakeState, id: string)
    requires Abstracts(p, f) && id in f.volumes
    ensures TrueVolume(p, f.volumes[id])
  {
  }

  lemma {:induction false} RemovalAbstracts(p: Provider, f: FakeState, ref: Ref, p': Provider, f': FakeState)
    requires Abstracts(p, f)
    requires f' == match ref
                   case VolumeRef(id) => f.(volumes := f.volumes - {id})
                   case SnapshotRef(id) => f.(snapshots := f.snapshots - {id})
    requires p' == match ref
                   case VolumeRef(id) => p.(live := p.live - {ref}, attached := p.attached - {id})
                   case SnapshotRef(_) => p.(live := p.live - {ref})
    ensures Abstracts(p', f')
  {
    MintedStays(f, f');
    forall x | x in f'.volumes
      ensures TrueVolume(p', f'.volumes[x]) && AttachmentsOf(p', x) == f'.volumes[x].attachments
    {
      assert TrueVolume(p, f.volumes[x]);
    }
    forall x | x in f'.snapshots ensures TrueSnapshot(p', f'.snapshots[x]) {
      assert TrueSnapshot(p, f.snapshots[x]);
    }
  }

  lemma {:induction false} AttachAbstracts(p: Provider, f: FakeState, call: Call, reply: Reply, f': FakeState)
    requires FakeInv(f) && Abstracts(p, f) && FakeStep(f, call, reply, f') && f' != f
    requires call.AttachVolume? || call.DetachVolume?
    requires Permits(p, call, reply, EffectOf(f, call, reply, f'))
    ensures Abstracts(Apply(p, call, reply, EffectOf(f, call, reply, f')), f')
  {
    var p' := Apply(p, call, reply, EffectOf(f, call, reply, f'));
    var id := call.id;
    assert VolumeInv(f, id);
    assert [] + [Attachment(call.node, DevicePath(id))] == [Attachment(call.node, DevicePath(id))];
    UpdateAbstracts(p, f, id, f'.volumes[id], p');
    assert f' == f.(volumes := f.volumes[id := f'.volumes[id]]);
  }

  lemma {:induction false} ResizeAbstracts(p: Provider, f: FakeState, id: string, size: int)
    requires FakeInv(f) && Abstracts(p, f) && id in f.volumes
    ensures Abstracts(p, f.(volumes := f.volumes[id := f.volumes[id].(size := size)]))
  {
    LiveIsKnown(p, f, id);
    UpdateAbstracts(p, f, id, f.volumes[id].(size := size), p);
  }

  lemma {:induction false} CreateAbstracts(p: Provider, f: FakeState, call: Call, reply: Reply, f': FakeState)
    requires FakeInv(f) && Abstracts(p, f) && FakeStep(f, call, reply, f') && f' != f
    requires call.CreateVolume? || call.CreateSnapshot?
    requires Permits(p, call, reply, EffectOf(f, call, reply, f'))
    ensures Abstracts(Apply(p, call, reply, EffectOf(f, call, reply, f')), f')
  {
    CreationIsFresh(p, f);
    if call.CreateVolume? {
      CreateVolumeAbstracts(p, f, VolumeName(f.nextVolume), call.spec);
    } else {
      var id := SnapshotName(f.nextSnapshot);
      CreateSnapshotAbstracts(p, f, id, f'.snapshots[id]);
    }
  }

  lemma {:induction false} DeleteVolumeAbstracts(p: Provider, f: FakeState, call: Call, reply: Reply, f': FakeState)
    requires FakeInv(f) && Abstracts(p, f) && FakeStep(f, call, reply, f')
    requires call.DeleteVolume?
    requires Permits(p, call, reply, EffectOf(f, call, reply, f'))
    ensures Abstracts(Apply(p, call, reply, EffectOf(f, call, reply, f')), f')
  {
    RemovalAbstracts(p, f, VolumeRef(call.id), Apply(p, call, reply, Removal), f');
  }

  lemma {:induction false} DeleteSnapshotAbstracts(p: Provider, f: FakeState, call: Call, reply: Reply, f': FakeState)
    requires FakeInv(f) && Abstracts(p, f) && FakeStep(f, call, reply, f')
    requires call.DeleteSnapshot? && f' != f
    requires Permits(p, call, reply, EffectOf(f, call, reply, f'))
    ensures Abstracts(Apply(p, call, reply, EffectOf(f, call, reply, f')), f')
  {
    RemovalAbstracts(p, f, SnapshotRef(call.id), Apply(p, call, reply, Removal), f');
  }

  lemma {:induction false} QuietAbstracts(p: Provider, f: FakeState, call: Call, reply: Reply, f': FakeState)
    requires FakeInv(f) && Abstracts(p, f) && FakeStep(f, call, reply, f')
    requires call.ResizeVolume? || (f' == f && !call.DeleteVolume?)
    requires Permits(p, call, reply, EffectOf(f, call, reply, f'))
    ensures Abstracts(Apply(p, call, reply, EffectOf(f, call, reply, f')), f')
  {
    if f' != f {
      ResizeAbstracts(p, f, call.id, call.size);
    }
  }

  lemma {:induction false} StepAbstracts(p: Provider, f: FakeState, call: Call, reply: Reply, f': FakeState)
    requires FakeInv(f) && Abstracts(p, f) && FakeStep(f, call, reply, f')
    requires Permits(p, call, reply, EffectOf(f, call, reply, f'))
    ensures Abstracts(Apply(p, call, reply, EffectOf(f, call, reply, f')), f')
  {
    if call.DeleteVolume? {
      DeleteVolumeAbstracts(p, f, call, reply, f');
    } else if f' == f || call.ResizeVolume? {
      QuietAbstracts(p, f, call, reply, f');
    } else if call.DeleteSnapshot? {
      DeleteSnapshotAbstracts(p, f, call, reply, f');
    } else if call.AttachVolume? || call.DetachVolume? {
      AttachAbstracts(p, f, call, reply, f');
    } else {
      CreateAbstracts(p, f, call, reply, f');
    }
  }

  /**
   Every step of the in-memory provider is one the permissive provider allows, with exact
   reads, and leads to states that correspond again.
   */
  lemma {:induction false} FakeIsPermissive(p: Provider, f: FakeState, call: Call, reply: Reply, f': FakeState)
    requires FakeInv(f) && Abstracts(p, f) && FakeStep(f, call, reply, f')
    ensures Permits(p, call, reply, EffectOf(f, call, reply, f'))
    ensures Abstracts(Apply(p, call, reply, EffectOf(f, call, reply, f')), f')
    ensures reply.OneVolume? && call.GetVolume? ==> reply.volume.attachments == AttachmentsOf(p, call.id)
  {
    StepIsPermitted(p, f, call, reply, f');
    ReadsAreHonest(p, f, call, reply, f');
    StepAbstracts(p, f, call, reply, f');
  }

  lemma {:induction false} EmptyFakeIsEmptyProvider()
    ensures FakeInv(FakeState(map[], map[], 1, 1))
    ensures Abstracts(Provider(map[], {}, map[]), FakeState(map[], map[], 1, 1))
  {
  }
}
