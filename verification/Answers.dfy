/**
 What publish, unpublish, delete and expand answer over the in-memory provider, and what they
 leave behind: at the moment of the answer whatever others do, and for certain when nobody else
 touches the volume.
 */
module Answers {
  import opened Cloud
  import opened Capacity
  import opened Protocol
  import opened Fakes
  import opened FakeLaws
  import opened Histories

  /** The call neither deletes nor attaches nor detaches the volume. */
  predicate LeavesVolume(call: Call, id: string) {
    match call
    case DeleteVolume(i) => i != id
    case AttachVolume(i, _, _) => i != id
    case DetachVolume(i, _, _) => i != id
    case _ => true
  }

  predicate LeftAlone(h: seq<Entry>, who: nat, id: string) {
    forall e :: e in h && e.who != who ==> LeavesVolume(e.call, id)
  }

  /** The volume is there, in the zone and with the attachments it had. */
  predicate AsItWas(f: FakeState, id: string, was: Volume) {
    && id in f.volumes && f.volumes[id].zone == was.zone
    && f.volumes[id].attachments == was.attachments && f.volumes[id].status == was.status
  }

  lemma {:induction false} OthersLeave(f: FakeState, call: Call, reply: Reply, f': FakeState, id: string)
    requires FakeInv(f) && FakeStep(f, call, reply, f') && LeavesVolume(call, id) && id in f.volumes
    ensures AsItWas(f', id, f.volumes[id])
  {
    if !AltersVolume(call, id) {
      OthersUntouched(f, call, reply, f', id);
    }
  }

  // ---------- publish: where it stands ----------

  /** The volume is on the node, or it is free and the zone the driver gives is its own. */
  predicate Attachable(was: Volume, node: string, fallbackZone: string) {
    AttachedTo(was.attachments, node) || (was.attachments == [] && (was.zone != "" || fallbackZone == ""))
  }

  predicate PublishSettled(f: FakeState, outcome: Outcome, id: string, node: string, fallbackZone: string, was: Volume)
  {
    && id in f.volumes && f.volumes[id].zone == was.zone
    && if Attachable(was, node, fallbackZone) then
         && outcome == Published(DevicePath(id))
         && f.volumes[id].attachments == [Attachment(node, DevicePath(id))]
       else
         && outcome == Refused(if was.attachments == [] then NotFoundCode else FailedPrecondition)
         && f.volumes[id].attachments == was.attachments
  }

  ghost predicate Publishing(f: FakeState, pc: Pc, n: nat, id: string, node: string, fallbackZone: string, was: Volume)
  {
    match pc
    case Checking(_, i, at, zone) =>
      n == 0 && i == id && at == node && zone == fallbackZone && AsItWas(f, id, was)
    case Attaching(_, i, at, zone) =>
      n <= 1 && i == id && at == node && zone == Or(was.zone, fallbackZone) && was.attachments == []
      && AsItWas(f, id, was)
    case Rechecking(_, i, at, error) =>
      n <= 2 && i == id && at == node && error == NotFound && was.attachments == []
      && !Attachable(was, node, fallbackZone) && AsItWas(f, id, was)
    case Unlocking(_, outcome) => n <= 3 && PublishSettled(f, outcome, id, node, fallbackZone, was)
    case _ => false
  }

  ghost function PublishBound(id: string, node: string, fallbackZone: string, was: Volume): Standing {
    (f, pc, n: nat) => Publishing(f, pc, n, id, node, fallbackZone, was)
  }

  /** The free volume is put on the node, and all else is as it was. */
  predicate Places(f: FakeState, f': FakeState, id: string, node: string) {
    && id in f.volumes && f.volumes[id].attachments == []
    && f' == f.(volumes := f.volumes[id :=
         f.volumes[id].(attachments := [Attachment(node, DevicePath(id))], status := InUse)])
  }

  ghost function PlacesAtMost(id: string, node: string, was: Volume): (FakeState, FakeState) -> bool {
    (f, f') => f' == f || (was.attachments == [] && Places(f, f', id, node))
  }

  // ---------- publish: one step ----------

  lemma {:induction false} CheckedVolume(f: FakeState, id: string, node: string)
    requires FakeInv(f) && id in f.volumes
    ensures var v := f.volumes[id];
            && !v.multiattach
            && AttachedDevice(v.attachments, node) ==
               (if AttachedTo(v.attachments, node) then DevicePath(id) else "",
                !AttachedTo(v.attachments, node) && v.attachments != [])
            && (AttachedTo(v.attachments, node) ==> v.attachments == [Attachment(node, DevicePath(id))])
  {
    assert VolumeInv(f, id);
    var attachments := f.volumes[id].attachments;
    if attachments != [] {
      assert attachments == [attachments[0]] && attachments[1..] == [];
    }
  }

  lemma {:induction false} PublishChecks(f: FakeState, pc: Pc, n: nat, reply: Reply, f': FakeState, id: string,
        node: string, fallbackZone: string, was: Volume)
    requires pc.Checking? && FakeInv(f) && Publishing(f, pc, n, id, node, fallbackZone, was)
    requires Accepts(pc, reply) && FakeStep(f, CallOf(pc), reply, f')
    ensures Publishing(f', Step(pc, reply), n + 1, id, node, fallbackZone, was) && PlacesAtMost(id, node, was)(f, f')
  {
    CheckedVolume(f, id, node);
  }

  lemma {:induction false} PublishRechecks(f: FakeState, pc: Pc, n: nat, reply: Reply, f': FakeState, id: string,
        node: string, fallbackZone: string, was: Volume)
    requires pc.Rechecking? && FakeInv(f) && Publishing(f, pc, n, id, node, fallbackZone, was)
    requires Accepts(pc, reply) && FakeStep(f, CallOf(pc), reply, f')
    ensures Publishing(f', Step(pc, reply), n + 1, id, node, fallbackZone, was) && PlacesAtMost(id, node, was)(f, f')
  {
    CheckedVolume(f, id, node);
  }

  lemma {:induction false} PublishAttaches(f: FakeState, pc: Pc, n: nat, reply: Reply, f': FakeState, id: string,
        node: string, fallbackZone: string, was: Volume)
    requires pc.Attaching? && FakeInv(f) && Publishing(f, pc, n, id, node, fallbackZone, was)
    requires Accepts(pc, reply) && FakeStep(f, CallOf(pc), reply, f')
    ensures Publishing(f', Step(pc, reply), n + 1, id, node, fallbackZone, was) && PlacesAtMost(id, node, was)(f, f')
  {
    var reaches := was.zone != "" || fallbackZone == "";
    assert Shown(Or(was.zone, fallbackZone), was.zone) <==> reaches;
  }

  lemma {:induction false} PublishStep(f: FakeState, pc: Pc, n: nat, reply: Reply, f': FakeState, id: string,
        node: string, fallbackZone: string, was: Volume)
    requires FakeInv(f) && Publishing(f, pc, n, id, node, fallbackZone, was)
    requires Accepts(pc, reply) && FakeStep(f, CallOf(pc), reply, f')
    ensures Publishing(f', Step(pc, reply), n + 1, id, node, fallbackZone, was) && PlacesAtMost(id, node, was)(f, f')
  {
    match pc
    case Attaching(_, _, _, _) => PublishAttaches(f, pc, n, reply, f', id, node, fallbackZone, was);
    case Unlocking(_, _) =>
    case Checking(_, _, _, _) => PublishChecks(f, pc, n, reply, f', id, node, fallbackZone, was);
    case Rechecking(_, _, _, _) => PublishRechecks(f, pc, n, reply, f', id, node, fallbackZone, was);
  }

  lemma {:induction false} PublishEntry(f: FakeState, e: Entry, f': FakeState, who: nat, id: string, node: string,
        fallbackZone: string, was: Volume)
    requires FakeInv(f) && FakeStep(f, e.call, e.reply, f') && (e.who != who ==> LeavesVolume(e.call, id))
    ensures Keeps(f, e, f', who, PublishBound(id, node, fallbackZone, was), PlacesAtMost(id, node, was))
  {
    if e.who == who {
      forall pc, n: nat
        | Publishing(f, pc, n, id, node, fallbackZone, was) && Accepts(pc, e.reply) && e.call == CallOf(pc)
        ensures Publishing(f', Step(pc, e.reply), n + 1, id, node, fallbackZone, was)
        ensures PlacesAtMost(id, node, was)(f, f')
      {
        PublishStep(f, pc, n, e.reply, f', id, node, fallbackZone, was);
      }
    } else {
      forall pc, n: nat | Publishing(f, pc, n, id, node, fallbackZone, was)
        ensures Publishing(f', pc, n, id, node, fallbackZone, was)
      {
        OthersLeave(f, e.call, e.reply, f', id);
      }
    }
  }

  // ---------- publish: the theorems ----------

  /**
   The answer of a publish is known beforehand, if nobody else deletes, attaches or detaches the
   volume: the device of the node if it is there already or is free, FailedPrecondition if it is
   elsewhere, and NotFound if it is free but has no zone while the driver has one to give.  It
   takes three calls at most, the volume is on the node if and only if the answer says so, and
   nothing else changes.
   */
  lemma {:induction false} PublishAnswers(fs: seq<FakeState>, h: seq<Entry>, who: nat, lock: Lock, id: string,
        node: string, fallbackZone: string)
    requires History(fs, h) && LeftAlone(h, who, id) && id in fs[0].volumes
    requires Follows(Enter(lock, Publish(id, node, fallbackZone)), Mine(h, who))
    ensures var was := fs[0].volumes[id];
            var end := After(Enter(lock, Publish(id, node, fallbackZone)), Mine(h, who));
            && |Mine(h, who)| <= 3
            && (|Mine(h, who)| == 3 ==> end.Unlocking?)
            && (end.Unlocking? ==> PublishSettled(fs[|h|], end.outcome, id, node, fallbackZone, was))
            && forall i :: 0 <= i < |h| && h[i].who == who ==>
                 fs[i + 1] == fs[i] || (was.attachments == [] && Places(fs[i], fs[i + 1], id, node))
  {
    var was := fs[0].volumes[id];
    var inv, change := PublishBound(id, node, fallbackZone, was), PlacesAtMost(id, node, was);
    forall i | 0 <= i < |h| ensures Keeps(fs[i], h[i], fs[i + 1], who, inv, change) {
      InvThroughout(fs, h, 0, i);
      assert h[i] in h;
      PublishEntry(fs[i], h[i], fs[i + 1], who, id, node, fallbackZone, was);
    }
    RunKeeps(fs, h, who, Enter(lock, Publish(id, node, fallbackZone)), 0, inv, change);
  }

  predicate PublishShape(pc: Pc, id: string, node: string) {
    match pc
    case Checking(_, i, at, _) => i == id && at == node
    case Attaching(_, i, at, _) => i == id && at == node
    case Rechecking(_, i, at, _) => i == id && at == node
    case Unlocking(_, _) => true
    case Finished(_) => true
    case _ => false
  }

  lemma {:induction false} PublishKeepsShape(pc: Pc, log: seq<Exchange>, id: string, node: string)
    requires Follows(pc, log) && PublishShape(pc, id, node)
    ensures PublishShape(After(pc, log), id, node)
    decreases |log|
  {
    if log != [] {
      PublishKeepsShape(Step(pc, log[0].reply), log[1..], id, node);
    }
  }

  lemma {:induction false} PublishedByStep(f: FakeState, pc: Pc, reply: Reply, f': FakeState, id: string, node: string,
        lock: Lock, device: string)
    requires FakeInv(f) && PublishShape(pc, id, node) && Accepts(pc, reply) && FakeStep(f, CallOf(pc), reply, f')
    requires Step(pc, reply) == Unlocking(lock, Published(device))
    ensures id in f'.volumes && f'.volumes[id].attachments == [Attachment(node, device)]
  {
    if pc.Attaching? {
      AttachMeaning(f, id, node, pc.zone, reply, f');
    } else {
      CheckedVolume(f, id, node);
    }
  }

  /**
   Whatever others do: at the moment a publish answers with a device, the volume has exactly one
   attachment, to that node at that device.
   */
  lemma {:induction false} PublishedIsAttached(fs: seq<FakeState>, h: seq<Entry>, who: nat, lock: Lock, id: string,
        node: string, fallbackZone: string, device: string)
    requires History(fs, h) && h != [] && h[|h| - 1].who == who
    requires Follows(Enter(lock, Publish(id, node, fallbackZone)), Mine(h, who))
    requires After(Enter(lock, Publish(id, node, fallbackZone)), Mine(h, who)) == Unlocking(lock, Published(device))
    ensures id in fs[|h|].volumes && fs[|h|].volumes[id].attachments == [Attachment(node, device)]
  {
    var n := |h| - 1;
    var pc := Enter(lock, Publish(id, node, fallbackZone));
    LastOfMine(h, who, pc);
    InvThroughout(fs, h, 0, n);
    PublishKeepsShape(pc, Mine(h[..n], who), id, node);
    PublishedByStep(fs[n], After(pc, Mine(h[..n], who)), h[n].reply, fs[n + 1], id, node, lock, device);
  }

  /**
   Idempotence: after a publish has answered with a device, the same request, from any driver and
   with any fallback zone, answers with the same device after one call that changes nothing, as
   long as nobody else deletes, attaches or detaches the volume.
   */
  lemma {:induction false} PublishIsIdempotent(fs: seq<FakeState>, h: seq<Entry>, m: nat, a: nat, b: nat, lock: Lock,
        id: string, node: string, fallbackZone: string, fallbackZone': string, device: string)
    requires History(fs, h) && 0 < m <= |h| && h[m - 1].who == a
    requires var mine := Mine(h[..m], a);
             && Follows(Enter(lock, Publish(id, node, fallbackZone)), mine)
             && After(Enter(lock, Publish(id, node, fallbackZone)), mine) == Unlocking(lock, Published(device))
    requires LeftAlone(h[m..], b, id)
    requires Follows(Enter(lock, Publish(id, node, fallbackZone')), Mine(h[m..], b))
    ensures var end := After(Enter(lock, Publish(id, node, fallbackZone')), Mine(h[m..], b));
            end.Unlocking? ==> end.outcome == Published(device)
    ensures forall i :: m <= i < |h| && h[i].who == b ==> fs[i + 1] == fs[i]
  {
    CutHistory(fs, h, m);
    PublishedIsAttached(fs[..m + 1], h[..m], a, lock, id, node, fallbackZone, device);
    CheckedVolume(fs[m], id, node);
    assert fs[m].volumes[id].attachments[0].instance == node;
    PublishAnswers(fs[m..], h[m..], b, lock, id, node, fallbackZone');
    UnchangedSince(fs, h, m, b);
  }

  // ---------- unpublish ----------

  /** All that may happen to the volume: its attachment to this node ends. */
  ghost predicate Releases(f: FakeState, f': FakeState, id: string, node: string) {
    && id in f.volumes && id in f'.volumes
    && f' == f.(volumes := f.volumes[id := f'.volumes[id]])
    && (forall a :: a in f'.volumes[id].attachments <==> a in f.volumes[id].attachments && a.instance != node)
    && f'.volumes[id].(attachments := f.volumes[id].attachments, status := f.volumes[id].status) == f.volumes[id]
  }

  ghost function ReleasesAtMost(id: string, node: string): (FakeState, FakeState) -> bool {
    (f, f') => f' == f || Releases(f, f', id, node)
  }

  ghost predicate Unpublishing(f: FakeState, pc: Pc, n: nat, id: string, node: string, fallbackZone: string) {
    match pc
    case CheckingAttached(_, i, at, zone) => n == 0 && i == id && at == node && zone == fallbackZone
    case Detaching(_, i, at, zone) => n <= 1 && i == id && at == node && InZone(f, id, fallbackZone, zone)
    case Unlocking(_, outcome) => n <= 2 && outcome == Done
    case _ => false
  }

  ghost function UnpublishBound(id: string, node: string, fallbackZone: string): Standing {
    (f, pc, n: nat) => Unpublishing(f, pc, n, id, node, fallbackZone)
  }

  lemma {:induction false} UnpublishReads(f: FakeState, id: string, fallbackZone: string)
    requires FakeInv(f) && id in f.volumes
    ensures InZone(f, id, fallbackZone, Or(f.volumes[id].zone, fallbackZone))
  {
    assert VolumeInv(f, id);
  }

  lemma {:induction false} UnpublishDetaches(f: FakeState, id: string, node: string, zone: string, reply: Reply,
        f': FakeState)
    requires FakeInv(f) && FakeStep(f, DetachVolume(id, node, zone), reply, f')
    ensures reply == Ok && ReleasesAtMost(id, node)(f, f')
  {
    DetachMeaning(f, id, node, zone, reply, f');
  }

  lemma {:induction false} UnpublishStep(f: FakeState, pc: Pc, n: nat, reply: Reply, f': FakeState, id: string,
        node: string, fallbackZone: string)
    requires FakeInv(f) && Unpublishing(f, pc, n, id, node, fallbackZone)
    requires Accepts(pc, reply) && FakeStep(f, CallOf(pc), reply, f')
    ensures Unpublishing(f', Step(pc, reply), n + 1, id, node, fallbackZone) && ReleasesAtMost(id, node)(f, f')
  {
    match pc
    case CheckingAttached(_, _, _, _) =>
      if id in f.volumes {
        UnpublishReads(f, id, fallbackZone);
      }
    case Detaching(_, _, _, zone) => UnpublishDetaches(f, id, node, zone, reply, f');
    case Unlocking(_, _) =>
  }

  lemma {:induction false} UnpublishEntry(f: FakeState, e: Entry, f': FakeState, who: nat, id: string, node: string,
        fallbackZone: string)
    requires FakeInv(f) && FakeStep(f, e.call, e.reply, f')
    ensures Keeps(f, e, f', who, UnpublishBound(id, node, fallbackZone), ReleasesAtMost(id, node))
  {
    if e.who == who {
      forall pc, n: nat | Unpublishing(f, pc, n, id, node, fallbackZone) && Accepts(pc, e.reply) && e.call == CallOf(pc)
        ensures Unpublishing(f', Step(pc, e.reply), n + 1, id, node, fallbackZone) && ReleasesAtMost(id, node)(f, f')
      {
        UnpublishStep(f, pc, n, e.reply, f', id, node, fallbackZone);
      }
    } else {
      forall pc, n: nat | Unpublishing(f, pc, n, id, node, fallbackZone)
        ensures Unpublishing(f', pc, n, id, node, fallbackZone)
      {
        if pc.Detaching? {
          InZoneStays(f, e.call, e.reply, f', id, fallbackZone, pc.zone);
        }
      }
    }
  }

  /**
   Whatever others do, an unpublish answers Done after two calls at most, and all that its calls
   do is to end this volume's attachment to this node.
   */
  lemma {:induction false} UnpublishAnswers(fs: seq<FakeState>, h: seq<Entry>, who: nat, lock: Lock, id: string,
        node: string, fallbackZone: string)
    requires History(fs, h) && Follows(Enter(lock, Unpublish(id, node, fallbackZone)), Mine(h, who))
    ensures Unpublishing(fs[|h|], After(Enter(lock, Unpublish(id, node, fallbackZone)), Mine(h, who)), |Mine(h, who)|,
              id, node, fallbackZone)
    ensures var end := After(Enter(lock, Unpublish(id, node, fallbackZone)), Mine(h, who));
            && |Mine(h, who)| <= 2
            && (|Mine(h, who)| == 2 ==> end.Unlocking?)
            && (end.Unlocking? ==> end.outcome == Done)
    ensures forall i :: 0 <= i < |h| && h[i].who == who ==> fs[i + 1] == fs[i] || Releases(fs[i], fs[i + 1], id, node)
  {
    var inv, change := UnpublishBound(id, node, fallbackZone), ReleasesAtMost(id, node);
    forall i | 0 <= i < |h| ensures Keeps(fs[i], h[i], fs[i + 1], who, inv, change) {
      InvThroughout(fs, h, 0, i);
      UnpublishEntry(fs[i], h[i], fs[i + 1], who, id, node, fallbackZone);
    }
    RunKeeps(fs, h, who, Enter(lock, Unpublish(id, node, fallbackZone)), 0, inv, change);
  }

  /** The detach is sent to a zone the volume is not in. */
  predicate Misdirected(f: FakeState, id: string, fallbackZone: string) {
    id in f.volumes && f.volumes[id].zone == "" && fallbackZone != ""
  }

  lemma {:induction false} DoneByStep(f: FakeState, pc: Pc, n: nat, reply: Reply, f': FakeState, id: string,
        node: string, fallbackZone: string)
    requires FakeInv(f) && Unpublishing(f, pc, n, id, node, fallbackZone)
    requires Accepts(pc, reply) && FakeStep(f, CallOf(pc), reply, f') && Step(pc, reply).Unlocking?
    ensures OnNode(f', id, node) <==> OnNode(f, id, node) && Misdirected(f, id, fallbackZone)
  {
    if pc.Detaching? {
      DetachMeaning(f, id, node, pc.zone, reply, f');
    }
  }

  /**
   Whatever others do: at the moment an unpublish answers, the volume is not on the node, unless
   it was when the last call came and has no zone while the driver gave one; the provider then
   takes the detach for a success and does nothing.
   */
  lemma {:induction false} DoneIsDetachedIff(fs: seq<FakeState>, h: seq<Entry>, who: nat, lock: Lock, id: string,
        node: string, fallbackZone: string)
    requires History(fs, h) && h != [] && h[|h| - 1].who == who
    requires Follows(Enter(lock, Unpublish(id, node, fallbackZone)), Mine(h, who))
    requires After(Enter(lock, Unpublish(id, node, fallbackZone)), Mine(h, who)).Unlocking?
    ensures !OnNode(fs[|h|], id, node) <==>
              !(OnNode(fs[|h| - 1], id, node) && Misdirected(fs[|h| - 1], id, fallbackZone))
  {
    var n := |h| - 1;
    var pc := Enter(lock, Unpublish(id, node, fallbackZone));
    LastOfMine(h, who, pc);
    assert History(fs[..n + 1], h[..n]);
    UnpublishAnswers(fs[..n + 1], h[..n], who, lock, id, node, fallbackZone);
    InvThroughout(fs, h, 0, n);
    DoneByStep(fs[n], After(pc, Mine(h[..n], who)), |Mine(h[..n], who)|, h[n].reply, fs[n + 1], id, node, fallbackZone);
  }

  /** A volume without a zone, attached to the node. */
  function Zoneless(node: string): FakeState {
    var id := VolumeName(1);
    var free := FreshVolume(id, VolumeSpec("data", GIB, "", "", false));
    FakeState(map[id := free.(attachments := [Attachment(node, DevicePath(id))], status := InUse)], map[], 2, 1)
  }

  lemma {:induction false} ZonelessIsValid(node: string)
    ensures FakeInv(Zoneless(node)) && OnNode(Zoneless(node), VolumeName(1), node)
  {
    var f := Zoneless(node);
    assert MintedVolume(f, VolumeName(1));
    assert VolumeInv(f, VolumeName(1));
    assert f.volumes[VolumeName(1)].attachments[0].instance == node;
  }

  lemma {:induction false} TwoOfMine(a: Entry, b: Entry)
    ensures Mine([a, b], a.who) == [Exchange(a.call, a.reply)] + Own(b, a.who)
  {
    assert [a, b][1..] == [b] && [b][1..] == [] && Mine([], a.who) == [];
  }

  /** For any node and any zone the driver may give: an unpublish that answers Done and leaves the volume attached. */
  lemma {:induction false} UnpublishLeavesAttached(node: string, fallbackZone: string)
    returns (fs: seq<FakeState>, h: seq<Entry>, lock: Lock, id: string)
    requires fallbackZone != ""
    ensures History(fs, h) && Follows(Enter(lock, Unpublish(id, node, fallbackZone)), Mine(h, 0))
    ensures After(Enter(lock, Unpublish(id, node, fallbackZone)), Mine(h, 0)) == Unlocking(lock, Done)
    ensures OnNode(fs[|h|], id, node)
  {
    ZonelessIsValid(node);
    id, lock := VolumeName(1), Lock(Volumes, VolumeName(1));
    var f := Zoneless(node);
    var pc, next := CheckingAttached(lock, id, node, fallbackZone), Detaching(lock, id, node, fallbackZone);
    var read, detached := OneVolume(f.volumes[id]), Ok;
    fs, h := [f, f, f], [Entry(0, CallOf(pc), read), Entry(0, CallOf(next), detached)];
    assert Step(pc, read) == next;
    TwoOfMine(h[0], h[1]);
    FollowsOne(pc, read);
    FollowsOne(next, detached);
    FollowsConcat(pc, [Exchange(CallOf(pc), read)], [Exchange(CallOf(next), detached)]);
  }

  // ---------- unpublish undoes publish ----------

  /** The volume is on this node, or on none, and on none once the unpublish has answered. */
  ghost predicate Undoing(f: FakeState, pc: Pc, n: nat, id: string, node: string, fallbackZone: string) {
    && Unpublishing(f, pc, n, id, node, fallbackZone)
    && id in f.volumes && !Misdirected(f, id, fallbackZone) && !Elsewhere(f, id, node)
    && (pc.Unlocking? ==> f.volumes[id].attachments == [])
  }

  ghost function UndoBound(id: string, node: string, fallbackZone: string): Standing {
    (f, pc, n: nat) => Undoing(f, pc, n, id, node, fallbackZone)
  }

  lemma {:induction false} AttachedSomewhere(f: FakeState, id: string, node: string)
    requires id in f.volumes
    ensures f.volumes[id].attachments == [] || OnNode(f, id, node) || Elsewhere(f, id, node)
  {
    if f.volumes[id].attachments != [] {
      assert f.volumes[id].attachments[0] in f.volumes[id].attachments;
    }
  }

  lemma {:induction false} UndoStep(f: FakeState, pc: Pc, n: nat, reply: Reply, f': FakeState, id: string,
        node: string, fallbackZone: string)
    requires FakeInv(f) && Undoing(f, pc, n, id, node, fallbackZone)
    requires Accepts(pc, reply) && FakeStep(f, CallOf(pc), reply, f')
    ensures Undoing(f', Step(pc, reply), n + 1, id, node, fallbackZone) && ReleasesAtMost(id, node)(f, f')
  {
    UnpublishStep(f, pc, n, reply, f', id, node, fallbackZone);
    if Step(pc, reply).Unlocking? {
      DoneByStep(f, pc, n, reply, f', id, node, fallbackZone);
      AttachedSomewhere(f', id, node);
    }
  }

  lemma {:induction false} OthersUndo(f: FakeState, call: Call, reply: Reply, f': FakeState, pc: Pc, n: nat,
        id: string, node: string, fallbackZone: string)
    requires FakeInv(f) && FakeStep(f, call, reply, f') && LeavesVolume(call, id)
    requires Undoing(f, pc, n, id, node, fallbackZone)
    ensures Undoing(f', pc, n, id, node, fallbackZone)
  {
    OthersLeave(f, call, reply, f', id);
    if pc.Detaching? {
      InZoneStays(f, call, reply, f', id, fallbackZone, pc.zone);
    }
  }

  lemma {:induction false} UndoEntry(f: FakeState, e: Entry, f': FakeState, who: nat, id: string, node: string,
        fallbackZone: string)
    requires FakeInv(f) && FakeStep(f, e.call, e.reply, f') && (e.who != who ==> LeavesVolume(e.call, id))
    ensures Keeps(f, e, f', who, UndoBound(id, node, fallbackZone), ReleasesAtMost(id, node))
  {
    if e.who == who {
      forall pc, n: nat | Undoing(f, pc, n, id, node, fallbackZone) && Accepts(pc, e.reply) && e.call == CallOf(pc)
        ensures Undoing(f', Step(pc, e.reply), n + 1, id, node, fallbackZone) && ReleasesAtMost(id, node)(f, f')
      {
        UndoStep(f, pc, n, e.reply, f', id, node, fallbackZone);
      }
    } else {
      forall pc, n: nat | Undoing(f, pc, n, id, node, fallbackZone)
        ensures Undoing(f', pc, n, id, node, fallbackZone)
      {
        OthersUndo(f, e.call, e.reply, f', pc, n, id, node, fallbackZone);
      }
    }
  }

  lemma {:induction false} UndoRun(fs: seq<FakeState>, h: seq<Entry>, who: nat, lock: Lock, id: string,
        node: string, fallbackZone: string)
    requires History(fs, h) && LeftAlone(h, who, id)
    requires Follows(Enter(lock, Unpublish(id, node, fallbackZone)), Mine(h, who))
    requires Undoing(fs[0], Enter(lock, Unpublish(id, node, fallbackZone)), 0, id, node, fallbackZone)
    ensures Undoing(fs[|h|], After(Enter(lock, Unpublish(id, node, fallbackZone)), Mine(h, who)), |Mine(h, who)|, id,
              node, fallbackZone)
  {
    var inv, change := UndoBound(id, node, fallbackZone), ReleasesAtMost(id, node);
    forall i | 0 <= i < |h| ensures Keeps(fs[i], h[i], fs[i + 1], who, inv, change) {
      InvThroughout(fs, h, 0, i);
      assert h[i] in h;
      UndoEntry(fs[i], h[i], fs[i + 1], who, id, node, fallbackZone);
    }
    RunKeeps(fs, h, who, Enter(lock, Unpublish(id, node, fallbackZone)), 0, inv, change);
  }

  lemma {:induction false} CanBeUndone(f: FakeState, id: string, node: string, device: string, lock: Lock,
        fallbackZone: string)
    requires id in f.volumes && f.volumes[id].attachments == [Attachment(node, device)]
    requires !Misdirected(f, id, fallbackZone)
    ensures Undoing(f, Enter(lock, Unpublish(id, node, fallbackZone)), 0, id, node, fallbackZone)
  {
  }

  /**
   A free volume that is published to a node and then unpublished from it is what it was, status
   and all, but for its size, which others may have grown.
   */
  lemma {:induction false} UnpublishUndoesPublish(fs: seq<FakeState>, h: seq<Entry>, m: nat, a: nat, b: nat,
        lock: Lock, id: string, node: string, fallbackZone: string, fallbackZone': string, device: string)
    requires History(fs, h) && 0 < m <= |h| && h[m - 1].who == a && id in fs[0].volumes
    requires fs[0].volumes[id].attachments == []
    requires var mine := Mine(h[..m], a);
             && Follows(Enter(lock, Publish(id, node, fallbackZone)), mine)
             && After(Enter(lock, Publish(id, node, fallbackZone)), mine) == Unlocking(lock, Published(device))
    requires LeftAlone(h[m..], b, id) && !Misdirected(fs[m], id, fallbackZone')
    requires Follows(Enter(lock, Unpublish(id, node, fallbackZone')), Mine(h[m..], b))
    requires After(Enter(lock, Unpublish(id, node, fallbackZone')), Mine(h[m..], b)).Unlocking?
    ensures id in fs[|h|].volumes && fs[|h|].volumes[id].(size := fs[0].volumes[id].size) == fs[0].volumes[id]
  {
    CutHistory(fs, h, m);
    PublishedIsAttached(fs[..m + 1], h[..m], a, lock, id, node, fallbackZone, device);
    CanBeUndone(fs[m], id, node, device, lock, fallbackZone');
    UndoRun(fs[m..], h[m..], b, lock, id, node, fallbackZone');
    InvThroughout(fs, h, 0, |h|);
    VolumesOnlyGrow(fs, h, 0, |h|, id);
    FreeAgain(fs[0], fs[|h|], id);
  }

  lemma {:induction false} FreeAgain(f: FakeState, f': FakeState, id: string)
    requires FakeInv(f) && FakeInv(f') && id in f.volumes && id in f'.volumes
    requires SameVolume(f.volumes[id], f'.volumes[id])
    requires f.volumes[id].attachments == f'.volumes[id].attachments == []
    ensures f'.volumes[id].(size := f.volumes[id].size) == f.volumes[id]
  {
    assert VolumeInv(f, id) && VolumeInv(f', id);
  }

  // ---------- delete ----------

  predicate Deletes(pc: Pc, n: nat, id: string) {
    match pc
    case Deleting(_, i) => n == 0 && i == id
    case Unlocking(_, outcome) => n <= 1 && outcome == Done
    case _ => false
  }

  ghost function DeleteBound(id: string): Standing {
    (f, pc, n: nat) => Deletes(pc, n, id)
  }

  /** The volume is gone, and all else is as it was. */
  predicate Drops(f: FakeState, f': FakeState, id: string) {
    f' == f.(volumes := map x | x in f.volumes && x != id :: f.volumes[x])
  }

  ghost function DropsIt(id: string): (FakeState, FakeState) -> bool {
    (f, f') => Drops(f, f', id)
  }

  lemma {:induction false} DeleteEntry(f: FakeState, e: Entry, f': FakeState, who: nat, id: string)
    requires FakeStep(f, e.call, e.reply, f')
    ensures Keeps(f, e, f', who, DeleteBound(id), DropsIt(id))
  {
    if e.who == who {
      forall pc, n: nat | Deletes(pc, n, id) && Accepts(pc, e.reply) && e.call == CallOf(pc)
        ensures Deletes(Step(pc, e.reply), n + 1, id) && Drops(f, f', id)
      {
        assert pc.Deleting?;
        DeleteMeaning(f, id, e.reply, f');
      }
    }
  }

  /** Whatever others do, a delete makes one call, which removes this volume and nothing else, and answers Done. */
  lemma {:induction false} DeleteAnswers(fs: seq<FakeState>, h: seq<Entry>, who: nat, lock: Lock, id: string)
    requires History(fs, h) && Follows(Enter(lock, Delete(id)), Mine(h, who))
    ensures var end := After(Enter(lock, Delete(id)), Mine(h, who));
            && |Mine(h, who)| <= 1
            && (|Mine(h, who)| == 1 ==> end == Unlocking(lock, Done))
    ensures forall i :: 0 <= i < |h| && h[i].who == who ==> Drops(fs[i], fs[i + 1], id)
  {
    forall i | 0 <= i < |h| ensures Keeps(fs[i], h[i], fs[i + 1], who, DeleteBound(id), DropsIt(id)) {
      DeleteEntry(fs[i], h[i], fs[i + 1], who, id);
    }
    RunKeeps(fs, h, who, Enter(lock, Delete(id)), 0, DeleteBound(id), DropsIt(id));
  }

  lemma {:induction false} DeletedNow(fs: seq<FakeState>, h: seq<Entry>, who: nat, lock: Lock, id: string)
    requires History(fs, h) && h != [] && h[|h| - 1].who == who && Follows(Enter(lock, Delete(id)), Mine(h, who))
    ensures After(Enter(lock, Delete(id)), Mine(h, who)) == Unlocking(lock, Done) && id !in fs[|h|].volumes
  {
    DeleteAnswers(fs, h, who, lock, id);
    LastOfMine(h, who, Enter(lock, Delete(id)));
    assert Drops(fs[|h| - 1], fs[|h|], id);
    var n := |h| - 1;
    assert h == h[..n] + [h[n]];
    MineSplit(h[..n], [h[n]], who);
    assert |Mine(h, who)| == 1;
  }

  /** A volume that was there and whose deletion was answered with Done never comes back. */
  lemma {:induction false} DeletedForGood(fs: seq<FakeState>, h: seq<Entry>, m: nat, k: nat, who: nat, lock: Lock,
        id: string)
    requires History(fs, h) && 0 < m <= k <= |h| && h[m - 1].who == who && id in fs[0].volumes
    requires Follows(Enter(lock, Delete(id)), Mine(h[..m], who))
    ensures After(Enter(lock, Delete(id)), Mine(h[..m], who)) == Unlocking(lock, Done) && id !in fs[k].volumes
  {
    CutHistory(fs, h, m);
    DeletedNow(fs[..m + 1], h[..m], who, lock, id);
    IdsNeverReused(fs, h, 0, m, k, id);
  }

  // ---------- expand ----------

  function Larger(a: int, b: int): int {
    if a >= b then a else b
  }

  /** Nobody else deletes or resizes the volume. */
  predicate Unresized(h: seq<Entry>, who: nat, id: string) {
    forall e :: e in h && e.who != who ==> e.call != DeleteVolume(id) && !(e.call.ResizeVolume? && e.call.id == id)
  }

  predicate Sized(f: FakeState, id: string, zone: string, size: int) {
    id in f.volumes && f.volumes[id].zone == zone && f.volumes[id].size == size
  }

  predicate Expanding(f: FakeState, pc: Pc, n: nat, id: string, wanted: int, was: Volume) {
    match pc
    case Measuring(_, i, size) => n == 0 && i == id && size == wanted && Sized(f, id, was.zone, was.size)
    case Resizing(_, i, size, zone) =>
      n <= 1 && i == id && size == wanted > was.size && zone == was.zone && Sized(f, id, was.zone, was.size)
    case Unlocking(_, outcome) =>
      n <= 2 && outcome == Expanded(Larger(was.size, wanted)) && Sized(f, id, was.zone, Larger(was.size, wanted))
    case _ => false
  }

  ghost function ExpandBound(id: string, wanted: int, was: Volume): Standing {
    (f, pc, n: nat) => Expanding(f, pc, n, id, wanted, was)
  }

  /** The volume has the new size, and all else is as it was. */
  predicate Grows(f: FakeState, f': FakeState, id: string, wanted: int) {
    id in f.volumes && f.volumes[id].size < wanted
    && f' == f.(volumes := f.volumes[id := f.volumes[id].(size := wanted)])
  }

  ghost function GrowsAtMost(id: string, wanted: int): (FakeState, FakeState) -> bool {
    (f, f') => f' == f || Grows(f, f', id, wanted)
  }

  lemma {:induction false} ExpandStep(f: FakeState, pc: Pc, n: nat, reply: Reply, f': FakeState, id: string,
        wanted: int, was: Volume)
    requires Expanding(f, pc, n, id, wanted, was) && Accepts(pc, reply) && FakeStep(f, CallOf(pc), reply, f')
    ensures Expanding(f', Step(pc, reply), n + 1, id, wanted, was) && GrowsAtMost(id, wanted)(f, f')
  {
    if pc.Resizing? {
      ResizeMeaning(f, id, wanted, was.zone, reply, f');
    }
  }

  lemma {:induction false} ExpandEntry(f: FakeState, e: Entry, f': FakeState, who: nat, id: string, wanted: int,
        was: Volume)
    requires FakeInv(f) && FakeStep(f, e.call, e.reply, f')
    requires e.who != who ==> e.call != DeleteVolume(id) && !(e.call.ResizeVolume? && e.call.id == id)
    ensures Keeps(f, e, f', who, ExpandBound(id, wanted, was), GrowsAtMost(id, wanted))
  {
    if e.who == who {
      forall pc, n: nat | Expanding(f, pc, n, id, wanted, was) && Accepts(pc, e.reply) && e.call == CallOf(pc)
        ensures Expanding(f', Step(pc, e.reply), n + 1, id, wanted, was) && GrowsAtMost(id, wanted)(f, f')
      {
        ExpandStep(f, pc, n, e.reply, f', id, wanted, was);
      }
    } else if id in f.volumes {
      UndisturbedKeeps(f, e.call, e.reply, f', id);
    }
  }

  /**
   If nobody else deletes or resizes the volume, an expand answers, after two calls at most, with
   the larger of the volume's size and the one asked for, and that is the size it then has.
   */
  lemma {:induction false} ExpandAnswers(fs: seq<FakeState>, h: seq<Entry>, who: nat, lock: Lock, id: string,
        wanted: int)
    requires History(fs, h) && Unresized(h, who, id) && id in fs[0].volumes
    requires Follows(Enter(lock, Expand(id, Bytes(wanted))), Mine(h, who))
    ensures var end := After(Enter(lock, Expand(id, Bytes(wanted))), Mine(h, who));
            var size := Larger(fs[0].volumes[id].size, wanted);
            && |Mine(h, who)| <= 2
            && (|Mine(h, who)| == 2 ==> end.Unlocking?)
            && (end.Unlocking? ==>
                  end.outcome == Expanded(size) && id in fs[|h|].volumes && fs[|h|].volumes[id].size == size)
    ensures forall i :: 0 <= i < |h| && h[i].who == who ==> fs[i + 1] == fs[i] || Grows(fs[i], fs[i + 1], id, wanted)
  {
    var was := fs[0].volumes[id];
    var inv, change := ExpandBound(id, wanted, was), GrowsAtMost(id, wanted);
    forall i | 0 <= i < |h| ensures Keeps(fs[i], h[i], fs[i + 1], who, inv, change) {
      InvThroughout(fs, h, 0, i);
      assert h[i] in h;
      ExpandEntry(fs[i], h[i], fs[i + 1], who, id, wanted, was);
    }
    RunKeeps(fs, h, who, Enter(lock, Expand(id, Bytes(wanted))), 0, inv, change);
  }
}
