/**
 The controller service as the driver runs it: mutable lock tables, loops over listings, and
 calls to a provider that may answer anything.  Each method is proved to be the machine of
 module `Protocol`: it makes exactly the machine's calls, in order, and returns its outcome.
 */
module Driver {
  import opened Ordering
  import opened Cloud
  import opened Reconcile
  import opened Identifiers
  import opened Protocol
  import opened Pagination
  import opened Parameters
  import opened Outcomes
  import opened CreateOutcomes
  import Capacity

  /**
   The provider, the clock and the lock tables as one RPC sees them: any reply of the right kind
   can come back.  `history` is every exchange ever made and only grows; `log` is the part of it
   that the RPC begun last has made.
   */
  class Connection {
    ghost var history: seq<Exchange>
    ghost var before: seq<Exchange>
    ghost var start: Pc
    ghost var pc: Pc
    ghost var log: seq<Exchange>

    ghost predicate Valid()
      reads this
    {
      history == before + log && Follows(start, log) && After(start, log) == pc
    }

    /** The RPC has gone on from where it was: what it had said stands. */
    twostate predicate Continues()
      reads this
    {
      Valid() && start == old(start) && before == old(before) && old(log) <= log
    }

    constructor ()
      ensures Valid() && history == []
    {
      history, before, start, pc, log := [], [], Finished(Done), Finished(Done), [];
    }

    ghost method Open(at: Pc)
      modifies this
      ensures Valid() && start == pc == at && log == [] && history == before == old(history)
    {
      before, start, pc, log := history, at, at, [];
    }

    ghost method Record(exchange: Exchange)
      requires Valid() && Accepts(pc, exchange.reply) && exchange.call == CallOf(pc)
      modifies this
      ensures Continues() && log == old(log) + [exchange] && pc == Step(old(pc), exchange.reply)
    {
      FollowsOne(pc, exchange.reply);
      FollowsConcat(start, log, [exchange]);
      history, log, pc := history + [exchange], log + [exchange], Step(pc, exchange.reply);
    }

    method Call(call: Call) returns (reply: Reply)
      requires Valid() && !pc.Finished? && call == CallOf(pc)
      modifies this
      ensures Continues() && |log| == |old(log)| + 1 && log[|old(log)|] == Exchange(call, reply)
      ensures Accepts(old(pc), reply) && pc == Step(old(pc), reply)
    {
      reply := *;
      if !Answers(call, reply) {
        reply := if call.Unlock? then Ok else if call.TryLock? then Granted(false) else Failed(Unavailable);
      }
      Record(Exchange(call, reply));
    }
  }

  class VolumeLocks {
    var locks: set<string>
    ghost const table: Table

    constructor (ghost table: Table)
      ensures locks == {} && this.table == table
    {
      locks := {};
      this.table := table;
    }

    /** False means the lock is taken; true obliges the caller to `Unlock` it. */
    method TryLock(id: string, ghost cloud: Connection) returns (granted: bool)
      requires cloud.Valid() && cloud.pc.Locking? && cloud.pc.lock == Lock(table, id)
      modifies this, cloud
      ensures granted <==> id !in old(locks)
      ensures locks == old(locks) + {id}
      ensures cloud.Continues()
      ensures cloud.log == old(cloud.log) + [Exchange(Protocol.Call.TryLock(Lock(table, id)), Granted(granted))]
      ensures cloud.pc == Step(old(cloud.pc), Granted(granted))
    {
      cloud.Record(Exchange(Protocol.Call.TryLock(Lock(table, id)), Granted(id !in locks)));
      if id in locks {
        return false;
      }
      locks := locks + {id};
      return true;
    }

    method Unlock(id: string, ghost cloud: Connection)
      requires cloud.Valid() && cloud.pc.Unlocking? && cloud.pc.lock == Lock(table, id)
      modifies this, cloud
      ensures locks == old(locks) - {id}
      ensures cloud.Continues() && cloud.pc == Finished(old(cloud.pc).outcome)
    {
      cloud.Record(Exchange(Protocol.Call.Unlock(Lock(table, id)), Ok));
      locks := locks - {id};
    }
  }

  datatype Result<+T> = Success(value: T) | Failure(code: Code)

  /** Where a round of the retry loop leads. */
  datatype Verdict = GoOn | Settled | GaveUp(code: Code)

  // ---------- loops over a listing, as functions of a prefix ----------

  lemma {:induction false} NamesakesSnoc(vs: seq<Volume>, v: Volume, name: string)
    ensures Namesakes(vs + [v], name) == Namesakes(vs, name) + if v.name == name then [v] else []
  {
    if vs == [] {
      assert vs + [v] == [v];
    } else {
      NamesakesSnoc(vs[1..], v, name);
      assert (vs + [v])[1..] == vs[1..] + [v];
    }
  }

  lemma {:induction false} SnapshotNamesakesSnoc(ss: seq<Snapshot>, s: Snapshot, name: string, zone: string)
    ensures SnapshotNamesakes(ss + [s], name, zone)
            == SnapshotNamesakes(ss, name, zone) + if s.name == name then [s.(zone := Or(s.zone, zone))] else []
  {
    if ss == [] {
      assert ss + [s] == [s];
    } else {
      SnapshotNamesakesSnoc(ss[1..], s, name, zone);
      assert (ss + [s])[1..] == ss[1..] + [s];
    }
  }

  lemma {:induction false} DoomedFrom(sorted: seq<Volume>, i: nat)
    requires i < |sorted|
    ensures var rest := DoomedIds(sorted[i + 1..]);
            if DeletableDuplicate(sorted[i]) then
              && DoomedIds(sorted[i..]) != []
              && DoomedIds(sorted[i..])[0] == sorted[i].id && DoomedIds(sorted[i..])[1..] == rest
            else DoomedIds(sorted[i..]) == rest
  {
    assert sorted[i..][0] == sorted[i] && sorted[i..][1..] == sorted[i + 1..];
  }

  lemma {:induction false} SnapshotIdsFrom(sorted: seq<Snapshot>, i: nat)
    requires i < |sorted|
    ensures SnapshotIds(sorted[i..]) != [] && SnapshotIds(sorted[i..])[0] == sorted[i].id
    ensures SnapshotIds(sorted[i..])[1..] == SnapshotIds(sorted[i + 1..])
  {
  }

  lemma {:induction false} AttachedDeviceSkips(attachments: seq<Attachment>, n: nat, node: string)
    requires n <= |attachments|
    requires forall i :: 0 <= i < n ==> attachments[i].instance != node
    ensures AttachedDevice(attachments, node).0 == AttachedDevice(attachments[n..], node).0
    ensures AttachedTo(attachments, node) <==> AttachedTo(attachments[n..], node)
  {
    if n > 0 {
      AttachedDeviceSkips(attachments[1..], n - 1, node);
      assert attachments[1..][n - 1..] == attachments[n..];
      assert AttachedTo(attachments, node) <==> AttachedTo(attachments[1..], node) by {
        if i :| 0 <= i < |attachments| && attachments[i].instance == node {
          assert attachments[1..][i - 1].instance == node;
        }
      }
    }
  }

  /** The loop of attachedDevice, which the machine describes by recursion. */
  method FindAttachedDevice(volume: Volume, node: string) returns (device: string, elsewhere: bool)
    ensures (device, elsewhere) == AttachedDevice(volume.attachments, node)
  {
    for i := 0 to |volume.attachments|
      invariant forall k :: 0 <= k < i ==> volume.attachments[k].instance != node
    {
      if volume.attachments[i].instance == node {
        AttachedDeviceSkips(volume.attachments, i, node);
        return volume.attachments[i].device, false;
      }
    }
    AttachedDeviceSkips(volume.attachments, |volume.attachments|, node);
    return "", |volume.attachments| > 0;
  }

  method IsAttachedToNode(volume: Volume, node: string) returns (found: bool)
    ensures found == AttachedTo(volume.attachments, node)
  {
    for i := 0 to |volume.attachments|
      invariant forall k :: 0 <= k < i ==> volume.attachments[k].instance != node
    {
      if volume.attachments[i].instance == node {
        return true;
      }
    }
    return false;
  }

  /** The first loop of a reconcile: stop at an incompatible namesake, gather the others. */
  method CollectVolumes(volumes: seq<Volume>, spec: VolumeSpec) returns (clash: bool, compatible: seq<Volume>)
    ensures clash <==> VolumesClash(volumes, spec)
    ensures !clash ==> compatible == Namesakes(volumes, spec.name)
  {
    compatible := [];
    for i := 0 to |volumes|
      invariant compatible == Namesakes(volumes[..i], spec.name)
      invariant forall k :: 0 <= k < i && volumes[k].name == spec.name ==> CompatibleVolume(volumes[k], spec)
    {
      var volume := volumes[i];
      assert volumes[..i + 1] == volumes[..i] + [volume];
      NamesakesSnoc(volumes[..i], volume, spec.name);
      if volume.name != spec.name {
        continue;
      }
      if !CompatibleVolume(volume, spec) {
        return true, [];
      }
      compatible := compatible + [volume];
    }
    assert volumes[..|volumes|] == volumes;
    return false, compatible;
  }

  method CollectSnapshots(snapshots: seq<Snapshot>, name: string, source: string, zone: string)
    returns (clash: bool, compatible: seq<Snapshot>)
    ensures clash <==> SnapshotsClash(snapshots, name, source)
    ensures !clash ==> compatible == SnapshotNamesakes(snapshots, name, zone)
  {
    compatible := [];
    for i := 0 to |snapshots|
      invariant compatible == SnapshotNamesakes(snapshots[..i], name, zone)
      invariant forall k :: 0 <= k < i && snapshots[k].name == name ==> snapshots[k].volumeId == source
    {
      var snapshot := snapshots[i];
      assert snapshots[..i + 1] == snapshots[..i] + [snapshot];
      SnapshotNamesakesSnoc(snapshots[..i], snapshot, name, zone);
      if snapshot.name != name {
        continue;
      }
      if snapshot.volumeId != source {
        return true, [];
      }
      if snapshot.zone == "" {
        snapshot := snapshot.(zone := zone);
      }
      compatible := compatible + [snapshot];
    }
    assert snapshots[..|snapshots|] == snapshots;
    return false, compatible;
  }

  // ---------- the service ----------

  class Controller {
    const cloud: Connection
    const locks: VolumeLocks
    const names: VolumeLocks
    const defaultZone: string

    ghost predicate Valid()
      reads this, cloud
    {
      cloud.Valid() && locks.table == Volumes && names.table == Names
    }

    constructor (defaultZone: string)
      ensures Valid() && fresh(cloud) && fresh(locks) && fresh(names) && cloud.history == []
      ensures locks.locks == names.locks == {}
    {
      this.defaultZone := defaultZone;
      cloud := new Connection();
      locks := new VolumeLocks(Volumes);
      names := new VolumeLocks(Names);
    }

    /**
     All that was said to the provider, the clock and the lock tables is one whole conversation of
     the RPC's machine, from its beginning to `outcome`, and it ends with its lock released.
     */
    twostate predicate Ran(rpc: Rpc, outcome: Outcome)
      reads this, cloud
    {
      && Valid()
      && cloud.history == old(cloud.history) + cloud.log
      && cloud.start == Begin(rpc)
      && cloud.pc == Finished(outcome)
    }

    /** The conversation begins with an attempt at the lock, which was granted if and only if it was free. */
    ghost predicate Tried(free: bool)
      reads this, cloud
    {
      cloud.log != [] && cloud.log[0].reply == Granted(free)
    }

    /** The lock was held from the first call to the last, and what was said in between leads to the outcome. */
    ghost predicate Answered(rpc: Rpc, outcome: Outcome)
      reads this, cloud
    {
      UnderLock(rpc, cloud.log, outcome) && Goes(rpc, cloud.log[1..|cloud.log| - 1], outcome)
    }

    method ReconcileVolumeByName(spec: VolumeSpec, ghost lock: Lock, ghost stage: Stage) returns (sample: Sample)
      requires Valid() && cloud.pc == Listing(lock, VolumeTarget(spec), stage)
      modifies cloud
      ensures Valid() && cloud.Continues()
      ensures cloud.pc == AfterReconcile(lock, VolumeTarget(spec), stage, sample)
      ensures sample.Found? ==> sample.resource.FoundVolume?
    {
      var reply := cloud.Call(ListVolumes(spec.name, spec.zone));
      if reply.Failed? {
        return SampleOfError(reply.error);
      }
      var clash, compatible := CollectVolumes(reply.volumes, spec);
      if clash {
        return Hard(AlreadyExistsCode);
      }
      if |compatible| == 0 {
        return Missing;
      }
      SortSorts(compatible, VolumeId);
      compatible := Sort(compatible, VolumeId);
      sample := PurgeVolumes(compatible, spec, lock, stage);
    }

    /** The clean-up after a listing: everything but the head of the sorted namesakes. */
    method PurgeVolumes(sorted: seq<Volume>, spec: VolumeSpec, ghost lock: Lock, ghost stage: Stage)
      returns (sample: Sample)
      requires Valid() && sorted != []
      requires cloud.pc == Purge(lock, VolumeTarget(spec), stage, FoundVolume(sorted[0]), DoomedIds(sorted[1..]))
      modifies cloud
      ensures Valid() && cloud.Continues()
      ensures cloud.pc == AfterReconcile(lock, VolumeTarget(spec), stage, sample)
      ensures sample.Found? ==> sample.resource.FoundVolume?
    {
      for i := 1 to |sorted|
        invariant cloud.Continues()
        invariant cloud.pc == Purge(lock, VolumeTarget(spec), stage, FoundVolume(sorted[0]), DoomedIds(sorted[i..]))
      {
        var duplicate := sorted[i];
        DoomedFrom(sorted, i);
        if !DeletableDuplicate(duplicate) {
          continue;
        }
        var failure := DeleteDuplicateVolume(duplicate.id, spec, lock, stage, FoundVolume(sorted[0]),
          DoomedIds(sorted[i + 1..]));
        if failure.Some? {
          return Hard(failure.value);
        }
      }
      return Found(FoundVolume(sorted[0]));
    }

    /** One delete of the clean-up: a volume that is gone, or in use after all, does not stop it. */
    method DeleteDuplicateVolume(id: string, spec: VolumeSpec, ghost lock: Lock, ghost stage: Stage,
          ghost canonical: Resource, ghost later: seq<string>)
      returns (failure: Option<Code>)
      requires Valid() && cloud.pc == Purging(lock, VolumeTarget(spec), stage, canonical, id, later)
      modifies cloud
      ensures Valid() && cloud.Continues()
      ensures cloud.pc == if failure.None? then Purge(lock, VolumeTarget(spec), stage, canonical, later)
                          else AfterReconcile(lock, VolumeTarget(spec), stage, Hard(failure.value))
    {
      var deleted := cloud.Call(Call.DeleteVolume(id));
      if deleted.Failed? && !deleted.error.NotFound? {
        if deleted.error.Conflict? {
          return None;
        }
        return Some(StatusOf(deleted.error));
      }
      return None;
    }

    /** The wait between two rounds, with the status if it is cut short. */
    method Pause(delay: nat, ghost lock: Lock, ghost target: Target, ghost stage: Stage) returns (failure: Option<Code>)
      requires Valid() && cloud.pc == Sleeping(lock, target, stage, delay)
      modifies cloud
      ensures Valid() && cloud.Continues()
      ensures cloud.pc == if failure.None? then Listing(lock, target, stage)
                          else Unlocking(lock, Refused(failure.value))
    {
      var slept := cloud.Call(Wait(delay));
      return if slept.Failed? then Some(StatusOf(slept.error)) else None;
    }

    /**
     What follows each reconcile of the retry loop, for volumes and snapshots alike: count the
     samples that agree, settle at three of them, and otherwise wait for the next round.
     */
    method Tally(sample: Sample, previous: string, stable: nat, delay: nat, ghost lock: Lock, ghost target: Target,
          ghost round: nat)
      returns (verdict: Verdict, previous': string, stable': nat)
      requires Valid() && cloud.pc == AfterReconcile(lock, target, Polling(round, previous, stable, delay), sample)
      modifies cloud
      ensures Valid() && cloud.Continues()
      ensures match verdict
              case GoOn => cloud.pc == Listing(lock, target, NextStage(round + 1, previous', stable', 2 * delay))
              case Settled => sample.Found? && cloud.pc == Accept(lock, target, sample.resource)
              case GaveUp(code) => cloud.pc == Unlocking(lock, Refused(code))
    {
      previous', stable' := previous, stable;
      if sample.Hard? {
        return GaveUp(sample.code), previous', stable';
      }
      if sample.Found? {
        if sample.resource.Id() == previous {
          stable' := stable + 1;
        } else {
          previous' := sample.resource.Id();
          stable' := 1;
        }
        if stable' >= STABLE_SAMPLES {
          return Settled, previous', stable';
        }
      }
      var failure := Pause(delay, lock, target, NextStage(round + 1, previous', stable', 2 * delay));
      verdict := if failure.Some? then GaveUp(failure.value) else GoOn;
    }

    method ReconcileCreatedVolume(spec: VolumeSpec, ghost lock: Lock) returns (r: Result<Volume>)
      requires Valid() && cloud.pc == Listing(lock, VolumeTarget(spec), FirstPoll())
      modifies cloud
      ensures Valid() && cloud.Continues()
      ensures cloud.pc == if r.Success? then Verifying(lock, spec, r.value.id) else Unlocking(lock, Refused(r.code))
    {
      var previous := "";
      var stable: nat := 0;
      var delay: nat := INITIAL_DELAY;
      for round := 0 to ATTEMPTS
        invariant cloud.Continues()
        invariant cloud.pc == Listing(lock, VolumeTarget(spec), NextStage(round, previous, stable, delay))
      {
        var canonical := ReconcileVolumeByName(spec, lock, Polling(round, previous, stable, delay));
        var verdict;
        verdict, previous, stable := Tally(canonical, previous, stable, delay, lock, VolumeTarget(spec), round);
        match verdict {
          case GoOn => delay := 2 * delay;
          case Settled => return Success(canonical.resource.volume);
          case GaveUp(code) => return Failure(code);
        }
      }
      r := LastReconcileOfVolume(spec, lock);
    }

    /** The attempts are used up: what the last reconcile finds is taken as it is. */
    method LastReconcileOfVolume(spec: VolumeSpec, ghost lock: Lock) returns (r: Result<Volume>)
      requires Valid() && cloud.pc == Listing(lock, VolumeTarget(spec), LastTry)
      modifies cloud
      ensures Valid() && cloud.Continues()
      ensures cloud.pc == if r.Success? then Verifying(lock, spec, r.value.id) else Unlocking(lock, Refused(r.code))
    {
      var canonical := ReconcileVolumeByName(spec, lock, LastTry);
      match canonical {
        case Found(resource) => return Success(resource.volume);
        case Missing => return Failure(StatusOf(Unavailable));
        case Hard(code) => return Failure(code);
      }
    }

    method VerifyVolume(volume: Volume, spec: VolumeSpec, ghost lock: Lock) returns (outcome: Outcome)
      requires Valid() && cloud.pc == Verifying(lock, spec, volume.id)
      modifies cloud
      ensures Valid() && cloud.Continues() && cloud.pc == Unlocking(lock, outcome)
    {
      var reply := cloud.Call(GetVolume(volume.id));
      if reply.Failed? {
        if reply.error.NotFound? {
          return Refused(StatusOf(Unavailable));
        }
        return Refused(StatusOf(reply.error));
      }
      var verified := reply.volume;
      if verified.zone == "" {
        verified := verified.(zone := spec.zone);
      }
      if !CompatibleVolume(verified, spec) {
        return Refused(AlreadyExistsCode);
      }
      return Returned(FoundVolume(verified));
    }

    /** A request that does not parse is refused before anything is said; `parsed` is what it comes to. */
    method CreateVolume(request: Request, defaults: Defaults) returns (outcome: Outcome, ghost parsed: SpecResult)
      requires Valid()
      modifies cloud, names
      ensures Parsed(request, defaults, parsed)
      ensures Valid() && names.locks == old(names.locks)
      ensures parsed.Rejected? ==> outcome == Refused(parsed.code) && cloud.history == old(cloud.history)
      ensures parsed.Spec? ==> Ran(Create(parsed.spec), outcome) && Tried(parsed.spec.name !in old(names.locks))
      ensures parsed.Spec? && parsed.spec.name !in old(names.locks) ==> Answered(Create(parsed.spec), outcome)
    {
      var parse := VolumeSpecOf(request, defaults);
      parsed := parse;
      if parse.Rejected? {
        return Refused(parse.code), parsed;
      }
      var spec := parse.spec;
      cloud.Open(Begin(Create(spec)));
      var granted := names.TryLock(request.name, cloud);
      if !granted {
        return Refused(Aborted), parsed;
      }
      outcome := CreateUnderLock(spec, Lock(Names, spec.name));
      names.Unlock(request.name, cloud);
      EveryConversation(Create(spec), cloud.log, outcome);
    }

    method CreateUnderLock(spec: VolumeSpec, ghost lock: Lock) returns (outcome: Outcome)
      requires Valid() && cloud.pc == Enter(lock, Create(spec))
      modifies cloud
      ensures Valid() && cloud.Continues() && cloud.pc == Unlocking(lock, outcome)
    {
      var existing := ReconcileVolumeByName(spec, lock, BeforeCreate);
      if existing.Found? {
        outcome := VerifyVolume(existing.resource.volume, spec, lock);
        return;
      }
      if existing.Hard? {
        return Refused(existing.code);
      }
      outcome := CreateMissing(spec, lock);
    }

    /** No namesake was found: create one, then settle which of those there are by now is the one. */
    method CreateMissing(spec: VolumeSpec, ghost lock: Lock) returns (outcome: Outcome)
      requires Valid() && cloud.pc == Creating(lock, VolumeTarget(spec))
      modifies cloud
      ensures Valid() && cloud.Continues() && cloud.pc == Unlocking(lock, outcome)
    {
      var created := cloud.Call(Call.CreateVolume(spec));
      if created.Failed? {
        if created.error.AlreadyExists? {
          var reconciled := ReconcileVolumeByName(spec, lock, AfterExists);
          if reconciled.Found? {
            outcome := VerifyVolume(reconciled.resource.volume, spec, lock);
            return;
          }
        }
        return Refused(StatusOf(created.error));
      }
      var reconciled := ReconcileCreatedVolume(spec, lock);
      if reconciled.Failure? {
        return Refused(reconciled.code);
      }
      outcome := VerifyVolume(reconciled.value, spec, lock);
    }

    method DeleteVolume(id: string) returns (outcome: Outcome)
      requires Valid()
      modifies cloud, locks
      ensures Ran(Delete(id), outcome) && locks.locks == old(locks.locks)
      ensures id != "" ==> Tried(id !in old(locks.locks))
      ensures id != "" && id !in old(locks.locks) ==> Answered(Delete(id), outcome)
    {
      cloud.Open(Begin(Delete(id)));
      if id == "" {
        return Refused(InvalidArgument);
      }
      var granted := locks.TryLock(id, cloud);
      if !granted {
        return Refused(Aborted);
      }
      var reply := cloud.Call(Call.DeleteVolume(id));
      if reply.Failed? && !reply.error.NotFound? {
        outcome := Refused(StatusOf(reply.error));
      } else {
        outcome := Done;
      }
      locks.Unlock(id, cloud);
      EveryConversation(Delete(id), cloud.log, outcome);
    }

    method ControllerPublishVolume(id: string, node: string, contextZone: string) returns (outcome: Outcome)
      requires Valid()
      modifies cloud, locks
      ensures Ran(Publish(id, node, Or(contextZone, defaultZone)), outcome) && locks.locks == old(locks.locks)
      ensures id != "" && node != "" ==> Tried(id !in old(locks.locks))
      ensures id != "" && node != "" && id !in old(locks.locks) ==>
                Answered(Publish(id, node, Or(contextZone, defaultZone)), outcome)
    {
      cloud.Open(Begin(Publish(id, node, Or(contextZone, defaultZone))));
      if id == "" || node == "" {
        return Refused(InvalidArgument);
      }
      var granted := locks.TryLock(id, cloud);
      if !granted {
        return Refused(Aborted);
      }
      outcome := PublishUnderLock(id, node, Or(contextZone, defaultZone), Lock(Volumes, id));
      locks.Unlock(id, cloud);
      EveryConversation(Publish(id, node, Or(contextZone, defaultZone)), cloud.log, outcome);
    }

    method PublishUnderLock(id: string, node: string, fallbackZone: string, ghost lock: Lock) returns (outcome: Outcome)
      requires Valid() && cloud.pc == Checking(lock, id, node, fallbackZone)
      modifies cloud
      ensures Valid() && cloud.Continues() && cloud.pc == Unlocking(lock, outcome)
    {
      var reply := cloud.Call(GetVolume(id));
      if reply.Failed? {
        return Refused(StatusOf(reply.error));
      }
      var volume := reply.volume;
      var zone := Or(volume.zone, fallbackZone);
      if volume.multiattach {
        return Refused(StatusOf(Conflict));
      }
      var device, elsewhere := FindAttachedDevice(volume, node);
      if device != "" {
        return Published(device);
      }
      if elsewhere {
        return Refused(StatusOf(Conflict));
      }
      outcome := AttachFree(id, node, zone, lock);
    }

    /** The volume was read as free for this node. */
    method AttachFree(id: string, node: string, zone: string, ghost lock: Lock) returns (outcome: Outcome)
      requires Valid() && cloud.pc == Attaching(lock, id, node, zone)
      modifies cloud
      ensures Valid() && cloud.Continues() && cloud.pc == Unlocking(lock, outcome)
    {
      var attached := cloud.Call(AttachVolume(id, node, zone));
      if attached.Failed? {
        outcome := AttachedDeviceAfterPublishError(id, node, attached.error, lock);
        return;
      }
      return Published(attached.device);
    }

    /** An attach that reports an error may have worked: the volume's own word decides. */
    method AttachedDeviceAfterPublishError(id: string, node: string, error: Error, ghost lock: Lock)
      returns (outcome: Outcome)
      requires Valid() && cloud.pc == Rechecking(lock, id, node, error)
      modifies cloud
      ensures Valid() && cloud.Continues() && cloud.pc == Unlocking(lock, outcome)
    {
      var reply := cloud.Call(GetVolume(id));
      if reply.Failed? {
        return Refused(StatusOf(error));
      }
      var device, elsewhere := FindAttachedDevice(reply.volume, node);
      if elsewhere || device == "" {
        return Refused(StatusOf(error));
      }
      return Published(device);
    }

    method ControllerUnpublishVolume(id: string, node: string) returns (outcome: Outcome)
      requires Valid()
      modifies cloud, locks
      ensures Ran(Unpublish(id, node, defaultZone), outcome) && locks.locks == old(locks.locks)
      ensures id != "" && node != "" ==> Tried(id !in old(locks.locks))
      ensures id != "" && node != "" && id !in old(locks.locks) ==>
                Answered(Unpublish(id, node, defaultZone), outcome)
    {
      cloud.Open(Begin(Unpublish(id, node, defaultZone)));
      if id == "" || node == "" {
        return Refused(InvalidArgument);
      }
      var granted := locks.TryLock(id, cloud);
      if !granted {
        return Refused(Aborted);
      }
      outcome := UnpublishUnderLock(id, node, Lock(Volumes, id));
      locks.Unlock(id, cloud);
      EveryConversation(Unpublish(id, node, defaultZone), cloud.log, outcome);
    }

    method UnpublishUnderLock(id: string, node: string, ghost lock: Lock) returns (outcome: Outcome)
      requires Valid() && cloud.pc == CheckingAttached(lock, id, node, defaultZone)
      modifies cloud
      ensures Valid() && cloud.Continues() && cloud.pc == Unlocking(lock, outcome)
    {
      var zone := defaultZone;
      var reply := cloud.Call(GetVolume(id));
      if reply.Failed? {
        if reply.error.NotFound? {
          return Done;
        }
        return Refused(StatusOf(reply.error));
      }
      if reply.volume.zone != "" {
        zone := reply.volume.zone;
      }
      var attached := IsAttachedToNode(reply.volume, node);
      if !attached {
        return Done;
      }
      var detached := cloud.Call(DetachVolume(id, node, zone));
      if detached.Failed? && !detached.error.NotFound? {
        return Refused(StatusOf(detached.error));
      }
      return Done;
    }

    method ControllerExpandVolume(id: string, required: int, limit: int) returns (outcome: Outcome)
      requires Valid()
      modifies cloud, locks
      ensures Ran(Expand(id, Capacity.DefaultRequestedBytes(required, limit)), outcome)
      ensures locks.locks == old(locks.locks)
      ensures id != "" ==> Tried(id !in old(locks.locks))
      ensures id != "" && id !in old(locks.locks) ==>
                Answered(Expand(id, Capacity.DefaultRequestedBytes(required, limit)), outcome)
    {
      cloud.Open(Begin(Expand(id, Capacity.DefaultRequestedBytes(required, limit))));
      if id == "" {
        return Refused(InvalidArgument);
      }
      var granted := locks.TryLock(id, cloud);
      if !granted {
        return Refused(Aborted);
      }
      var size := Capacity.DefaultRequestedBytes(required, limit);
      if size.ExceedsLimit? {
        outcome := Refused(OutOfRangeCode);
      } else {
        outcome := ExpandUnderLock(id, size.n, Lock(Volumes, id));
      }
      locks.Unlock(id, cloud);
      EveryConversation(Expand(id, size), cloud.log, outcome);
    }

    method ExpandUnderLock(id: string, size: int, ghost lock: Lock) returns (outcome: Outcome)
      requires Valid() && cloud.pc == Measuring(lock, id, size)
      modifies cloud
      ensures Valid() && cloud.Continues() && cloud.pc == Unlocking(lock, outcome)
    {
      var reply := cloud.Call(GetVolume(id));
      if reply.Failed? {
        return Refused(StatusOf(reply.error));
      }
      if reply.volume.size >= size {
        return Expanded(reply.volume.size);
      }
      var resized := cloud.Call(ResizeVolume(id, size, reply.volume.zone));
      if resized.Failed? {
        return Refused(StatusOf(resized.error));
      }
      return Expanded(resized.size);
    }

    // ---------- snapshots ----------

    method ReconcileSnapshotByName(name: string, source: string, zone: string, ghost lock: Lock, ghost stage: Stage)
      returns (sample: Sample)
      requires Valid() && cloud.pc == Listing(lock, SnapshotTarget(name, source, zone), stage)
      modifies cloud
      ensures Valid() && cloud.Continues()
      ensures cloud.pc == AfterReconcile(lock, SnapshotTarget(name, source, zone), stage, sample)
      ensures sample.Found? ==> sample.resource.FoundSnapshot?
    {
      var reply := cloud.Call(ListSnapshots(name, zone));
      if reply.Failed? {
        return SampleOfError(reply.error);
      }
      var clash, compatible := CollectSnapshots(reply.snapshots, name, source, zone);
      if clash {
        return Hard(AlreadyExistsCode);
      }
      if |compatible| == 0 {
        return Missing;
      }
      SortSorts(compatible, SnapshotId);
      compatible := Sort(compatible, SnapshotId);
      sample := PurgeSnapshots(compatible, name, source, zone, lock, stage);
    }

    method PurgeSnapshots(sorted: seq<Snapshot>, name: string, source: string, zone: string, ghost lock: Lock,
          ghost stage: Stage)
      returns (sample: Sample)
      requires Valid() && sorted != []
      requires cloud.pc == Purge(lock, SnapshotTarget(name, source, zone), stage, FoundSnapshot(sorted[0]),
        SnapshotIds(sorted[1..]))
      modifies cloud
      ensures Valid() && cloud.Continues()
      ensures cloud.pc == AfterReconcile(lock, SnapshotTarget(name, source, zone), stage, sample)
      ensures sample.Found? ==> sample.resource.FoundSnapshot?
    {
      ghost var target := SnapshotTarget(name, source, zone);
      for i := 1 to |sorted|
        invariant cloud.Continues()
        invariant cloud.pc == Purge(lock, target, stage, FoundSnapshot(sorted[0]), SnapshotIds(sorted[i..]))
      {
        var duplicate := sorted[i];
        SnapshotIdsFrom(sorted, i);
        var failure := DeleteDuplicateSnapshot(duplicate.id, zone, target, lock, stage, FoundSnapshot(sorted[0]),
          SnapshotIds(sorted[i + 1..]));
        if failure.Some? {
          return Hard(failure.value);
        }
      }
      return Found(FoundSnapshot(sorted[0]));
    }

    method DeleteDuplicateSnapshot(id: string, zone: string, ghost target: Target, ghost lock: Lock,
          ghost stage: Stage, ghost canonical: Resource, ghost later: seq<string>)
      returns (failure: Option<Code>)
      requires target.SnapshotTarget? && target.zone == zone
      requires Valid() && cloud.pc == Purging(lock, target, stage, canonical, id, later)
      modifies cloud
      ensures Valid() && cloud.Continues()
      ensures cloud.pc == if failure.None? then Purge(lock, target, stage, canonical, later)
                          else AfterReconcile(lock, target, stage, Hard(failure.value))
    {
      var deleted := cloud.Call(Call.DeleteSnapshot(id, zone));
      if deleted.Failed? && !deleted.error.NotFound? {
        if deleted.error.Conflict? {
          return None;
        }
        return Some(StatusOf(deleted.error));
      }
      return None;
    }

    method ReconcileCreatedSnapshot(name: string, source: string, zone: string, ghost lock: Lock)
      returns (outcome: Outcome)
      requires Valid() && cloud.pc == Listing(lock, SnapshotTarget(name, source, zone), FirstPoll())
      modifies cloud
      ensures Valid() && cloud.Continues() && cloud.pc == Unlocking(lock, outcome)
    {
      var previous := "";
      var stable: nat := 0;
      var delay: nat := INITIAL_DELAY;
      for round := 0 to ATTEMPTS
        invariant cloud.Continues()
        invariant cloud.pc == Listing(lock, SnapshotTarget(name, source, zone),
          NextStage(round, previous, stable, delay))
      {
        var canonical := ReconcileSnapshotByName(name, source, zone, lock, Polling(round, previous, stable, delay));
        var verdict;
        verdict, previous, stable := Tally(canonical, previous, stable, delay, lock,
          SnapshotTarget(name, source, zone), round);
        match verdict {
          case GoOn => delay := 2 * delay;
          case Settled => return Returned(canonical.resource);
          case GaveUp(code) => return Refused(code);
        }
      }
      outcome := LastReconcileOfSnapshot(name, source, zone, lock);
    }

    method LastReconcileOfSnapshot(name: string, source: string, zone: string, ghost lock: Lock)
      returns (outcome: Outcome)
      requires Valid() && cloud.pc == Listing(lock, SnapshotTarget(name, source, zone), LastTry)
      modifies cloud
      ensures Valid() && cloud.Continues() && cloud.pc == Unlocking(lock, outcome)
    {
      var canonical := ReconcileSnapshotByName(name, source, zone, lock, LastTry);
      match canonical {
        case Found(resource) => return Returned(resource);
        case Missing => return Refused(StatusOf(Unavailable));
        case Hard(code) => return Refused(code);
      }
    }

    method CreateSnapshot(name: string, source: string) returns (outcome: Outcome)
      requires Valid()
      modifies cloud, names
      ensures Ran(TakeSnapshot(name, source, defaultZone), outcome) && names.locks == old(names.locks)
      ensures name != "" && source != "" ==> Tried("snapshot:" + name !in old(names.locks))
      ensures name != "" && source != "" && "snapshot:" + name !in old(names.locks) ==>
                Answered(TakeSnapshot(name, source, defaultZone), outcome)
    {
      cloud.Open(Begin(TakeSnapshot(name, source, defaultZone)));
      if name == "" || source == "" {
        return Refused(InvalidArgument);
      }
      var granted := names.TryLock("snapshot:" + name, cloud);
      if !granted {
        return Refused(Aborted);
      }
      outcome := SnapshotUnderLock(name, source, SnapshotLock(name));
      names.Unlock("snapshot:" + name, cloud);
      EveryConversation(TakeSnapshot(name, source, defaultZone), cloud.log, outcome);
    }

    method SnapshotUnderLock(name: string, source: string, ghost lock: Lock) returns (outcome: Outcome)
      requires Valid() && cloud.pc == ReadingSource(lock, name, source, defaultZone)
      modifies cloud
      ensures Valid() && cloud.Continues() && cloud.pc == Unlocking(lock, outcome)
    {
      var reply := cloud.Call(GetVolume(source));
      if reply.Failed? {
        return Refused(StatusOf(reply.error));
      }
      var zone := Or(reply.volume.zone, defaultZone);
      var existing := ReconcileSnapshotByName(name, source, zone, lock, BeforeCreate);
      if existing.Found? {
        return Returned(existing.resource);
      }
      if existing.Hard? {
        return Refused(existing.code);
      }
      var created := cloud.Call(Call.CreateSnapshot(name, source, zone));
      if created.Failed? {
        return Refused(StatusOf(created.error));
      }
      outcome := ReconcileCreatedSnapshot(name, source, zone, lock);
    }

    method DeleteSnapshot(csiId: string) returns (outcome: Outcome)
      requires Valid()
      modifies cloud
      ensures Ran(DropSnapshot(csiId, defaultZone), outcome)
      ensures csiId != "" ==>
                var (id, zone) := DecodeSnapshotId(csiId, defaultZone);
                DeleteGoes(Call.DeleteSnapshot(id, zone), cloud.log, outcome)
    {
      cloud.Open(Begin(DropSnapshot(csiId, defaultZone)));
      if csiId == "" {
        return Refused(InvalidArgument);
      }
      var (id, zone) := DecodeSnapshotId(csiId, defaultZone);
      var reply := cloud.Call(Call.DeleteSnapshot(id, zone));
      if reply.Failed? && !reply.error.NotFound? {
        outcome := Refused(StatusOf(reply.error));
      } else {
        outcome := Done;
      }
      DropOutcome(csiId, defaultZone, cloud.log, outcome);
    }
  }
}
