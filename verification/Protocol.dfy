/**
 The controller's RPCs as step machines, split at every call they make outside the driver:
 to a lock table, to the provider, or to the clock.  `CallOf` is the call a machine is waiting
 for and `Step` what it does with the reply, with the branches of the Go code.
 */
module Protocol {
  import opened Cloud
  import opened Reconcile
  import opened Capacity
  import opened Identifiers

  /** A request as the driver resolves it against its configuration. */
  datatype Rpc =
    | Create(spec: VolumeSpec)
    | Delete(id: string)
    | Publish(id: string, node: string, fallbackZone: string)
    | Unpublish(id: string, node: string, fallbackZone: string)
    | Expand(id: string, capacity: Requested)
    | TakeSnapshot(name: string, source: string, fallbackZone: string)     // CreateSnapshot
    | DropSnapshot(csiId: string, fallbackZone: string)

  datatype Table = Names | Volumes

  datatype Lock = Lock(table: Table, key: string)

  datatype Call =
    | TryLock(lock: Lock)
    | Unlock(lock: Lock)
    | Wait(delay: nat)
    | ListVolumes(name: string, zone: string)
    | ListSnapshots(name: string, zone: string)
    | CreateVolume(spec: VolumeSpec)
    | CreateSnapshot(name: string, source: string, zone: string)
    | DeleteVolume(id: string)
    | DeleteSnapshot(id: string, zone: string)
    | GetVolume(id: string)
    | AttachVolume(id: string, node: string, zone: string)
    | DetachVolume(id: string, node: string, zone: string)
    | ResizeVolume(id: string, size: int, zone: string)

  datatype Reply =
    | Granted(granted: bool)
    | Ok
    | VolumeList(volumes: seq<Volume>)
    | SnapshotList(snapshots: seq<Snapshot>)
    | OneVolume(volume: Volume)
    | Device(device: string)
    | Size(size: int)
    | Failed(error: Error)

  /** The replies a call can have. */
  predicate Answers(call: Call, reply: Reply) {
    match call
    case TryLock(_) => reply.Granted?
    case Unlock(_) => reply.Ok?
    case Wait(_) => reply.Ok? || reply == Failed(Unavailable)
    case ListVolumes(_, _) => reply.VolumeList? || reply.Failed?
    case ListSnapshots(_, _) => reply.SnapshotList? || reply.Failed?
    case GetVolume(_) => reply.OneVolume? || reply.Failed?
    case AttachVolume(_, _, _) => reply.Device? || reply.Failed?
    case ResizeVolume(_, _, _) => reply.Size? || reply.Failed?
    case _ => reply.Ok? || reply.Failed?
  }

  datatype Outcome =
    | Returned(resource: Resource)
    | Published(device: string)
    | Expanded(capacity: int)
    | Done
    | Refused(code: Code)

  const ATTEMPTS := 7
  const INITIAL_DELAY := 100    // milliseconds
  const STABLE_SAMPLES := 3

  /** Why a reconcile is running, and with it what its result leads to. */
  datatype Stage =
    | BeforeCreate
    | AfterExists
    | Polling(round: nat, previous: string, stable: nat, delay: nat)
    | LastTry

  /** What a reconcile returns; every error but "not found" is already a status here. */
  datatype Sample = Found(resource: Resource) | Missing | Hard(code: Code)

  datatype Pc =
    | Locking(lock: Lock, rpc: Rpc)
    | Listing(lock: Lock, target: Target, stage: Stage)
    | Purging(lock: Lock, target: Target, stage: Stage, canonical: Resource, next: string, later: seq<string>)
    | Creating(lock: Lock, target: Target)
    | Sleeping(lock: Lock, target: Target, stage: Stage, delay: nat)
    | Verifying(lock: Lock, spec: VolumeSpec, id: string)
    | ReadingSource(lock: Lock, name: string, source: string, fallbackZone: string)
    | Deleting(lock: Lock, id: string)
    | Checking(lock: Lock, id: string, node: string, fallbackZone: string)
    | Attaching(lock: Lock, id: string, node: string, zone: string)
    | Rechecking(lock: Lock, id: string, node: string, error: Error)
    | CheckingAttached(lock: Lock, id: string, node: string, fallbackZone: string)
    | Detaching(lock: Lock, id: string, node: string, zone: string)
    | Measuring(lock: Lock, id: string, wanted: int)
    | Resizing(lock: Lock, id: string, wanted: int, zone: string)
    | Unlocking(lock: Lock, outcome: Outcome)
    | Dropping(id: string, zone: string)
    | Finished(outcome: Outcome)

  // ---------- entering and leaving ----------

  function SnapshotLock(name: string): Lock {
    Lock(Names, "snapshot:" + name)
  }

  function Begin(rpc: Rpc): Pc {
    match rpc
    case Create(spec) =>
      if spec.name == "" then Finished(Refused(InvalidArgument)) else Locking(Lock(Names, spec.name), rpc)
    case TakeSnapshot(name, source, _) =>
      if name == "" || source == "" then Finished(Refused(InvalidArgument)) else Locking(SnapshotLock(name), rpc)
    case Delete(id) =>
      if id == "" then Finished(Refused(InvalidArgument)) else Locking(Lock(Volumes, id), rpc)
    case Publish(id, node, _) =>
      if id == "" || node == "" then Finished(Refused(InvalidArgument)) else Locking(Lock(Volumes, id), rpc)
    case Unpublish(id, node, _) =>
      if id == "" || node == "" then Finished(Refused(InvalidArgument)) else Locking(Lock(Volumes, id), rpc)
    case Expand(id, _) =>
      if id == "" then Finished(Refused(InvalidArgument)) else Locking(Lock(Volumes, id), rpc)
    case DropSnapshot(csiId, fallbackZone) =>
      if csiId == "" then Finished(Refused(InvalidArgument))
      else
        var (id, zone) := DecodeSnapshotId(csiId, fallbackZone);
        Dropping(id, zone)
  }

  /** Where an RPC stands once it holds its lock. */
  function Enter(lock: Lock, rpc: Rpc): Pc {
    match rpc
    case Create(spec) => Listing(lock, VolumeTarget(spec), BeforeCreate)
    case TakeSnapshot(name, source, fallbackZone) => ReadingSource(lock, name, source, fallbackZone)
    case Delete(id) => Deleting(lock, id)
    case Publish(id, node, fallbackZone) => Checking(lock, id, node, fallbackZone)
    case Unpublish(id, node, fallbackZone) => CheckingAttached(lock, id, node, fallbackZone)
    case Expand(id, capacity) =>
      if capacity.ExceedsLimit? then Unlocking(lock, Refused(OutOfRangeCode)) else Measuring(lock, id, capacity.n)
    case DropSnapshot(csiId, _) => Unlocking(lock, Done)    // takes no lock, see Begin
  }

  function Fail(lock: Lock, e: Error): Pc {
    Unlocking(lock, Refused(StatusOf(e)))
  }

  // ---------- reconcile ----------

  function NextStage(round: nat, previous: string, stable: nat, delay: nat): Stage {
    if round < ATTEMPTS then Polling(round, previous, stable, delay) else LastTry
  }

  function StableCount(stage: Stage, id: string): nat
    requires stage.Polling?
  {
    if id == stage.previous then stage.stable + 1 else 1
  }

  /** A volume is still verified by ID; a snapshot is returned as it is. */
  function Accept(lock: Lock, target: Target, canonical: Resource): Pc {
    match target
    case VolumeTarget(spec) => Verifying(lock, spec, canonical.Id())
    case SnapshotTarget(_, _, _) => Unlocking(lock, Returned(canonical))
  }

  function AfterReconcile(lock: Lock, target: Target, stage: Stage, sample: Sample): Pc {
    match stage
    case BeforeCreate => (
      match sample
      case Found(c) => Accept(lock, target, c)
      case Missing => Creating(lock, target)
      case Hard(code) => Unlocking(lock, Refused(code)))
    case AfterExists => (
      match sample
      case Found(c) => Accept(lock, target, c)
      case _ => Unlocking(lock, Refused(AlreadyExistsCode)))
    case Polling(round, previous, stable, delay) => (
      match sample
      case Found(c) =>
        var count := StableCount(stage, c.Id());
        if count >= STABLE_SAMPLES then Accept(lock, target, c)
        else Sleeping(lock, target, NextStage(round + 1, c.Id(), count, 2 * delay), delay)
      case Missing => Sleeping(lock, target, NextStage(round + 1, previous, stable, 2 * delay), delay)
      case Hard(code) => Unlocking(lock, Refused(code)))
    case LastTry => (
      match sample
      case Found(c) => Accept(lock, target, c)
      case Missing => Unlocking(lock, Refused(UnavailableCode))
      case Hard(code) => Unlocking(lock, Refused(code)))
  }

  function SampleOfError(e: Error): Sample {
    if e.NotFound? then Missing else Hard(StatusOf(e))
  }

  /** A delete that leaves the reconcile going: done, already gone, or refused as in use. */
  predicate SoftDelete(reply: Reply) {
    reply.Ok? || (reply.Failed? && (reply.error.NotFound? || reply.error.Conflict?))
  }

  function Purge(lock: Lock, target: Target, stage: Stage, canonical: Resource, doomed: seq<string>): Pc {
    if doomed == [] then AfterReconcile(lock, target, stage, Found(canonical))
    else Purging(lock, target, stage, canonical, doomed[0], doomed[1..])
  }

  function PlanFor(target: Target, reply: Reply): Plan
    requires Answers(ListingCall(target), reply) && !reply.Failed?
  {
    match target
    case VolumeTarget(spec) => PlanVolumes(reply.volumes, spec)
    case SnapshotTarget(name, source, zone) => PlanSnapshots(reply.snapshots, name, source, zone)
  }

  function ListingCall(target: Target): Call {
    match target
    case VolumeTarget(spec) => ListVolumes(spec.name, spec.zone)
    case SnapshotTarget(name, _, zone) => ListSnapshots(name, zone)
  }

  function PurgeCall(target: Target, id: string): Call {
    match target
    case VolumeTarget(_) => DeleteVolume(id)
    case SnapshotTarget(_, _, zone) => DeleteSnapshot(id, zone)
  }

  function AfterListing(lock: Lock, target: Target, stage: Stage, reply: Reply): Pc
    requires Answers(ListingCall(target), reply)
  {
    if reply.Failed? then AfterReconcile(lock, target, stage, SampleOfError(reply.error))
    else
      match PlanFor(target, reply)
      case Clash => AfterReconcile(lock, target, stage, Hard(AlreadyExistsCode))
      case Absent => AfterReconcile(lock, target, stage, Missing)
      case Keep(canonical, doomed) => Purge(lock, target, stage, canonical, doomed)
  }

  function FirstPoll(): Stage {
    Polling(0, "", 0, INITIAL_DELAY)
  }

  /** The volume as verified by ID, with the requested zone where the provider names none. */
  function Verified(v: Volume, spec: VolumeSpec): Volume {
    v.(zone := Or(v.zone, spec.zone))
  }

  // ---------- the machine ----------

  function CallOf(pc: Pc): Call
    requires !pc.Finished?
  {
    match pc
    case Locking(lock, _) => TryLock(lock)
    case Listing(_, target, _) => ListingCall(target)
    case Purging(_, target, _, _, next, _) => PurgeCall(target, next)
    case Creating(_, VolumeTarget(spec)) => CreateVolume(spec)
    case Creating(_, SnapshotTarget(name, source, zone)) => CreateSnapshot(name, source, zone)
    case Sleeping(_, _, _, delay) => Wait(delay)
    case Verifying(_, _, id) => GetVolume(id)
    case ReadingSource(_, _, source, _) => GetVolume(source)
    case Deleting(_, id) => DeleteVolume(id)
    case Checking(_, id, _, _) => GetVolume(id)
    case Attaching(_, id, node, zone) => AttachVolume(id, node, zone)
    case Rechecking(_, id, _, _) => GetVolume(id)
    case CheckingAttached(_, id, _, _) => GetVolume(id)
    case Detaching(_, id, node, zone) => DetachVolume(id, node, zone)
    case Measuring(_, id, _) => GetVolume(id)
    case Resizing(_, id, wanted, zone) => ResizeVolume(id, wanted, zone)
    case Unlocking(lock, _) => Unlock(lock)
    case Dropping(id, zone) => DeleteSnapshot(id, zone)
  }

  predicate Accepts(pc: Pc, reply: Reply) {
    !pc.Finished? && Answers(CallOf(pc), reply)
  }

  function Step(pc: Pc, reply: Reply): Pc
    requires Accepts(pc, reply)
  {
    match pc
    case Locking(lock, rpc) => if reply.granted then Enter(lock, rpc) else Finished(Refused(Aborted))
    case Unlocking(_, outcome) => Finished(outcome)

    case Listing(lock, target, stage) => AfterListing(lock, target, stage, reply)
    case Purging(lock, target, stage, canonical, _, later) =>
      if SoftDelete(reply) then Purge(lock, target, stage, canonical, later)
      else AfterReconcile(lock, target, stage, Hard(StatusOf(reply.error)))
    case Creating(lock, target) =>
      if reply.Ok? then Listing(lock, target, FirstPoll())
      else if reply.error.AlreadyExists? && target.VolumeTarget? then Listing(lock, target, AfterExists)
      else Fail(lock, reply.error)
    case Sleeping(lock, target, stage, _) =>
      if reply.Ok? then Listing(lock, target, stage) else Fail(lock, reply.error)
    case Verifying(lock, spec, _) =>
      if reply.Failed? then Fail(lock, if reply.error.NotFound? then Unavailable else reply.error)
      else
        var v := Verified(reply.volume, spec);
        Unlocking(lock, if CompatibleVolume(v, spec) then Returned(FoundVolume(v)) else Refused(AlreadyExistsCode))
    case ReadingSource(lock, name, source, fallbackZone) =>
      if reply.Failed? then Fail(lock, reply.error)
      else Listing(lock, SnapshotTarget(name, source, Or(reply.volume.zone, fallbackZone)), BeforeCreate)

    case Deleting(lock, _) =>
      if reply.Ok? || reply.error.NotFound? then Unlocking(lock, Done) else Fail(lock, reply.error)
    case Dropping(_, _) =>
      if reply.Ok? || reply.error.NotFound? then Finished(Done) else Finished(Refused(StatusOf(reply.error)))

    case Checking(lock, id, node, fallbackZone) =>
      if reply.Failed? then Fail(lock, reply.error)
      else if reply.volume.multiattach then Fail(lock, Conflict)
      else
        var (device, elsewhere) := AttachedDevice(reply.volume.attachments, node);
        if device != "" then Unlocking(lock, Published(device))
        else if elsewhere then Fail(lock, Conflict)
        else Attaching(lock, id, node, Or(reply.volume.zone, fallbackZone))
    case Attaching(lock, id, node, _) =>
      if reply.Device? then Unlocking(lock, Published(reply.device)) else Rechecking(lock, id, node, reply.error)
    case Rechecking(lock, _, node, error) =>
      if reply.Failed? then Fail(lock, error)
      else
        var (device, elsewhere) := AttachedDevice(reply.volume.attachments, node);
        if !elsewhere && device != "" then Unlocking(lock, Published(device)) else Fail(lock, error)

    case CheckingAttached(lock, id, node, fallbackZone) =>
      if reply.Failed? then (if reply.error.NotFound? then Unlocking(lock, Done) else Fail(lock, reply.error))
      else if !AttachedTo(reply.volume.attachments, node) then Unlocking(lock, Done)
      else Detaching(lock, id, node, Or(reply.volume.zone, fallbackZone))
    case Detaching(lock, _, _, _) =>
      if reply.Ok? || reply.error.NotFound? then Unlocking(lock, Done) else Fail(lock, reply.error)

    case Measuring(lock, id, wanted) =>
      if reply.Failed? then Fail(lock, reply.error)
      else if reply.volume.size >= wanted then Unlocking(lock, Expanded(reply.volume.size))
      else Resizing(lock, id, wanted, reply.volume.zone)
    case Resizing(lock, _, _, _) =>
      if reply.Failed? then Fail(lock, reply.error) else Unlocking(lock, Expanded(reply.size))
  }

  // ---------- runs of one machine ----------

  datatype Exchange = Exchange(call: Call, reply: Reply)

  /** The log is a possible conversation of a machine that starts at `pc`. */
  predicate Follows(pc: Pc, log: seq<Exchange>)
    decreases |log|
  {
    log == [] ||
    (Accepts(pc, log[0].reply) && log[0].call == CallOf(pc) && Follows(Step(pc, log[0].reply), log[1..]))
  }

  function After(pc: Pc, log: seq<Exchange>): Pc
    requires Follows(pc, log)
    decreases |log|
  {
    if log == [] then pc else After(Step(pc, log[0].reply), log[1..])
  }

  lemma {:induction false} Associate<T>(a: seq<T>, b: seq<T>, c: seq<T>)
    ensures (a + b) + c == a + (b + c)
  {
  }

  lemma {:induction false} FollowsConcat(pc: Pc, a: seq<Exchange>, b: seq<Exchange>)
    requires Follows(pc, a) && Follows(After(pc, a), b)
    ensures Follows(pc, a + b) && After(pc, a + b) == After(After(pc, a), b)
    decreases |a|
  {
    if a == [] {
      assert a + b == b;
    } else {
      var whole := a + b;
      assert whole[0] == a[0] && whole[1..] == a[1..] + b;
      FollowsConcat(Step(pc, a[0].reply), a[1..], b);
    }
  }

  lemma {:induction false} FollowsOne(pc: Pc, reply: Reply)
    requires Accepts(pc, reply)
    ensures var log := [Exchange(CallOf(pc), reply)]; Follows(pc, log) && After(pc, log) == Step(pc, reply)
  {
    var log := [Exchange(CallOf(pc), reply)];
    assert Follows(Step(pc, reply), log[1..]) && After(Step(pc, reply), log[1..]) == Step(pc, reply);
  }

  /** Any conversation can be cut in two. */
  lemma {:induction false} FollowsPrefix(pc: Pc, log: seq<Exchange>, n: nat)
    requires Follows(pc, log) && n <= |log|
    ensures Follows(pc, log[..n]) && Follows(After(pc, log[..n]), log[n..])
    ensures After(After(pc, log[..n]), log[n..]) == After(pc, log)
    decreases n
  {
    if n == 0 {
      assert log[0..] == log;
    } else {
      FollowsPrefix(Step(pc, log[0].reply), log[1..], n - 1);
      assert log[..n][1..] == log[1..][..n - 1] && log[1..][n - 1..] == log[n..];
    }
  }

  lemma {:induction false} LastExchange(pc: Pc, log: seq<Exchange>)
    requires Follows(pc, log) && log != []
    ensures var most := log[..|log| - 1];
            var last := log[|log| - 1];
            && Follows(pc, most)
            && Accepts(After(pc, most), last.reply)
            && last.call == CallOf(After(pc, most))
            && After(pc, log) == Step(After(pc, most), last.reply)
  {
    var n := |log| - 1;
    FollowsPrefix(pc, log, n);
    var tail := log[n..];
    assert tail[0] == log[n] && tail[1..] == [];
  }
}
