/**
 Any number of drivers, each with its own lock tables, run any number of RPCs at one provider;
 every call of every RPC is one step, in any order.  The provider is permissive: it creates
 namesakes, lists what it likes of what was ever created, and may carry out a call and still
 report an error.
 */
module System {
  import opened Ordering
  import opened Cloud
  import opened Reconcile
  import opened Protocol

  datatype Ref = VolumeRef(id: string) | SnapshotRef(id: string)

  datatype Provider = Provider(
    ever: map<Ref, Key>,                         // everything ever created
    live: set<Ref>,                              // what has not been deleted
    attached: map<string, seq<Attachment>>)      // the true attachments, by volume ID

  datatype Task = Task(driver: nat, rpc: Rpc, pc: Pc)

  datatype State = State(provider: Provider, held: set<(nat, Lock)>, tasks: map<nat, Task>)

  datatype Effect =
    | Nothing
    | Creation(id: string)
    | Removal
    | Attaches(device: string)
    | Detaches

  datatype Event =
    | Arrival(task: nat, driver: nat, rpc: Rpc)
    | Progress(task: nat, reply: Reply, effect: Effect)

  function RefOf(target: Target, id: string): Ref {
    match target
    case VolumeTarget(_) => VolumeRef(id)
    case SnapshotTarget(_, _, _) => SnapshotRef(id)
  }

  function AttachmentsOf(p: Provider, id: string): seq<Attachment> {
    if id in p.attached then p.attached[id] else []
  }

  /** What the provider reports of a resource's identity is true; all else may be stale or wrong. */
  predicate TrueVolume(p: Provider, v: Volume) {
    VolumeRef(v.id) in p.ever && p.ever[VolumeRef(v.id)] == VolumeKey(v.name, v.zone)
  }

  predicate TrueSnapshot(p: Provider, s: Snapshot) {
    SnapshotRef(s.id) in p.ever && p.ever[SnapshotRef(s.id)] == SnapshotKey(s.name, s.volumeId)
  }

  predicate Honest(p: Provider, call: Call, reply: Reply) {
    && (reply.VolumeList? ==>
          DistinctKeys(reply.volumes, VolumeId) && forall v :: v in reply.volumes ==> TrueVolume(p, v))
    && (reply.SnapshotList? ==>
          DistinctKeys(reply.snapshots, SnapshotId) && forall s :: s in reply.snapshots ==> TrueSnapshot(p, s))
    && (reply.OneVolume? && call.GetVolume? ==> reply.volume.id == call.id)
  }

  /** A new resource has an ID never used before; otherwise any call may or may not take effect. */
  predicate CanHappen(p: Provider, call: Call, reply: Reply, effect: Effect) {
    match effect
    case Nothing => true
    case Creation(id) =>
      || (call.CreateVolume? && VolumeRef(id) !in p.ever)
      || (call.CreateSnapshot? && SnapshotRef(id) !in p.ever)
    case Removal => call.DeleteVolume? || call.DeleteSnapshot?
    case Attaches(device) =>
      call.AttachVolume? && VolumeRef(call.id) in p.live && (reply.Device? ==> reply.device == device)
    case Detaches => call.DetachVolume?
  }

  predicate Permits(p: Provider, call: Call, reply: Reply, effect: Effect) {
    Honest(p, call, reply) && CanHappen(p, call, reply, effect)
  }

  function CreatedRef(call: Call, id: string): Ref {
    if call.CreateSnapshot? then SnapshotRef(id) else VolumeRef(id)
  }

  function CreatedKey(call: Call): Key {
    match call
    case CreateVolume(spec) => VolumeKey(spec.name, spec.zone)
    case CreateSnapshot(name, source, _) => SnapshotKey(name, source)
    case _ => VolumeKey("", "")
  }

  function Apply(p: Provider, call: Call, reply: Reply, effect: Effect): Provider
    requires Permits(p, call, reply, effect)
  {
    match effect
    case Nothing => p
    case Creation(id) =>
      var ref := CreatedRef(call, id);
      p.(ever := p.ever[ref := CreatedKey(call)], live := p.live + {ref})
    case Removal =>
      if call.DeleteVolume? then p.(live := p.live - {VolumeRef(call.id)}, attached := p.attached - {call.id})
      else p.(live := p.live - {SnapshotRef(call.id)})
    case Attaches(device) =>
      p.(attached := p.attached[call.id := AttachmentsOf(p, call.id) + [Attachment(call.node, device)]])
    case Detaches =>
      p.(attached := p.attached[call.id := WithoutNode(AttachmentsOf(p, call.id), call.node)])
  }

  // ---------- steps ----------

  predicate Enabled(s: State, e: Event) {
    match e
    case Arrival(task, _, _) => task !in s.tasks
    case Progress(task, reply, effect) =>
      task in s.tasks &&
      var Task(driver, _, pc) := s.tasks[task];
      && Accepts(pc, reply)
      && Permits(s.provider, CallOf(pc), reply, effect)
      && (pc.Locking? ==> (reply.granted <==> (driver, pc.lock) !in s.held))
  }

  function HeldAfter(held: set<(nat, Lock)>, driver: nat, pc: Pc, reply: Reply): set<(nat, Lock)>
    requires Accepts(pc, reply)
  {
    if pc.Locking? && reply.granted then held + {(driver, pc.lock)}
    else if pc.Unlocking? then held - {(driver, pc.lock)}
    else held
  }

  function Next(s: State, e: Event): State
    requires Enabled(s, e)
  {
    match e
    case Arrival(task, driver, rpc) => s.(tasks := s.tasks[task := Task(driver, rpc, Begin(rpc))])
    case Progress(task, reply, effect) =>
      var t := s.tasks[task];
      State(
        Apply(s.provider, CallOf(t.pc), reply, effect),
        HeldAfter(s.held, t.driver, t.pc, reply),
        s.tasks[task := t.(pc := Step(t.pc, reply))])
  }

  predicate Legal(s: State, run: seq<Event>)
    decreases |run|
  {
    run == [] || (Enabled(s, run[0]) && Legal(Next(s, run[0]), run[1..]))
  }

  function Final(s: State, run: seq<Event>): State
    requires Legal(s, run)
    decreases |run|
  {
    if run == [] then s else Final(Next(s, run[0]), run[1..])
  }

  /** No RPC yet, and nothing deleted yet. */
  predicate Initial(s: State) {
    s.held == {} && s.tasks == map[] && s.provider.live == s.provider.ever.Keys
  }

  /** Every RPC in flight has arrived with its request. */
  lemma {:induction false} TasksHaveArrived(s: State, run: seq<Event>, task: nat)
    requires Legal(s, run) && task in Final(s, run).tasks
    ensures (task in s.tasks && s.tasks[task].rpc == Final(s, run).tasks[task].rpc)
            || exists e :: e in run && e.Arrival? && e.rpc == Final(s, run).tasks[task].rpc
    decreases |run|
  {
    if run != [] {
      TasksHaveArrived(Next(s, run[0]), run[1..], task);
      assert run == [run[0]] + run[1..];
      assert run[0] in run;
    }
  }

  // ---------- a machine keeps its lock ----------

  /** Between TryLock and unlock. */
  predicate Holding(pc: Pc) {
    !pc.Locking? && !pc.Finished? && !pc.Dropping?
  }

  lemma {:induction false} StepKeepsLock(pc: Pc, reply: Reply)
    requires Accepts(pc, reply)
    ensures Holding(pc) && !pc.Unlocking? ==> Holding(Step(pc, reply)) && Step(pc, reply).lock == pc.lock
    ensures pc.Unlocking? || pc.Dropping? ==> Step(pc, reply).Finished?
    ensures pc.Locking? && !reply.granted ==> Step(pc, reply).Finished?
    ensures pc.Locking? && reply.granted ==> Holding(Step(pc, reply)) && Step(pc, reply).lock == pc.lock
  {
    match pc
    case Locking(lock, rpc) =>
    case Listing(lock, target, stage) => ReconcileKeepsLock(lock, target, stage, reply);
    case Purging(lock, target, stage, c, next, later) =>
    case Creating(lock, target) =>
    case Verifying(lock, spec, id) =>
    case _ =>
  }

  lemma {:induction false} ReconcileKeepsLock(lock: Lock, target: Target, stage: Stage, reply: Reply)
    requires Answers(ListingCall(target), reply)
    ensures Holding(AfterListing(lock, target, stage, reply)) && AfterListing(lock, target, stage, reply).lock == lock
  {
  }
}
