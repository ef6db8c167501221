/**
 Agreement: a create returns the lowest ID of its name exactly when the last listing it saw
 showed that ID, on whichever driver and whatever the others delete meanwhile.
 */
module Agreement {
  import opened Ordering
  import opened Cloud
  import opened Reconcile
  import opened Protocol
  import opened System
  import opened Canonical
  import opened Pagination

  /** The request asks for a resource under this key. */
  predicate AsksFor(rpc: Rpc, key: Key) {
    match rpc
    case Create(spec) => key == VolumeKey(spec.name, spec.zone)
    case TakeSnapshot(name, source, _) => key == SnapshotKey(name, source)
    case _ => false
  }

  function KeyRef(key: Key, id: string): Ref {
    if key.VolumeKey? then VolumeRef(id) else SnapshotRef(id)
  }

  predicate Lists(reply: Reply, id: string) {
    match reply
    case VolumeList(vs) => exists v :: v in vs && v.id == id
    case SnapshotList(ss) => exists s :: s in ss && s.id == id
    case _ => true
  }

  /** Listings for the key contain the ID; no other step is restricted. */
  predicate ShowsLowest(s: State, e: Event, key: Key, id: string)
    requires Enabled(s, e)
  {
    e.Progress? && s.tasks[e.task].pc.Listing? && KeyOf(s.tasks[e.task].pc.target) == key ==> Lists(e.reply, id)
  }

  predicate AlwaysShowsLowest(s: State, run: seq<Event>, key: Key, id: string)
    requires Legal(s, run)
    decreases |run|
  {
    run == [] || (ShowsLowest(s, run[0], key, id) && AlwaysShowsLowest(Next(s, run[0]), run[1..], key, id))
  }

  // ---------- an RPC stays with the key it asked for ----------

  predicate OnTrack(pc: Pc, key: Key) {
    match pc
    case Locking(_, rpc) => AsksFor(rpc, key)
    case ReadingSource(_, name, source, _) => key == SnapshotKey(name, source)
    case Listing(_, target, _) => KeyOf(target) == key
    case Creating(_, target) => KeyOf(target) == key
    case Sleeping(_, target, _, _) => KeyOf(target) == key
    case Purging(_, target, _, _, _, _) => KeyOf(target) == key
    case Verifying(_, spec, _) => key == VolumeKey(spec.name, spec.zone)
    case Unlocking(_, _) => true
    case Finished(_) => true
    case _ => false
  }

  ghost predicate AllOnTrack(s: State, key: Key) {
    forall task :: task in s.tasks && AsksFor(s.tasks[task].rpc, key) ==> OnTrack(s.tasks[task].pc, key)
  }

  lemma {:induction false} ReconcileOnTrack(lock: Lock, target: Target, stage: Stage, sample: Sample, key: Key)
    requires KeyOf(target) == key
    ensures OnTrack(AfterReconcile(lock, target, stage, sample), key)
  {
  }

  lemma {:induction false} StepOnTrack(pc: Pc, reply: Reply, key: Key)
    requires Accepts(pc, reply) && OnTrack(pc, key)
    ensures OnTrack(Step(pc, reply), key)
  {
    if pc.Listing? || pc.Purging? {
      forall sample {
        ReconcileOnTrack(pc.lock, pc.target, pc.stage, sample, key);
      }
      var next := Step(pc, reply);
      assert next.Purging? || exists sample :: next == AfterReconcile(pc.lock, pc.target, pc.stage, sample);
    }
  }

  lemma {:induction false} OnTrackFrom(s: State, run: seq<Event>, key: Key)
    requires Legal(s, run) && AllOnTrack(s, key)
    ensures AllOnTrack(Final(s, run), key)
    decreases |run|
  {
    if run != [] {
      var e := run[0];
      if e.Progress? && AsksFor(s.tasks[e.task].rpc, key) {
        StepOnTrack(s.tasks[e.task].pc, e.reply, key);
      }
      OnTrackFrom(Next(s, e), run[1..], key);
    }
  }

  lemma {:induction false} OnTrackAlways(s: State, run: seq<Event>, key: Key)
    requires Initial(s) && Legal(s, run)
    ensures AllOnTrack(Final(s, run), key)
  {
    OnTrackFrom(s, run, key);
  }

  // ---------- what an RPC has settled on, and by which listing ----------

  /** The ID an RPC has settled on; a failed or undecided one has none. */
  function Choice(pc: Pc): Option<string> {
    match pc
    case Purging(_, _, _, canonical, _, _) => Some(canonical.Id())
    case Verifying(_, _, id) => Some(id)
    case Unlocking(_, outcome) => if outcome.Returned? then Some(outcome.resource.Id()) else None
    case Finished(outcome) => if outcome.Returned? then Some(outcome.resource.Id()) else None
    case _ => None
  }

  /** The last reply to a listing of task `a`, or else what was seen before the run. */
  function LastListing(s: State, run: seq<Event>, a: nat, seen: Option<Reply>): Option<Reply>
    requires Legal(s, run)
    decreases |run|
  {
    if run == [] then seen
    else LastListing(Next(s, run[0]), run[1..], a, Seen(s, run[0], a, seen))
  }

  function Seen(s: State, e: Event, a: nat, seen: Option<Reply>): Option<Reply>
    requires Enabled(s, e)
  {
    if e.Progress? && e.task == a && s.tasks[a].pc.Listing? then Some(e.reply) else seen
  }

  predicate TrueListing(p: Provider, reply: Reply) {
    && (reply.VolumeList? ==>
          DistinctKeys(reply.volumes, VolumeId) && forall v :: v in reply.volumes ==> TrueVolume(p, v))
    && (reply.SnapshotList? ==>
          DistinctKeys(reply.snapshots, SnapshotId) && forall s :: s in reply.snapshots ==> TrueSnapshot(p, s))
  }

  /** The reconcile of this listing for a target of the key keeps `id`. */
  ghost predicate PicksFrom(reply: Reply, key: Key, id: string) {
    exists target :: Picks(reply, target, id) && KeyOf(target) == key
  }

  predicate Picks(reply: Reply, target: Target, id: string) {
    && Answers(ListingCall(target), reply) && !reply.Failed?
    && PlanFor(target, reply).Keep? && PlanFor(target, reply).canonical.Id() == id
  }

  /** Whatever the RPC has settled on, its last listing made it. */
  ghost predicate Traced(pc: Pc, last: Option<Reply>, key: Key) {
    && OnTrack(pc, key)
    && (Choice(pc).Some? ==> last.Some? && PicksFrom(last.value, key, Choice(pc).value))
  }

  lemma {:induction false} ReconcileChoice(lock: Lock, target: Target, stage: Stage, sample: Sample)
    ensures var choice := Choice(AfterReconcile(lock, target, stage, sample));
            choice.Some? ==> sample.Found? && choice.value == sample.resource.Id()
  {
  }

  lemma {:induction false} ListingChoice(lock: Lock, target: Target, stage: Stage, reply: Reply)
    requires Answers(ListingCall(target), reply)
    ensures var choice := Choice(AfterListing(lock, target, stage, reply));
            choice.Some? ==> Picks(reply, target, choice.value)
  {
    if reply.Failed? {
      ReconcileChoice(lock, target, stage, SampleOfError(reply.error));
    } else {
      match PlanFor(target, reply)
      case Clash => ReconcileChoice(lock, target, stage, Hard(AlreadyExistsCode));
      case Absent => ReconcileChoice(lock, target, stage, Missing);
      case Keep(canonical, doomed) => ReconcileChoice(lock, target, stage, Found(canonical));
    }
  }

  /** A choice comes from a listing, and after that only a delete, a verification or the unlock can follow. */
  lemma {:induction false} StepChoice(p: Provider, pc: Pc, reply: Reply)
    requires Accepts(pc, reply) && Honest(p, CallOf(pc), reply)
    ensures pc.Listing? && Choice(Step(pc, reply)).Some? ==> Picks(reply, pc.target, Choice(Step(pc, reply)).value)
    ensures !pc.Listing? && Choice(Step(pc, reply)).Some? ==> Choice(pc) == Choice(Step(pc, reply))
  {
    match pc
    case Listing(lock, target, stage) => ListingChoice(lock, target, stage, reply);
    case Purging(lock, target, stage, canonical, _, later) =>
      ReconcileChoice(lock, target, stage, if SoftDelete(reply) then Found(canonical) else Hard(StatusOf(reply.error)));
    case _ =>
  }

  lemma {:induction false} StepTraced(p: Provider, pc: Pc, reply: Reply, last: Option<Reply>, key: Key)
    requires Accepts(pc, reply) && Honest(p, CallOf(pc), reply) && Traced(pc, last, key)
    ensures Traced(Step(pc, reply), if pc.Listing? then Some(reply) else last, key)
  {
    StepOnTrack(pc, reply, key);
    StepChoice(p, pc, reply);
  }

  lemma {:induction false} TrueListingGrows(p: Provider, p': Provider, reply: Reply)
    requires TrueListing(p, reply) && Grows(p, p')
    ensures TrueListing(p', reply)
  {
    if reply.VolumeList? {
      forall v | v in reply.volumes ensures TrueVolume(p', v) {
        assert TrueVolume(p, v);
      }
    }
    if reply.SnapshotList? {
      forall s | s in reply.snapshots ensures TrueSnapshot(p', s) {
        assert TrueSnapshot(p, s);
      }
    }
  }

  ghost predicate TracedTask(s: State, a: nat, key: Key, seen: Option<Reply>) {
    && (a in s.tasks && AsksFor(s.tasks[a].rpc, key) ==> Traced(s.tasks[a].pc, seen, key))
    && (seen.Some? ==> TrueListing(s.provider, seen.value))
  }

  lemma {:induction false} NextTraced(s: State, e: Event, a: nat, key: Key, seen: Option<Reply>)
    requires Enabled(s, e) && TracedTask(s, a, key, seen)
    ensures TracedTask(Next(s, e), a, key, Seen(s, e, a, seen))
  {
    if e.Progress? {
      var pc := s.tasks[e.task].pc;
      EverGrows(s.provider, CallOf(pc), e.reply, e.effect);
      if seen.Some? {
        TrueListingGrows(s.provider, Next(s, e).provider, seen.value);
      }
      if e.task == a {
        if pc.Listing? {
          TrueListingGrows(s.provider, Next(s, e).provider, e.reply);
        }
        if AsksFor(s.tasks[a].rpc, key) {
          StepTraced(s.provider, pc, e.reply, seen, key);
        }
      }
    }
  }

  lemma {:induction false} RunTraced(s: State, run: seq<Event>, a: nat, key: Key, seen: Option<Reply>)
    requires Legal(s, run) && TracedTask(s, a, key, seen)
    ensures TracedTask(Final(s, run), a, key, LastListing(s, run, a, seen))
    decreases |run|
  {
    if run != [] {
      NextTraced(s, run[0], a, key, seen);
      RunTraced(Next(s, run[0]), run[1..], a, key, Seen(s, run[0], a, seen));
    }
  }

  // ---------- the theorems ----------

  /** The reconcile of a listing that shows the lowest ID keeps that ID. */
  lemma {:induction false} PlanKeepsLowest(p: Provider, target: Target, reply: Reply, id: string)
    requires Answers(ListingCall(target), reply) && !reply.Failed?
    requires Honest(p, ListingCall(target), reply) && Lists(reply, id)
    requires Known(p, target, id) && Lowest(p.ever, RefOf(target, id))
    ensures var plan := PlanFor(target, reply); plan.Keep? ==> plan.canonical.Id() == id
  {
    var plan := PlanFor(target, reply);
    PlanIsSafe(p, target, reply);
    if plan.Keep? {
      match target {
        case VolumeTarget(spec) =>
          PlanVolumesMeaning(reply.volumes, spec);
          PlanOfDistinctVolumes(reply.volumes, spec);
          var v :| v in reply.volumes && v.id == id;
          assert TrueVolume(p, v);
        case SnapshotTarget(name, source, zone) =>
          PlanSnapshotsMeaning(reply.snapshots, name, source, zone);
          PlanOfDistinctSnapshots(reply.snapshots, name, source, zone);
          var s :| s in reply.snapshots && s.id == id;
          assert TrueSnapshot(p, s);
      }
      assert Leq(plan.canonical.Id(), id);
      assert Siblings(p.ever, RefOf(target, id), RefOf(target, plan.canonical.Id()));
      LeqAntisymmetric(plan.canonical.Id(), id);
    }
  }

  /** A listing leads to the lowest ID exactly if it shows it. */
  lemma {:induction false} PickIsLowestIff(p: Provider, reply: Reply, key: Key, id: string, low: string)
    requires PicksFrom(reply, key, id) && TrueListing(p, reply)
    requires KeyRef(key, low) in p.ever && p.ever[KeyRef(key, low)] == key && Lowest(p.ever, KeyRef(key, low))
    ensures id == low <==> Lists(reply, low)
  {
    var target :| Picks(reply, target, id) && KeyOf(target) == key;
    assert Honest(p, ListingCall(target), reply);
    if Lists(reply, low) {
      PlanKeepsLowest(p, target, reply, low);
    }
    match target
    case VolumeTarget(spec) => PlanVolumesMeaning(reply.volumes, spec);
    case SnapshotTarget(name, source, zone) => PlanSnapshotsMeaning(reply.snapshots, name, source, zone);
  }

  /** The RPC has come back with a resource of the key. */
  predicate Returns(s: State, a: nat, key: Key) {
    && a in s.tasks && AsksFor(s.tasks[a].rpc, key)
    && s.tasks[a].pc.Finished? && s.tasks[a].pc.outcome.Returned?
  }

  function ReturnedId(s: State, a: nat, key: Key): string
    requires Returns(s, a, key)
  {
    s.tasks[a].pc.outcome.resource.Id()
  }

  /**
   In every run, a create that succeeds returns the lowest ID ever created under its name if and
   only if the last listing it saw showed that ID.  Nothing else matters: no other listing, no
   other driver, no deletion.
   */
  lemma {:induction false} ReturnsLowestIff(s: State, run: seq<Event>, key: Key, low: string, a: nat)
    requires Initial(s) && Legal(s, run) && Returns(Final(s, run), a, key)
    requires var ever := Final(s, run).provider.ever;
             KeyRef(key, low) in ever && ever[KeyRef(key, low)] == key && Lowest(ever, KeyRef(key, low))
    ensures var last := LastListing(s, run, a, None);
            last.Some? && (ReturnedId(Final(s, run), a, key) == low <==> Lists(last.value, low))
  {
    RunTraced(s, run, a, key, None);
    var last := LastListing(s, run, a, None);
    PickIsLowestIff(Final(s, run).provider, last.value, key, ReturnedId(Final(s, run), a, key), low);
  }

  // ---------- when listings show the lowest ID from some point on ----------

  lemma {:induction false} RunGrows(s: State, run: seq<Event>)
    requires Legal(s, run)
    ensures Grows(s.provider, Final(s, run).provider)
    decreases |run|
  {
    if run != [] {
      if run[0].Progress? {
        EverGrows(s.provider, CallOf(s.tasks[run[0].task].pc), run[0].reply, run[0].effect);
      }
      RunGrows(Next(s, run[0]), run[1..]);
    }
  }

  lemma {:induction false} LastListingSplit(s: State, run: seq<Event>, more: seq<Event>, a: nat, seen: Option<Reply>)
    requires Legal(s, run) && Legal(Final(s, run), more)
    ensures Legal(s, run + more) && Final(s, run + more) == Final(Final(s, run), more)
    ensures LastListing(s, run + more, a, seen) == LastListing(Final(s, run), more, a, LastListing(s, run, a, seen))
    decreases |run|
  {
    if run == [] {
      assert run + more == more;
    } else {
      LastListingSplit(Next(s, run[0]), run[1..], more, a, Seen(s, run[0], a, seen));
      var whole := run + more;
      assert whole[0] == run[0] && whole[1..] == run[1..] + more;
    }
  }

  /** The RPC has not settled, or has done so by a listing that showed the ID. */
  predicate Informed(s: State, a: nat, key: Key, id: string, seen: Option<Reply>) {
    a in s.tasks && AsksFor(s.tasks[a].rpc, key) ==>
      OnTrack(s.tasks[a].pc, key) && (Choice(s.tasks[a].pc).None? || (seen.Some? && Lists(seen.value, id)))
  }

  lemma {:induction false} StaysInformed(s: State, run: seq<Event>, a: nat, key: Key, id: string, seen: Option<Reply>)
    requires Legal(s, run) && AlwaysShowsLowest(s, run, key, id) && Informed(s, a, key, id, seen)
    ensures Informed(Final(s, run), a, key, id, LastListing(s, run, a, seen))
    decreases |run|
  {
    if run != [] {
      var e := run[0];
      if e.Progress? && e.task == a && AsksFor(s.tasks[a].rpc, key) {
        StepOnTrack(s.tasks[a].pc, e.reply, key);
        StepChoice(s.provider, s.tasks[a].pc, e.reply);
      }
      StaysInformed(Next(s, e), run[1..], a, key, id, Seen(s, e, a, seen));
    }
  }

  /**
   So, from any reachable state on, as long as every listing under `key` shows its lowest ID,
   every create under that key that had not settled before returns that ID or fails.
   */
  lemma {:induction false} CreatesAgree(s0: State, run: seq<Event>, more: seq<Event>, key: Key, id: string, a: nat)
    requires Initial(s0) && Legal(s0, run) && Legal(Final(s0, run), more)
    requires AlwaysShowsLowest(Final(s0, run), more, key, id)
    requires var ever := Final(Final(s0, run), more).provider.ever;
             KeyRef(key, id) in ever && ever[KeyRef(key, id)] == key && Lowest(ever, KeyRef(key, id))
    requires a in Final(s0, run).tasks ==> Choice(Final(s0, run).tasks[a].pc).None?
    ensures var end := Final(Final(s0, run), more);
            Returns(end, a, key) ==> ReturnedId(end, a, key) == id
  {
    var s := Final(s0, run);
    if Returns(Final(s, more), a, key) {
      OnTrackAlways(s0, run, key);
      StaysInformed(s, more, a, key, id, LastListing(s0, run, a, None));
      LastListingSplit(s0, run, more, a, None);
      ReturnsLowestIff(s0, run + more, key, id, a);
    }
  }
}
