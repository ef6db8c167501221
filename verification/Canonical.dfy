/**
 Safety of the clean-up: in every interleaving of any number of drivers, with listings as stale
 and partial as the provider likes, a reconcile never deletes the lowest ID ever created for
 its name.
 */
module Canonical {
  import opened Ordering
  import opened Cloud
  import opened Reconcile
  import opened Identifiers
  import opened Protocol
  import opened System

  /** Created under one name and zone (volumes), or one name and source (snapshots). */
  predicate Siblings(ever: map<Ref, Key>, a: Ref, b: Ref) {
    a in ever && b in ever && a.VolumeRef? == b.VolumeRef? && ever[a] == ever[b]
  }

  ghost predicate Lowest(ever: map<Ref, Key>, ref: Ref) {
    ref in ever && forall other :: Siblings(ever, ref, other) ==> Leq(ref.id, other.id)
  }

  /** Some RPC asked for this very resource to be deleted. */
  predicate AsksToDelete(rpc: Rpc, ref: Ref) {
    match rpc
    case Delete(id) => id != "" && ref == VolumeRef(id)
    case DropSnapshot(csiId, fallbackZone) => csiId != "" && ref == SnapshotRef(DecodeSnapshotId(csiId, fallbackZone).0)
    case _ => false
  }

  predicate Asked(s: State, ref: Ref) {
    exists task :: task in s.tasks && AsksToDelete(s.tasks[task].rpc, ref)
  }

  // ---------- the invariant ----------

  predicate Known(p: Provider, target: Target, id: string) {
    RefOf(target, id) in p.ever && p.ever[RefOf(target, id)] == KeyOf(target)
  }

  predicate Beaten(p: Provider, target: Target, canonical: string, id: string) {
    Known(p, target, id) && Less(canonical, id)
  }

  predicate TaskInv(p: Provider, t: Task) {
    match t.pc
    case Locking(_, rpc) => rpc == t.rpc && (rpc.Delete? ==> rpc.id != "")
    case Purging(_, target, _, canonical, next, later) =>
      && Known(p, target, canonical.Id())
      && Beaten(p, target, canonical.Id(), next)
      && forall d :: d in later ==> Beaten(p, target, canonical.Id(), d)
    case Deleting(_, id) => AsksToDelete(t.rpc, VolumeRef(id))
    case Dropping(id, _) => AsksToDelete(t.rpc, SnapshotRef(id))
    case _ => true
  }

  predicate Overruled(ever: map<Ref, Key>, ref: Ref) {
    exists low :: low in ever && Siblings(ever, ref, low) && Less(low.id, ref.id)
  }

  ghost predicate CleanupInv(s: State) {
    && (forall task :: task in s.tasks ==> TaskInv(s.provider, s.tasks[task]))
    && (forall ref :: ref in s.provider.ever ==>
          ref in s.provider.live || Asked(s, ref) || Overruled(s.provider.ever, ref))
  }

  // ---------- one step ----------

  predicate Grows(p: Provider, p': Provider) {
    forall ref :: ref in p.ever ==> ref in p'.ever && p'.ever[ref] == p.ever[ref]
  }

  lemma {:induction false} EverGrows(p: Provider, call: Call, reply: Reply, effect: Effect)
    requires Permits(p, call, reply, effect)
    ensures Grows(p, Apply(p, call, reply, effect))
  {
  }

  lemma {:induction false} TaskInvGrows(p: Provider, p': Provider, t: Task)
    requires TaskInv(p, t) && Grows(p, p')
    ensures TaskInv(p', t)
  {
    if t.pc.Purging? {
      forall d | d in t.pc.later ensures Beaten(p', t.pc.target, t.pc.canonical.Id(), d) {
        assert Beaten(p, t.pc.target, t.pc.canonical.Id(), d);
      }
    }
  }

  /** The IDs a listing dooms were all created under the target's name, above the canonical one. */
  lemma {:induction false} PlanIsSafe(p: Provider, target: Target, reply: Reply)
    requires Answers(ListingCall(target), reply) && !reply.Failed?
    requires Honest(p, ListingCall(target), reply)
    ensures var plan := PlanFor(target, reply);
            plan.Keep? ==>
              && Known(p, target, plan.canonical.Id())
              && forall d :: d in plan.doomed ==> Beaten(p, target, plan.canonical.Id(), d)
  {
    var plan := PlanFor(target, reply);
    match target
    case VolumeTarget(spec) =>
      PlanVolumesMeaning(reply.volumes, spec);
      PlanOfDistinctVolumes(reply.volumes, spec);
      if plan.Keep? {
        forall d | d in plan.doomed ensures Beaten(p, target, plan.canonical.Id(), d) {
          assert Orphan(reply.volumes, spec.name, plan.canonical.Id(), d);
          var v :| v in reply.volumes && v.name == spec.name && v.id == d;
          assert TrueVolume(p, v) && CompatibleVolume(v, spec);
        }
      }
    case SnapshotTarget(name, source, zone) =>
      PlanSnapshotsMeaning(reply.snapshots, name, source, zone);
      PlanOfDistinctSnapshots(reply.snapshots, name, source, zone);
      if plan.Keep? {
        forall d | d in plan.doomed ensures Beaten(p, target, plan.canonical.Id(), d) {
          assert NamedSnapshot(reply.snapshots, name, d);
          var s :| s in reply.snapshots && s.name == name && s.id == d;
          assert TrueSnapshot(p, s);
        }
      }
  }

  lemma {:induction false} ListingKeepsTaskInv(p: Provider, t: Task, reply: Reply)
    requires t.pc.Listing? && Accepts(t.pc, reply) && Honest(p, CallOf(t.pc), reply)
    ensures TaskInv(p, t.(pc := AfterListing(t.pc.lock, t.pc.target, t.pc.stage, reply)))
  {
    if !reply.Failed? {
      PlanIsSafe(p, t.pc.target, reply);
      var plan := PlanFor(t.pc.target, reply);
      if plan.Keep? && plan.doomed != [] {
        assert plan.doomed[0] in plan.doomed;
      }
    }
  }

  lemma {:induction false} StepKeepsTaskInv(p: Provider, t: Task, reply: Reply)
    requires TaskInv(p, t) && Accepts(t.pc, reply) && Honest(p, CallOf(t.pc), reply)
    ensures TaskInv(p, t.(pc := Step(t.pc, reply)))
  {
    match t.pc
    case Listing(_, _, _) => ListingKeepsTaskInv(p, t, reply);
    case Purging(lock, target, stage, canonical, next, later) =>
      if later != [] {
        assert later[0] in later;
      }
    case _ =>
  }

  lemma {:induction false} BeginKeepsTaskInv(p: Provider, driver: nat, rpc: Rpc)
    ensures TaskInv(p, Task(driver, rpc, Begin(rpc)))
  {
  }

  lemma {:induction false} AskedStays(s: State, e: Event, ref: Ref)
    requires Enabled(s, e) && Asked(s, ref)
    ensures Asked(Next(s, e), ref)
  {
    var task :| task in s.tasks && AsksToDelete(s.tasks[task].rpc, ref);
    assert AsksToDelete(Next(s, e).tasks[task].rpc, ref);
  }

  /** Whatever stops being live was asked for, or has a lower sibling. */
  lemma {:induction false} RemovalIsJustified(s: State, e: Event, ref: Ref)
    requires CleanupInv(s) && Enabled(s, e)
    requires ref in s.provider.live && ref !in Next(s, e).provider.live && ref in s.provider.ever
    ensures Asked(s, ref) || Overruled(s.provider.ever, ref)
  {
    var t := s.tasks[e.task];
    assert TaskInv(s.provider, t);
    assert e.effect.Removal?;
    match t.pc
    case Purging(_, target, _, canonical, next, _) =>
      assert ref == RefOf(target, next);
      var low := RefOf(target, canonical.Id());
      assert low in s.provider.ever && Siblings(s.provider.ever, ref, low);
    case Deleting(_, id) => assert AsksToDelete(s.tasks[e.task].rpc, ref);
    case Dropping(id, _) => assert AsksToDelete(s.tasks[e.task].rpc, ref);
  }

  lemma {:induction false} OverruledStays(p: Provider, p': Provider, ref: Ref)
    requires Grows(p, p') && Overruled(p.ever, ref)
    ensures Overruled(p'.ever, ref)
  {
    var low :| low in p.ever && Siblings(p.ever, ref, low) && Less(low.id, ref.id);
    assert low in p'.ever && Siblings(p'.ever, ref, low);
  }

  lemma {:induction false} StepKeepsCleanup(s: State, e: Event)
    requires CleanupInv(s) && Enabled(s, e)
    ensures CleanupInv(Next(s, e))
    ensures Grows(s.provider, Next(s, e).provider)
  {
    var s' := Next(s, e);
    if e.Progress? {
      var t := s.tasks[e.task];
      EverGrows(s.provider, CallOf(t.pc), e.reply, e.effect);
      StepKeepsTaskInv(s.provider, t, e.reply);
    }
    forall task | task in s'.tasks ensures TaskInv(s'.provider, s'.tasks[task]) {
      if e.Arrival? && task == e.task {
        BeginKeepsTaskInv(s'.provider, e.driver, e.rpc);
      } else if e.Progress? && task == e.task {
        TaskInvGrows(s.provider, s'.provider, s.tasks[task].(pc := Step(s.tasks[task].pc, e.reply)));
      } else {
        TaskInvGrows(s.provider, s'.provider, s.tasks[task]);
      }
    }
    forall ref | ref in s'.provider.ever && ref !in s'.provider.live
      ensures Asked(s', ref) || Overruled(s'.provider.ever, ref)
    {
      assert ref in s.provider.ever;
      if ref in s.provider.live {
        RemovalIsJustified(s, e, ref);
      }
      if Asked(s, ref) {
        AskedStays(s, e, ref);
      } else {
        OverruledStays(s.provider, s'.provider, ref);
      }
    }
  }

  lemma {:induction false} CleanupAlways(s: State, run: seq<Event>)
    requires CleanupInv(s) && Legal(s, run)
    ensures CleanupInv(Final(s, run)) && Grows(s.provider, Final(s, run).provider)
    decreases |run|
  {
    if run != [] {
      StepKeepsCleanup(s, run[0]);
      CleanupAlways(Next(s, run[0]), run[1..]);
    }
  }

  // ---------- the theorems ----------

  /**
   In every run, the lowest ID ever created for a name and zone (for a snapshot: name and
   source) is still there, unless a delete request named it.
   */
  lemma {:induction false} LowestSurvives(s: State, run: seq<Event>, ref: Ref)
    requires Initial(s) && Legal(s, run)
    requires Lowest(Final(s, run).provider.ever, ref)
    ensures ref in Final(s, run).provider.live || Asked(Final(s, run), ref)
  {
    CleanupAlways(s, run);
    var end := Final(s, run);
    if Overruled(end.provider.ever, ref) {
      var low :| low in end.provider.ever && Siblings(end.provider.ever, ref, low) && Less(low.id, ref.id);
      LeqAntisymmetric(low.id, ref.id);
    }
  }

  lemma {:induction false} LowestExists(ever: map<Ref, Key>, ref: Ref) returns (low: Ref)
    requires ref in ever
    ensures Siblings(ever, ref, low) && Lowest(ever, low)
    decreases set r | r in ever && Siblings(ever, ref, r) && Less(r.id, ref.id)
  {
    var below := set r | r in ever && Siblings(ever, ref, r) && Less(r.id, ref.id);
    if below == {} {
      low := ref;
      forall other | Siblings(ever, ref, other) ensures Leq(ref.id, other.id) {
        assert other !in below;
        LeqTotal(ref.id, other.id);
      }
    } else {
      var lower :| lower in below;
      var further := set r | r in ever && Siblings(ever, lower, r) && Less(r.id, lower.id);
      forall r | r in further ensures r in below {
        LessTransitive(r.id, lower.id, ref.id);
      }
      assert lower !in further;
      low := LowestExists(ever, lower);
    }
  }

  /**
   Once a name has a resource it has one at every later time at which nobody has asked for its
   lowest one to be deleted; deleting higher duplicates never leaves it empty.
   */
  lemma {:induction false} NameStaysPopulated(s: State, run: seq<Event>, more: seq<Event>, ref: Ref, low: Ref)
    requires Initial(s) && Legal(s, run) && Legal(Final(s, run), more)
    requires ref in Final(s, run).provider.ever
    requires var end := Final(Final(s, run), more);
             Siblings(end.provider.ever, ref, low) && Lowest(end.provider.ever, low) && !Asked(end, low)
    ensures var end := Final(Final(s, run), more);
            exists r :: r in end.provider.live && Siblings(end.provider.ever, ref, r)
  {
    RunConcat(s, run, more);
    LowestSurvives(s, run + more, low);
  }

  lemma {:induction false} RunConcat(s: State, run: seq<Event>, more: seq<Event>)
    requires Legal(s, run) && Legal(Final(s, run), more)
    ensures Legal(s, run + more) && Final(s, run + more) == Final(Final(s, run), more)
    decreases |run|
  {
    if run == [] {
      assert run + more == more;
    } else {
      RunConcat(Next(s, run[0]), run[1..], more);
      var whole := run + more;
      assert whole[0] == run[0] && whole[1..] == run[1..] + more;
    }
  }
}
