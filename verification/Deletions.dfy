/**
 Everything one reconcile says to the provider after its listing: on a conflict nothing at
 all, and otherwise exactly the deletes its listing calls for, each once and in order, up to
 the first one that fails for good.
 */
module Deletions {
  import opened Ordering
  import opened Cloud
  import opened Reconcile
  import opened Protocol

  predicate AllSoft(log: seq<Exchange>) {
    forall i :: 0 <= i < |log| ==> SoftDelete(log[i].reply)
  }

  /** The log consists of one delete for each ID, in order. */
  predicate Deletes(target: Target, ids: seq<string>, log: seq<Exchange>) {
    |log| == |ids| && forall i :: 0 <= i < |log| ==> log[i].call == PurgeCall(target, ids[i])
  }

  /** As long as deletes are soft, the next call is the delete of the next doomed ID. */
  lemma {:induction false} PurgeConversation(lock: Lock, target: Target, stage: Stage, canonical: Resource,
        doomed: seq<string>, log: seq<Exchange>)
    requires Follows(Purge(lock, target, stage, canonical, doomed), log)
    requires |log| <= |doomed| && AllSoft(log)
    ensures Deletes(target, doomed[..|log|], log)
    ensures After(Purge(lock, target, stage, canonical, doomed), log) ==
      Purge(lock, target, stage, canonical, doomed[|log|..])
    decreases |log|
  {
    if log == [] {
      assert doomed[0..] == doomed;
    } else {
      PurgeConversation(lock, target, stage, canonical, doomed[1..], log[1..]);
      assert doomed[|log|..] == doomed[1..][|log[1..]|..];
      forall i | 0 <= i < |log| ensures log[i].call == PurgeCall(target, doomed[i]) {
        if i > 0 {
          assert log[1..][i - 1] == log[i];
        }
      }
    }
  }

  /** After a conflict the RPC only releases its lock, and it answers "already exists". */
  lemma {:induction false} RefusalIsFinal(lock: Lock, code: Code, log: seq<Exchange>)
    requires Follows(Unlocking(lock, Refused(code)), log)
    ensures |log| <= 1
    ensures forall i :: 0 <= i < |log| ==> log[i].call == Unlock(lock)
    ensures |log| == 1 ==> After(Unlocking(lock, Refused(code)), log) == Finished(Refused(code))
  {
    if log != [] {
      var rest := log[1..];
      assert Follows(Finished(Refused(code)), rest);
      assert rest == [];
    }
  }

  /** What follows a listing whose plan is to keep `canonical`. */
  ghost predicate PurgedExactly(lock: Lock, target: Target, stage: Stage, canonical: Resource, doomed: seq<string>,
        log: seq<Exchange>)
    requires Follows(Purge(lock, target, stage, canonical, doomed), log)
  {
    var pc := Purge(lock, target, stage, canonical, doomed);
    // deletes come in order, nothing else in between
    && (forall n :: 0 <= n <= |log| && n <= |doomed| && AllSoft(log[..n]) ==> Deletes(target, doomed[..n], log[..n]))
    // all of them soft: the reconcile returns the canonical resource
    && (|doomed| <= |log| && AllSoft(log[..|doomed|]) ==>
          && Follows(pc, log[..|doomed|])
          && After(pc, log[..|doomed|]) == AfterReconcile(lock, target, stage, Found(canonical)))
    // one that fails for good: the reconcile stops there with its status
    && (forall n :: 0 <= n < |log| && n < |doomed| && AllSoft(log[..n]) && !SoftDelete(log[n].reply) ==>
          && log[n].call == PurgeCall(target, doomed[n])
          && log[n].reply.Failed?
          && Follows(pc, log[..n + 1])
          && After(pc, log[..n + 1]) == AfterReconcile(lock, target, stage, Hard(StatusOf(log[n].reply.error))))
  }

  lemma {:induction false} PurgeIsExact(lock: Lock, target: Target, stage: Stage, canonical: Resource,
        doomed: seq<string>, log: seq<Exchange>)
    requires Follows(Purge(lock, target, stage, canonical, doomed), log)
    ensures PurgedExactly(lock, target, stage, canonical, doomed, log)
  {
    var pc := Purge(lock, target, stage, canonical, doomed);
    forall n | 0 <= n <= |log| && n <= |doomed| && AllSoft(log[..n])
      ensures Deletes(target, doomed[..n], log[..n])
      ensures Follows(pc, log[..n])
      ensures After(pc, log[..n]) == Purge(lock, target, stage, canonical, doomed[n..])
    {
      FollowsPrefix(pc, log, n);
      PurgeConversation(lock, target, stage, canonical, doomed, log[..n]);
    }
    forall n | 0 <= n < |log| && n < |doomed| && AllSoft(log[..n]) && !SoftDelete(log[n].reply)
      ensures log[n].call == PurgeCall(target, doomed[n]) && log[n].reply.Failed?
      ensures Follows(pc, log[..n + 1])
      ensures After(pc, log[..n + 1]) == AfterReconcile(lock, target, stage, Hard(StatusOf(log[n].reply.error)))
    {
      FirstHardDelete(lock, target, stage, canonical, doomed, log, n);
    }
  }

  lemma {:induction false} FirstHardDelete(lock: Lock, target: Target, stage: Stage, canonical: Resource,
        doomed: seq<string>, log: seq<Exchange>, n: nat)
    requires Follows(Purge(lock, target, stage, canonical, doomed), log)
    requires n < |log| && n < |doomed| && AllSoft(log[..n]) && !SoftDelete(log[n].reply)
    ensures log[n].call == PurgeCall(target, doomed[n]) && log[n].reply.Failed?
    ensures Follows(Purge(lock, target, stage, canonical, doomed), log[..n + 1])
    ensures After(Purge(lock, target, stage, canonical, doomed), log[..n + 1])
         == AfterReconcile(lock, target, stage, Hard(StatusOf(log[n].reply.error)))
  {
    var pc := Purge(lock, target, stage, canonical, doomed);
    FollowsPrefix(pc, log, n);
    PurgeConversation(lock, target, stage, canonical, doomed, log[..n]);
    var mid := Purge(lock, target, stage, canonical, doomed[n..]);
    assert log[n..][0] == log[n] && doomed[n..][0] == doomed[n];
    assert mid.Purging? && Accepts(mid, log[n].reply);
    FollowsOne(mid, log[n].reply);
    FollowsConcat(pc, log[..n], [log[n]]);
    assert log[..n + 1] == log[..n] + [log[n]];
  }

  // ---------- no ID is deleted twice ----------

  lemma {:induction false} DoomedFresh(k: string, sorted: seq<Volume>)
    requires FreshKey(k, sorted, VolumeId)
    ensures FreshKey(k, DoomedIds(sorted), Itself)
  {
    if sorted != [] {
      DoomedFresh(k, sorted[1..]);
    }
  }

  lemma {:induction false} DoomedDistinct(sorted: seq<Volume>)
    requires DistinctKeys(sorted, VolumeId)
    ensures DistinctKeys(DoomedIds(sorted), Itself)
  {
    if sorted != [] {
      DoomedDistinct(sorted[1..]);
      DoomedFresh(sorted[0].id, sorted[1..]);
    }
  }

  // ---------- the theorems ----------

  /**
   All or nothing: with one incompatible namesake in the listing, nothing is deleted; the RPC
   releases its lock and answers AlreadyExists.
   */
  lemma {:induction false} VolumeConflictDeletesNothing(lock: Lock, spec: VolumeSpec, stage: Stage, log: seq<Exchange>)
    requires Follows(Listing(lock, VolumeTarget(spec), stage), log) && log != []
    requires log[0].reply.VolumeList? && VolumesClash(log[0].reply.volumes, spec)
    ensures |log| <= 2 && forall i :: 1 <= i < |log| ==> log[i].call == Unlock(lock)
    ensures |log| == 2 ==> After(Listing(lock, VolumeTarget(spec), stage), log) == Finished(Refused(AlreadyExistsCode))
  {
    RefusalIsFinal(lock, AlreadyExistsCode, log[1..]);
    assert forall i :: 1 <= i < |log| ==> log[i] == log[1..][i - 1];
  }

  /** The same with a snapshot of another source. */
  lemma {:induction false} SnapshotConflictDeletesNothing(lock: Lock, name: string, source: string, zone: string,
        stage: Stage, log: seq<Exchange>)
    requires Follows(Listing(lock, SnapshotTarget(name, source, zone), stage), log) && log != []
    requires log[0].reply.SnapshotList? && SnapshotsClash(log[0].reply.snapshots, name, source)
    ensures |log| <= 2 && forall i :: 1 <= i < |log| ==> log[i].call == Unlock(lock)
    ensures var pc := Listing(lock, SnapshotTarget(name, source, zone), stage);
            |log| == 2 ==> After(pc, log) == Finished(Refused(AlreadyExistsCode))
  {
    RefusalIsFinal(lock, AlreadyExistsCode, log[1..]);
    assert forall i :: 1 <= i < |log| ==> log[i] == log[1..][i - 1];
  }

  /**
   Without a conflict a volume reconcile keeps the lowest namesake, and the deletes it attempts
   are exactly the other namesakes listed as unattached and not in use, each once.
   */
  lemma {:induction false} VolumeReconcileDeletes(lock: Lock, spec: VolumeSpec, stage: Stage, log: seq<Exchange>)
    requires Follows(Listing(lock, VolumeTarget(spec), stage), log) && log != []
    requires log[0].reply.VolumeList? && DistinctKeys(log[0].reply.volumes, VolumeId)
    requires PlanVolumes(log[0].reply.volumes, spec).Keep?
    ensures var plan := PlanVolumes(log[0].reply.volumes, spec);
            && Follows(Purge(lock, VolumeTarget(spec), stage, plan.canonical, plan.doomed), log[1..])
            && PurgedExactly(lock, VolumeTarget(spec), stage, plan.canonical, plan.doomed, log[1..])
            && DistinctKeys(plan.doomed, Itself)
            && (forall d :: d in plan.doomed <==> Orphan(log[0].reply.volumes, spec.name, plan.canonical.Id(), d))
            && (forall v :: v in log[0].reply.volumes && v.name == spec.name ==> Leq(plan.canonical.Id(), v.id))
  {
    var vs := log[0].reply.volumes;
    var plan := PlanVolumes(vs, spec);
    PlanVolumesMeaning(vs, spec);
    PlanOfDistinctVolumes(vs, spec);
    PurgeIsExact(lock, VolumeTarget(spec), stage, plan.canonical, plan.doomed, log[1..]);
    SortedNamesakes(vs, spec.name);
    DoomedDistinct(Sort(Namesakes(vs, spec.name), VolumeId)[1..]);
  }

  /** The snapshot reconcile likewise, but every namesake except the lowest is deleted. */
  lemma {:induction false} SnapshotReconcileDeletes(lock: Lock, name: string, source: string, zone: string,
        stage: Stage, log: seq<Exchange>)
    requires Follows(Listing(lock, SnapshotTarget(name, source, zone), stage), log) && log != []
    requires log[0].reply.SnapshotList? && DistinctKeys(log[0].reply.snapshots, SnapshotId)
    requires PlanSnapshots(log[0].reply.snapshots, name, source, zone).Keep?
    ensures var plan := PlanSnapshots(log[0].reply.snapshots, name, source, zone);
            && Follows(Purge(lock, SnapshotTarget(name, source, zone), stage, plan.canonical, plan.doomed), log[1..])
            && PurgedExactly(lock, SnapshotTarget(name, source, zone), stage, plan.canonical, plan.doomed, log[1..])
            && DistinctKeys(plan.doomed, Itself)
            && (forall d :: d in plan.doomed <==>
                  d != plan.canonical.Id() && NamedSnapshot(log[0].reply.snapshots, name, d))
            && (forall s :: s in log[0].reply.snapshots && s.name == name ==> Leq(plan.canonical.Id(), s.id))
  {
    var ss := log[0].reply.snapshots;
    var plan := PlanSnapshots(ss, name, source, zone);
    PlanSnapshotsMeaning(ss, name, source, zone);
    PlanOfDistinctSnapshots(ss, name, source, zone);
    PurgeIsExact(lock, SnapshotTarget(name, source, zone), stage, plan.canonical, plan.doomed, log[1..]);
    SortedSnapshotNamesakes(ss, name, zone);
  }
}
