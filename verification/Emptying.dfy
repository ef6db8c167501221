/**
 When a name can lose all its volumes: exactly when a request deletes its lowest one, or one that
 will be the lowest, while a create cleans up the others.
 */
module Emptying {
  import opened Ordering
  import opened Cloud
  import opened Reconcile
  import opened Protocol
  import opened System
  import opened Canonical
  import opened Limits
  import Agreement

  // ---------- a delete during the clean-up ----------

  /** The IDs of all volumes of the specification's name and zone. */
  function Named(p: Provider, spec: VolumeSpec): set<string> {
    set ref | ref in p.ever && ref.VolumeRef? && p.ever[ref] == VolumeKey(spec.name, spec.zone) :: ref.id
  }

  predicate ListsCopies(vs: seq<Volume>, ids: set<string>, spec: VolumeSpec) {
    && DistinctKeys(vs, VolumeId)
    && (forall v :: v in vs ==> v.id in ids && v == Copy(v.id, spec))
    && (forall id :: id in ids ==> Copy(id, spec) in vs)
  }

  lemma {:induction false} CopiesListed(ids: set<string>, spec: VolumeSpec) returns (vs: seq<Volume>)
    ensures ListsCopies(vs, ids, spec)
    decreases |ids|
  {
    if ids == {} {
      vs := [];
    } else {
      var id :| id in ids;
      var rest := CopiesListed(ids - {id}, spec);
      assert forall k :: 0 <= k < |rest| ==> rest[k] in rest;
      vs := [Copy(id, spec)] + rest;
    }
  }

  /** Listing all of a name's volumes as free dooms all but the lowest. */
  lemma {:induction false} CopiesPlan(vs: seq<Volume>, ids: set<string>, spec: VolumeSpec, low: string)
    requires ListsCopies(vs, ids, spec) && low in ids && forall id :: id in ids ==> Leq(low, id)
    ensures var plan := PlanVolumes(vs, spec);
            plan.Keep? && plan.canonical.Id() == low && forall id :: id in plan.doomed <==> id in ids && id != low
  {
    PlanVolumesMeaning(vs, spec);
    PlanOfDistinctVolumes(vs, spec);
    var plan := PlanVolumes(vs, spec);
    assert Copy(low, spec) in vs;
    LeqAntisymmetric(plan.canonical.Id(), low);
    forall id ensures id in plan.doomed <==> id in ids && id != low {
      if id in ids && id != low {
        assert Copy(id, spec) in vs && DeletableDuplicate(Copy(id, spec));
      }
    }
  }

  function Without(p: Provider, ids: seq<string>): Provider
    decreases |ids|
  {
    if ids == [] then p
    else Without(p.(live := p.live - {VolumeRef(ids[0])}, attached := p.attached - {ids[0]}), ids[1..])
  }

  lemma {:induction false} WithoutMeans(p: Provider, ids: seq<string>)
    ensures Without(p, ids).ever == p.ever
    ensures forall ref :: ref in Without(p, ids).live <==> ref in p.live && !(ref.VolumeRef? && ref.id in ids)
    decreases |ids|
  {
    if ids != [] {
      WithoutMeans(p.(live := p.live - {VolumeRef(ids[0])}, attached := p.attached - {ids[0]}), ids[1..]);
      assert ids == [ids[0]] + ids[1..];
    }
  }

  /** The clean-up runs through. */
  lemma {:induction false} PurgeAll(p: Provider, held: set<(nat, Lock)>, t0: Task, t1: Task, lock: Lock,
        spec: VolumeSpec, stage: Stage, c: Resource, doomed: seq<string>)
    returns (run: seq<Event>)
    requires t0.pc == Purge(lock, VolumeTarget(spec), stage, c, doomed)
    ensures Legal(Two(p, held, t0, t1), run) && Quiet(run)
    ensures Final(Two(p, held, t0, t1), run)
         == Two(Without(p, doomed), held, t0.(pc := AfterReconcile(lock, VolumeTarget(spec), stage, Found(c))), t1)
    decreases |doomed|
  {
    if doomed == [] {
      run := [];
    } else {
      var p1 := p.(live := p.live - {VolumeRef(doomed[0])}, attached := p.attached - {doomed[0]});
      assert p1 == Apply(p, CallOf(t0.pc), Ok, Removal);
      var rest := PurgeAll(p1, held, Moved(t0, Ok), t1, lock, spec, stage, c, doomed[1..]);
      run := First(p, held, t0, t1, Ok, Removal, rest);
    }
  }

  /** The lowest volume is deleted on request, and then the others by the clean-up. */
  lemma {:induction false} PurgeAfterDelete(p: Provider, held: set<(nat, Lock)>, t0: Task, t1: Task, names: Lock,
        volumes: Lock, spec: VolumeSpec, stage: Stage, c: Resource, doomed: seq<string>)
    returns (run: seq<Event>)
    requires t0.pc == Purge(names, VolumeTarget(spec), stage, c, doomed) && t1.pc == Deleting(volumes, c.Id())
    ensures var s := Two(p, held, t0, t1);
            && Legal(s, run) && Quiet(run)
            && Final(s, run).provider == Without(p, [c.Id()] + doomed)
            && Final(s, run).tasks.Keys == {0, 1}
            && Final(s, run).tasks[0].rpc == t0.rpc && Final(s, run).tasks[1].rpc == t1.rpc
  {
    var low := c.Id();
    var p1 := p.(live := p.live - {VolumeRef(low)}, attached := p.attached - {low});
    assert p1 == Apply(p, CallOf(t1.pc), Ok, Removal);
    assert ([low] + doomed)[1..] == doomed;
    var rest := PurgeAll(p1, held, t0, Moved(t1, Ok), names, spec, stage, c, doomed);
    run := Second(p, held, t0, t1, Ok, Removal, rest);
  }

  /** A create has listed the name's volumes; the lowest is deleted; then the clean-up runs through. */
  lemma {:induction false} DeleteThenPurge(p: Provider, held: set<(nat, Lock)>, t0: Task, t1: Task, names: Lock,
        volumes: Lock, spec: VolumeSpec, stage: Stage, low: string)
    returns (run: seq<Event>)
    requires low in Named(p, spec) && forall id :: id in Named(p, spec) ==> Leq(low, id)
    requires t0.pc == Listing(names, VolumeTarget(spec), stage) && t1.pc == Deleting(volumes, low)
    ensures var s := Two(p, held, t0, t1);
            && Legal(s, run) && Quiet(run)
            && Final(s, run).provider.ever == p.ever
            && (forall id :: id in Named(p, spec) ==> VolumeRef(id) !in Final(s, run).provider.live)
            && Final(s, run).tasks.Keys == {0, 1}
            && Final(s, run).tasks[0].rpc == t0.rpc && Final(s, run).tasks[1].rpc == t1.rpc
  {
    var vs := CopiesListed(Named(p, spec), spec);
    CopiesPlan(vs, Named(p, spec), spec, low);
    var plan := PlanVolumes(vs, spec);
    var listed := VolumeList(vs);
    HonestCopies(p, vs, spec);
    var rest := PurgeAfterDelete(p, held, Moved(t0, listed), t1, names, volumes, spec, stage, plan.canonical,
      plan.doomed);
    run := First(p, held, t0, t1, listed, Nothing, rest);
    WithoutMeans(p, [low] + plan.doomed);
  }

  lemma {:induction false} HonestCopies(p: Provider, vs: seq<Volume>, spec: VolumeSpec)
    requires ListsCopies(vs, Named(p, spec), spec)
    ensures Honest(p, ListVolumes(spec.name, spec.zone), VolumeList(vs))
  {
    forall v | v in vs ensures TrueVolume(p, v) {
      var ref :| ref in p.ever && ref.VolumeRef? && p.ever[ref] == VolumeKey(spec.name, spec.zone) && ref.id == v.id;
      assert ref == VolumeRef(v.id);
    }
  }

  /** The run deletes volumes only from the given IDs by request. */
  predicate DeletesOnly(run: seq<Event>, ids: set<string>) {
    forall e :: e in run && e.Arrival? && e.rpc.Delete? ==> e.rpc.id in ids
  }

  /** Nothing is left of a name. */
  ghost predicate Emptied(p: Provider, spec: VolumeSpec) {
    forall id :: VolumeRef(id) in p.live && VolumeRef(id) in p.ever ==>
      p.ever[VolumeRef(id)] != VolumeKey(spec.name, spec.zone)
  }

  predicate Populates(p: Provider, spec: VolumeSpec, low: string) {
    && VolumeRef(low) in p.ever && p.ever[VolumeRef(low)] == VolumeKey(spec.name, spec.zone)
    && forall id :: id in Named(p, spec) ==> Leq(low, id)
  }

  lemma {:induction false} NamedAreEmptied(p: Provider, p': Provider, spec: VolumeSpec)
    requires p'.ever == p.ever && forall id :: id in Named(p, spec) ==> VolumeRef(id) !in p'.live
    ensures Emptied(p', spec)
  {
    forall id | VolumeRef(id) in p'.live && VolumeRef(id) in p'.ever
      ensures p'.ever[VolumeRef(id)] != VolumeKey(spec.name, spec.zone)
    {
      assert VolumeRef(id).id == id;
      assert p.ever[VolumeRef(id)] == VolumeKey(spec.name, spec.zone) ==> id in Named(p, spec);
    }
  }

  lemma {:induction false} OnlyTwoAsked(s: State, low: string, ref: Ref)
    requires s.tasks.Keys == {0, 1} && s.tasks[0].rpc.Create? && s.tasks[1].rpc == Delete(low) && Asked(s, ref)
    ensures ref == VolumeRef(low)
  {
    var task :| task in s.tasks && AsksToDelete(s.tasks[task].rpc, ref);
    assert task in s.tasks.Keys;
  }

  /**
   A create is under way that will delete all of a name's volumes but the lowest; a request
   deletes that one in between.  Nobody asked for the others to go, and afterwards the name has
   no volume.  The two can run on one driver: the clean-up takes no volume lock.
   */
  lemma {:induction false} DeleteDuringCleanupEmptiesTheName(p: Provider, spec: VolumeSpec, low: string, d0: nat,
        d1: nat)
    returns (run: seq<Event>)
    requires p.live == p.ever.Keys && spec.name != "" && low != "" && Populates(p, spec, low)
    ensures var s := State(p, {}, map[]);
            && Initial(s) && Legal(s, run) && DeletesOnly(run, {low})
            && Emptied(Final(s, run).provider, spec)
            && forall ref :: Asked(Final(s, run), ref) ==> ref == VolumeRef(low)
  {
    var rpc0, rpc1 := Create(spec), Delete(low);
    var names, volumes := Lock(Names, spec.name), Lock(Volumes, low);
    assert low in Named(p, spec) by {
      assert VolumeRef(low).id == low;
    }
    var t0, t1 := Entered(d0, rpc0, names), Entered(d1, rpc1, volumes);
    var rest := DeleteThenPurge(p, {(d0, names), (d1, volumes)}, t0, t1, names, volumes, spec, BeforeCreate, low);
    NamedAreEmptied(p, Final(Two(p, {(d0, names), (d1, volumes)}, t0, t1), rest).provider, spec);
    run := WholeRun(p, d0, d1, rpc0, rpc1, names, volumes, rest);
    var end := Final(State(p, {}, map[]), run);
    forall ref | Asked(end, ref) ensures ref == VolumeRef(low) {
      OnlyTwoAsked(end, low, ref);
    }
  }

  /** A create and a delete arrive, take their locks, and go on. */
  lemma {:induction false} WholeRun(p: Provider, d0: nat, d1: nat, rpc0: Rpc, rpc1: Rpc, lock0: Lock, lock1: Lock,
        rest: seq<Event>)
    returns (run: seq<Event>)
    requires p.live == p.ever.Keys && rpc0.Create? && rpc1.Delete? && Quiet(rest)
    requires Begin(rpc0) == Locking(lock0, rpc0) && Begin(rpc1) == Locking(lock1, rpc1)
    requires Legal(Two(p, {(d0, lock0), (d1, lock1)}, Entered(d0, rpc0, lock0), Entered(d1, rpc1, lock1)), rest)
    ensures var s := State(p, {}, map[]);
            && Initial(s) && Legal(s, run) && DeletesOnly(run, {rpc1.id})
            && Final(s, run) == Final(Two(p, {(d0, lock0), (d1, lock1)}, Entered(d0, rpc0, lock0),
              Entered(d1, rpc1, lock1)), rest)
  {
    assert lock0.table == Names && lock1.table == Volumes;
    var entered := BothEnter(p, d0, d1, rpc0, rpc1, lock0, lock1, rest);
    run := BothArrive(p, d0, d1, rpc0, rpc1, entered);
  }

  // ---------- a lower namesake that is created only to be deleted ----------

  function WithVolume(p: Provider, id: string, spec: VolumeSpec): Provider {
    p.(ever := p.ever[VolumeRef(id) := VolumeKey(spec.name, spec.zone)], live := p.live + {VolumeRef(id)})
  }

  lemma {:induction false} NamedWithVolume(p: Provider, id: string, spec: VolumeSpec)
    requires VolumeRef(id) !in p.ever
    ensures Named(WithVolume(p, id, spec), spec) == Named(p, spec) + {id}
  {
    var p' := WithVolume(p, id, spec);
    forall x ensures x in Named(p', spec) <==> x in Named(p, spec) || x == id {
      assert VolumeRef(x).id == x;
      if x in Named(p, spec) {
        var ref :| ref in p.ever && ref.VolumeRef? && p.ever[ref] == VolumeKey(spec.name, spec.zone) && ref.id == x;
        assert ref == VolumeRef(x) && VolumeRef(x) in p'.ever;
      }
      if x in Named(p', spec) && x != id {
        var ref :| ref in p'.ever && ref.VolumeRef? && p'.ever[ref] == VolumeKey(spec.name, spec.zone) && ref.id == x;
        assert ref in p.ever;
      }
    }
  }

  /** A create that is shown nothing creates a volume, under any unused ID. */
  lemma {:induction false} CreateThen(p: Provider, held: set<(nat, Lock)>, t0: Task, t1: Task, names: Lock,
        spec: VolumeSpec, id: string, rest: seq<Event>)
    returns (run: seq<Event>)
    requires t0.pc == Listing(names, VolumeTarget(spec), BeforeCreate) && VolumeRef(id) !in p.ever
    requires Legal(Two(WithVolume(p, id, spec), held, t0.(pc := Listing(names, VolumeTarget(spec), FirstPoll())), t1),
      rest)
    ensures var next := Two(WithVolume(p, id, spec), held, t0.(pc := Listing(names, VolumeTarget(spec), FirstPoll())),
      t1);
            Legal(Two(p, held, t0, t1), run) && Final(Two(p, held, t0, t1), run) == Final(next, rest)
    ensures Quiet(rest) ==> Quiet(run)
  {
    var nothing := VolumeList([]);
    assert PlanVolumes([], spec) == Absent by {
      assert Namesakes([], spec.name) == [];
    }
    var creating := Moved(t0, nothing);
    assert creating.pc == Creating(names, VolumeTarget(spec));
    assert Apply(p, CallOf(creating.pc), Ok, Creation(id)) == WithVolume(p, id, spec);
    run := First(p, held, creating, t1, Ok, Creation(id), rest);
    run := First(p, held, t0, t1, nothing, Nothing, run);
  }

  /** An unused ID below the lowest can be created, doom all the others, and be deleted on request. */
  lemma {:induction false} NewLowestEmptiesTheName(p: Provider, spec: VolumeSpec, low: string, id: string, d0: nat,
        d1: nat)
    returns (run: seq<Event>)
    requires p.live == p.ever.Keys && spec.name != "" && Populates(p, spec, low)
    requires id != "" && Less(id, low) && VolumeRef(id) !in p.ever
    ensures var s := State(p, {}, map[]);
            Initial(s) && Legal(s, run) && DeletesOnly(run, {id}) && Emptied(Final(s, run).provider, spec)
  {
    var rpc0, rpc1 := Create(spec), Delete(id);
    var names, volumes := Lock(Names, spec.name), Lock(Volumes, id);
    var held: set<(nat, Lock)> := {(d0, names), (d1, volumes)};
    var p' := WithVolume(p, id, spec);
    NamedWithVolume(p, id, spec);
    forall x | x in Named(p', spec) ensures Leq(id, x) {
      LeqTotal(x, x);
      if x != id {
        LeqTransitive(id, low, x);
      }
    }
    var t0, t1 := Entered(d0, rpc0, names), Entered(d1, rpc1, volumes);
    var polling := t0.(pc := Listing(names, VolumeTarget(spec), FirstPoll()));
    var rest := DeleteThenPurge(p', held, polling, t1, names, volumes, spec, FirstPoll(), id);
    NamedAreEmptied(p', Final(Two(p', held, polling, t1), rest).provider, spec);
    rest := CreateThen(p, held, t0, t1, names, spec, id, rest);
    run := WholeRun(p, d0, d1, rpc0, rpc1, names, volumes, rest);
  }

  // ---------- exactly when ----------

  /** Requests to delete from `ids` can leave nothing of the name. */
  ghost predicate CanBeEmptied(p: Provider, spec: VolumeSpec, ids: set<string>) {
    exists run :: Legal(State(p, {}, map[]), run) && DeletesOnly(run, ids)
      && Emptied(Final(State(p, {}, map[]), run).provider, spec)
  }

  /** A request to delete it can empty the name: it is the lowest volume, or unused and below that. */
  predicate Dangerous(p: Provider, low: string, id: string) {
    id != "" && (id == low || (Less(id, low) && VolumeRef(id) !in p.ever))
  }

  /** What empties a name is dangerous to delete. */
  lemma {:induction false} EmptyingIsDangerous(p: Provider, spec: VolumeSpec, low: string, ids: set<string>,
        run: seq<Event>)
    returns (id: string)
    requires p.live == p.ever.Keys && Populates(p, spec, low)
    requires Legal(State(p, {}, map[]), run) && DeletesOnly(run, ids)
      && Emptied(Final(State(p, {}, map[]), run).provider, spec)
    ensures id in ids && Dangerous(p, low, id)
  {
    var s := State(p, {}, map[]);
    var end := Final(s, run);
    Agreement.RunGrows(s, run);
    var lowest := LowestExists(end.provider.ever, VolumeRef(low));
    LowestSurvives(s, run, lowest);
    assert Asked(end, lowest);
    var task :| task in end.tasks && AsksToDelete(end.tasks[task].rpc, lowest);
    TasksHaveArrived(s, run, task);
    id := lowest.id;
    assert end.tasks[task].rpc == Delete(id);
    assert Siblings(end.provider.ever, lowest, VolumeRef(low)) && Leq(id, low);
    assert VolumeRef(id).id == id;
    assert VolumeRef(id) in p.ever ==> id in Named(p, spec);
    if Leq(low, id) {
      LeqAntisymmetric(id, low);
    }
  }

  /**
   Exactly when can requests to delete empty a name?  When one of them names its lowest volume, or
   an ID below that which is not used yet.  Requests for higher duplicates are harmless.
   */
  lemma {:induction false} NameEmptiedIff(p: Provider, spec: VolumeSpec, low: string, ids: set<string>)
    requires p.live == p.ever.Keys && spec.name != "" && Populates(p, spec, low)
    ensures CanBeEmptied(p, spec, ids) <==> exists id :: id in ids && Dangerous(p, low, id)
  {
    if id :| id in ids && Dangerous(p, low, id) {
      var run;
      if id == low {
        run := DeleteDuringCleanupEmptiesTheName(p, spec, low, 0, 0);
      } else {
        run := NewLowestEmptiesTheName(p, spec, low, id, 0, 0);
      }
      assert DeletesOnly(run, ids);
    }
    if CanBeEmptied(p, spec, ids) {
      var run :| Legal(State(p, {}, map[]), run) && DeletesOnly(run, ids)
                 && Emptied(Final(State(p, {}, map[]), run).provider, spec);
      var id := EmptyingIsDangerous(p, spec, low, ids, run);
    }
  }
}
