/**
 What one listing makes a reconcile do: refuse, find nothing, or keep the lowest ID and
 delete the other namesakes.  The definitions say it as filters; the methods of module
 `Driver` are proved to compute the same thing with the driver's loops.
 */
module Reconcile {
  import opened Ordering
  import opened Cloud

  /** What the caller of a reconcile is looking for. */
  datatype Target =
    | VolumeTarget(spec: VolumeSpec)
    | SnapshotTarget(name: string, source: string, zone: string)

  /** The parts of a resource that never change after its creation. */
  datatype Key =
    | VolumeKey(name: string, zone: string)
    | SnapshotKey(name: string, source: string)

  function KeyOf(target: Target): Key {
    match target
    case VolumeTarget(spec) => VolumeKey(spec.name, spec.zone)
    case SnapshotTarget(name, source, _) => SnapshotKey(name, source)
  }

  datatype Resource = FoundVolume(volume: Volume) | FoundSnapshot(snapshot: Snapshot) {
    function Id(): string {
      match this
      case FoundVolume(v) => v.id
      case FoundSnapshot(s) => s.id
    }
  }

  datatype Plan =
    | Clash                                             // a namesake with other parameters
    | Absent                                            // no namesake
    | Keep(canonical: Resource, doomed: seq<string>)    // the canonical one, and the IDs to delete

  // ---------- volumes ----------

  function Namesakes(vs: seq<Volume>, name: string): (r: seq<Volume>)
  {
    if vs == [] then []
    else if vs[0].name == name then [vs[0]] + Namesakes(vs[1..], name)
    else Namesakes(vs[1..], name)
  }

  function DoomedIds(sorted: seq<Volume>): seq<string> {
    if sorted == [] then []
    else if DeletableDuplicate(sorted[0]) then [sorted[0].id] + DoomedIds(sorted[1..])
    else DoomedIds(sorted[1..])
  }

  predicate VolumesClash(vs: seq<Volume>, spec: VolumeSpec) {
    exists v :: v in vs && v.name == spec.name && !CompatibleVolume(v, spec)
  }

  function PlanVolumes(vs: seq<Volume>, spec: VolumeSpec): Plan {
    if VolumesClash(vs, spec) then Clash
    else
      var sorted := Sort(Namesakes(vs, spec.name), VolumeId);
      if sorted == [] then Absent else Keep(FoundVolume(sorted[0]), DoomedIds(sorted[1..]))
  }

  // ---------- snapshots ----------

  function SnapshotNamesakes(ss: seq<Snapshot>, name: string, zone: string): seq<Snapshot> {
    if ss == [] then []
    else if ss[0].name == name then [ss[0].(zone := Or(ss[0].zone, zone))] + SnapshotNamesakes(ss[1..], name, zone)
    else SnapshotNamesakes(ss[1..], name, zone)
  }

  function SnapshotIds(ss: seq<Snapshot>): seq<string> {
    seq(|ss|, i requires 0 <= i < |ss| => ss[i].id)
  }

  predicate SnapshotsClash(ss: seq<Snapshot>, name: string, source: string) {
    exists s :: s in ss && s.name == name && s.volumeId != source
  }

  function PlanSnapshots(ss: seq<Snapshot>, name: string, source: string, zone: string): Plan {
    if SnapshotsClash(ss, name, source) then Clash
    else
      var sorted := Sort(SnapshotNamesakes(ss, name, zone), SnapshotId);
      if sorted == [] then Absent else Keep(FoundSnapshot(sorted[0]), SnapshotIds(sorted[1..]))
  }

  // ---------- what a plan means ----------

  lemma {:induction false} NamesakesMembers(vs: seq<Volume>, name: string)
    ensures forall v :: v in Namesakes(vs, name) <==> v in vs && v.name == name
  {
    if vs != [] {
      NamesakesMembers(vs[1..], name);
      assert vs == [vs[0]] + vs[1..];
    }
  }

  lemma {:induction false} NamesakesKeepFresh(k: string, vs: seq<Volume>, name: string)
    requires FreshKey(k, vs, VolumeId)
    ensures FreshKey(k, Namesakes(vs, name), VolumeId)
  {
    if vs != [] {
      NamesakesKeepFresh(k, vs[1..], name);
    }
  }

  lemma {:induction false} NamesakesDistinct(vs: seq<Volume>, name: string)
    requires DistinctKeys(vs, VolumeId)
    ensures DistinctKeys(Namesakes(vs, name), VolumeId)
  {
    if vs != [] {
      NamesakesDistinct(vs[1..], name);
      NamesakesKeepFresh(vs[0].id, vs[1..], name);
    }
  }

  lemma {:induction false} SortedNamesakes(vs: seq<Volume>, name: string)
    requires DistinctKeys(vs, VolumeId)
    ensures var sorted := Sort(Namesakes(vs, name), VolumeId);
            && Sorted(sorted, VolumeId) && DistinctKeys(sorted, VolumeId)
            && forall v :: v in sorted <==> v in vs && v.name == name
  {
    var named := Namesakes(vs, name);
    NamesakesMembers(vs, name);
    NamesakesDistinct(vs, name);
    SortSorts(named, VolumeId);
    SortKeepsDistinct(named, VolumeId);
    forall v {
      SortMembers(named, VolumeId, v);
    }
  }

  /** `id` is a namesake other than `canonical` that the listing shows neither attached nor in use. */
  predicate Orphan(vs: seq<Volume>, name: string, canonical: string, id: string) {
    exists v ::
      v in vs && v.name == name && v.id == id && v.id != canonical && v.attachments == [] && v.status != InUse
  }

  /** An entry that shows the namesake `id` as free. */
  function FreeEntry(name: string, id: string): Volume -> bool {
    (v: Volume) => v.name == name && v.id == id && DeletableDuplicate(v)
  }

  function FreeEntries(vs: seq<Volume>, name: string, id: string): nat {
    Count(vs, FreeEntry(name, id))
  }

  lemma {:induction false} FreeEntriesOfNamesakes(vs: seq<Volume>, name: string, id: string)
    ensures FreeEntries(Namesakes(vs, name), name, id) == FreeEntries(vs, name, id)
  {
    if vs != [] {
      FreeEntriesOfNamesakes(vs[1..], name, id);
    }
  }

  lemma {:induction false} DoomedIffFree(ws: seq<Volume>, name: string, id: string)
    requires forall w :: w in ws ==> w.name == name
    ensures id in DoomedIds(ws) <==> FreeEntries(ws, name, id) > 0
  {
    if ws != [] {
      assert ws[0] in ws && forall w :: w in ws[1..] ==> w in ws;
      DoomedIffFree(ws[1..], name, id);
    }
  }

  /**
   In whatever order the namesakes come, and whatever IDs the listing repeats: what follows the
   head has an ID to delete exactly if the listing has a free entry of it beside the head.
   */
  lemma {:induction false} ArrangementDooms(vs: seq<Volume>, name: string, arranged: seq<Volume>, id: string)
    requires arranged != [] && multiset(arranged) == multiset(Namesakes(vs, name))
    ensures id in DoomedIds(arranged[1..]) <==>
              FreeEntries(vs, name, id) > (if FreeEntry(name, id)(arranged[0]) then 1 else 0)
  {
    NamesakesMembers(vs, name);
    forall w | w in arranged ensures w.name == name {
      assert w in multiset(arranged);
      assert w in Namesakes(vs, name);
    }
    assert forall w :: w in arranged[1..] ==> w in arranged;
    DoomedIffFree(arranged[1..], name, id);
    FreeEntriesOfNamesakes(vs, name, id);
    CountOfPermutation(arranged, Namesakes(vs, name), FreeEntry(name, id));
  }

  /**
   A listing either has an incompatible namesake, and then nothing is deleted, or has no
   namesake, or is reduced to its lowest namesake.  An ID is deleted if an entry other than the
   one kept shows it unattached and not in use.  This holds of any listing, also of one that
   repeats IDs.
   */
  lemma {:induction false} PlanVolumesMeaning(vs: seq<Volume>, spec: VolumeSpec)
    ensures PlanVolumes(vs, spec).Clash? <==> VolumesClash(vs, spec)
    ensures PlanVolumes(vs, spec).Absent? <==> forall v :: v in vs ==> v.name != spec.name
    ensures var p := PlanVolumes(vs, spec); p.Keep? ==>
              && p.canonical.FoundVolume?
              && p.canonical.volume in vs
              && p.canonical.volume.name == spec.name
              && (forall v :: v in vs && v.name == spec.name ==>
                CompatibleVolume(v, spec) && Leq(p.canonical.Id(), v.id))
              && (forall d :: d in p.doomed <==>
                    FreeEntries(vs, spec.name, d) > (if FreeEntry(spec.name, d)(p.canonical.volume) then 1 else 0))
  {
    var named := Namesakes(vs, spec.name);
    var sorted := Sort(named, VolumeId);
    NamesakesMembers(vs, spec.name);
    SortSorts(named, VolumeId);
    forall v ensures v in sorted <==> v in vs && v.name == spec.name {
      SortMembers(named, VolumeId, v);
    }
    if sorted != [] {
      assert sorted[0] in sorted;
      forall v | v in sorted ensures Leq(sorted[0].id, v.id) {
        SortedHead(sorted, VolumeId, v);
      }
      forall d ensures d in DoomedIds(sorted[1..]) <==>
                         FreeEntries(vs, spec.name, d) > (if FreeEntry(spec.name, d)(sorted[0]) then 1 else 0)
      {
        ArrangementDooms(vs, spec.name, sorted, d);
      }
    }
  }

  /** If each ID is listed once, the IDs to delete are exactly those of the free namesakes other than the lowest. */
  lemma {:induction false} PlanOfDistinctVolumes(vs: seq<Volume>, spec: VolumeSpec)
    requires DistinctKeys(vs, VolumeId)
    ensures var p := PlanVolumes(vs, spec);
            p.Keep? ==> forall d :: d in p.doomed <==> Orphan(vs, spec.name, p.canonical.Id(), d)
  {
    PlanVolumesMeaning(vs, spec);
    var p := PlanVolumes(vs, spec);
    if p.Keep? {
      forall d ensures d in p.doomed <==> Orphan(vs, spec.name, p.canonical.Id(), d) {
        CountPositive(vs, FreeEntry(spec.name, d));
        CountDistinct(vs, VolumeId, d, FreeEntry(spec.name, d));
        SameIdSameEntry(vs, p.canonical.volume, d);
      }
    }
  }

  lemma {:induction false} SameIdSameEntry(vs: seq<Volume>, c: Volume, d: string)
    requires DistinctKeys(vs, VolumeId) && c in vs
    ensures forall v :: v in vs && v.id == d == c.id ==> v == c
  {
    forall v | v in vs && v.id == d == c.id ensures v == c {
      var i, j :| 0 <= i < |vs| && 0 <= j < |vs| && vs[i] == v && vs[j] == c;
      assert VolumeId(vs[i]) == VolumeId(vs[j]);
    }
  }

  // ---------- the same for snapshots ----------

  lemma {:induction false} SnapshotNamesakesKeepFresh(k: string, ss: seq<Snapshot>, name: string, zone: string)
    requires FreshKey(k, ss, SnapshotId)
    ensures FreshKey(k, SnapshotNamesakes(ss, name, zone), SnapshotId)
  {
    if ss != [] {
      SnapshotNamesakesKeepFresh(k, ss[1..], name, zone);
    }
  }

  lemma {:induction false} SnapshotNamesakesDistinct(ss: seq<Snapshot>, name: string, zone: string)
    requires DistinctKeys(ss, SnapshotId)
    ensures DistinctKeys(SnapshotNamesakes(ss, name, zone), SnapshotId)
  {
    if ss != [] {
      SnapshotNamesakesDistinct(ss[1..], name, zone);
      SnapshotNamesakesKeepFresh(ss[0].id, ss[1..], name, zone);
    }
  }

  /** `id` belongs to a listed snapshot called `name`. */
  predicate NamedSnapshot(ss: seq<Snapshot>, name: string, id: string) {
    exists s :: s in ss && s.name == name && s.id == id
  }

  lemma {:induction false} SnapshotNamesakesMembers(ss: seq<Snapshot>, name: string, zone: string)
    ensures forall t :: t in SnapshotNamesakes(ss, name, zone) <==>
                          exists s :: s in ss && s.name == name && t == s.(zone := Or(s.zone, zone))
  {
    if ss != [] {
      SnapshotNamesakesMembers(ss[1..], name, zone);
      assert ss == [ss[0]] + ss[1..];
    }
  }

  lemma {:induction false} SortedSnapshotNamesakes(ss: seq<Snapshot>, name: string, zone: string)
    requires DistinctKeys(ss, SnapshotId)
    ensures var sorted := Sort(SnapshotNamesakes(ss, name, zone), SnapshotId);
            && Sorted(sorted, SnapshotId) && DistinctKeys(sorted, SnapshotId)
            && (forall t :: t in sorted <==> exists s :: s in ss && s.name == name && t == s.(zone := Or(s.zone, zone)))
  {
    var named := SnapshotNamesakes(ss, name, zone);
    SnapshotNamesakesMembers(ss, name, zone);
    SnapshotNamesakesDistinct(ss, name, zone);
    SortSorts(named, SnapshotId);
    SortKeepsDistinct(named, SnapshotId);
    forall t {
      SortMembers(named, SnapshotId, t);
    }
  }

  /** An entry of the namesake `id`. */
  function NamedEntry(name: string, id: string): Snapshot -> bool {
    (s: Snapshot) => s.name == name && s.id == id
  }

  function SnapshotEntries(ss: seq<Snapshot>, name: string, id: string): nat {
    Count(ss, NamedEntry(name, id))
  }

  lemma {:induction false} EntriesOfSnapshotNamesakes(ss: seq<Snapshot>, name: string, zone: string, id: string)
    ensures SnapshotEntries(SnapshotNamesakes(ss, name, zone), name, id) == SnapshotEntries(ss, name, id)
  {
    if ss != [] {
      EntriesOfSnapshotNamesakes(ss[1..], name, zone, id);
    }
  }

  lemma {:induction false} ListedIffCounted(ws: seq<Snapshot>, name: string, id: string)
    requires forall w :: w in ws ==> w.name == name
    ensures id in SnapshotIds(ws) <==> SnapshotEntries(ws, name, id) > 0
  {
    CountPositive(ws, NamedEntry(name, id));
    if id in SnapshotIds(ws) {
      var i :| 0 <= i < |ws| && SnapshotIds(ws)[i] == id;
      assert ws[i] in ws && NamedEntry(name, id)(ws[i]);
    }
    if w :| w in ws && NamedEntry(name, id)(w) {
      var i :| 0 <= i < |ws| && ws[i] == w;
      assert SnapshotIds(ws)[i] == id;
    }
  }

  /** The same without exemption: every entry beside the head dooms its ID. */
  lemma {:induction false} SnapshotArrangementDooms(ss: seq<Snapshot>, name: string, zone: string,
        arranged: seq<Snapshot>, id: string)
    requires arranged != [] && multiset(arranged) == multiset(SnapshotNamesakes(ss, name, zone))
    ensures id in SnapshotIds(arranged[1..]) <==>
      SnapshotEntries(ss, name, id) > (if arranged[0].id == id then 1 else 0)
  {
    SnapshotNamesakesMembers(ss, name, zone);
    forall w | w in arranged ensures w.name == name {
      assert w in multiset(arranged);
      assert w in SnapshotNamesakes(ss, name, zone);
    }
    assert arranged[0] in arranged && forall w :: w in arranged[1..] ==> w in arranged;
    ListedIffCounted(arranged[1..], name, id);
    EntriesOfSnapshotNamesakes(ss, name, zone, id);
    CountOfPermutation(arranged, SnapshotNamesakes(ss, name, zone), NamedEntry(name, id));
  }

  /**
   The snapshot reconcile has no exemption: whatever the listing repeats, an ID is deleted exactly
   if the listing has an entry of it beside the one that is kept.
   */
  lemma {:induction false} PlanSnapshotsMeaning(ss: seq<Snapshot>, name: string, source: string, zone: string)
    ensures PlanSnapshots(ss, name, source, zone).Clash? <==> SnapshotsClash(ss, name, source)
    ensures PlanSnapshots(ss, name, source, zone).Absent? <==> forall s :: s in ss ==> s.name != name
    ensures var p := PlanSnapshots(ss, name, source, zone); p.Keep? ==>
              && p.canonical.FoundSnapshot?
              && (exists s :: s in ss && s.name == name && p.canonical.snapshot == s.(zone := Or(s.zone, zone)))
              && (forall s :: s in ss && s.name == name ==> s.volumeId == source && Leq(p.canonical.Id(), s.id))
              && (forall d :: d in p.doomed <==>
                SnapshotEntries(ss, name, d) > (if p.canonical.Id() == d then 1 else 0))
  {
    var named := SnapshotNamesakes(ss, name, zone);
    var sorted := Sort(named, SnapshotId);
    SnapshotNamesakesMembers(ss, name, zone);
    SortSorts(named, SnapshotId);
    forall t ensures t in sorted <==> t in named {
      SortMembers(named, SnapshotId, t);
    }
    forall s | s in ss && s.name == name ensures s.(zone := Or(s.zone, zone)) in sorted {
      assert s.(zone := Or(s.zone, zone)) in named;
    }
    if sorted != [] {
      assert sorted[0] in sorted;
      forall t | t in sorted ensures Leq(sorted[0].id, t.id) {
        SortedHead(sorted, SnapshotId, t);
      }
      forall d
        ensures d in SnapshotIds(sorted[1..]) <==> SnapshotEntries(ss, name, d) > (if sorted[0].id == d then 1 else 0)
      {
        SnapshotArrangementDooms(ss, name, zone, sorted, d);
      }
    }
  }

  /** If each ID is listed once, every namesake but the lowest is deleted, and only those. */
  lemma {:induction false} PlanOfDistinctSnapshots(ss: seq<Snapshot>, name: string, source: string, zone: string)
    requires DistinctKeys(ss, SnapshotId)
    ensures var p := PlanSnapshots(ss, name, source, zone);
            p.Keep? ==> forall d :: d in p.doomed <==> d != p.canonical.Id() && NamedSnapshot(ss, name, d)
  {
    PlanSnapshotsMeaning(ss, name, source, zone);
    var p := PlanSnapshots(ss, name, source, zone);
    if p.Keep? {
      forall d ensures d in p.doomed <==> d != p.canonical.Id() && NamedSnapshot(ss, name, d) {
        CountPositive(ss, NamedEntry(name, d));
        CountDistinct(ss, SnapshotId, d, NamedEntry(name, d));
      }
    }
  }

  // ---------- the order of a listing, and listings that repeat an ID ----------

  lemma {:induction false} NamesakesCount(vs: seq<Volume>, name: string, v: Volume)
    ensures multiset(Namesakes(vs, name))[v] == if v.name == name then multiset(vs)[v] else 0
  {
    if vs != [] {
      NamesakesCount(vs[1..], name, v);
      assert vs == [vs[0]] + vs[1..];
    }
  }

  /** The plan does not depend on the order in which the provider lists the volumes. */
  lemma {:induction false} PlanIgnoresListingOrder(vs: seq<Volume>, ws: seq<Volume>, spec: VolumeSpec)
    requires multiset(vs) == multiset(ws) && Injective(multiset(vs), VolumeId)
    ensures PlanVolumes(vs, spec) == PlanVolumes(ws, spec)
  {
    assert forall v :: v in vs <==> v in multiset(vs);
    assert forall v :: v in ws <==> v in multiset(ws);
    var a, b := Namesakes(vs, spec.name), Namesakes(ws, spec.name);
    forall v ensures multiset(a)[v] == multiset(b)[v] {
      NamesakesCount(vs, spec.name, v);
      NamesakesCount(ws, spec.name, v);
    }
    NamesakesMembers(vs, spec.name);
    assert forall v :: v in multiset(a) ==> v in a;
    SortPermutationInvariant(a, b, VolumeId);
  }

  /** Nor does the plan for snapshots. */
  lemma {:induction false} SnapshotPlanIgnoresListingOrder(ss: seq<Snapshot>, ts: seq<Snapshot>, name: string,
        source: string, zone: string)
    requires DistinctKeys(ss, SnapshotId) && DistinctKeys(ts, SnapshotId) && SameMembers(ss, ts)
    ensures PlanSnapshots(ss, name, source, zone) == PlanSnapshots(ts, name, source, zone)
  {
    SortedSnapshotNamesakes(ss, name, zone);
    SortedSnapshotNamesakes(ts, name, zone);
    var a, b := Sort(SnapshotNamesakes(ss, name, zone), SnapshotId),
      Sort(SnapshotNamesakes(ts, name, zone), SnapshotId);
    StrictlySortedUnique(a, b, SnapshotId);
  }

  /**
   The driver trusts the provider to list each ID once.  Whatever a listing repeats, truly or
   not, the volume that is kept is deleted exactly when the listing has a free entry of its ID
   beside the one kept.
   */
  lemma {:induction false} CanonicalDoomedIff(vs: seq<Volume>, spec: VolumeSpec)
    requires PlanVolumes(vs, spec).Keep?
    ensures var p := PlanVolumes(vs, spec);
            p.canonical.Id() in p.doomed <==>
              FreeEntries(vs, spec.name, p.canonical.Id()) > (if DeletableDuplicate(p.canonical.volume) then 1 else 0)
  {
    PlanVolumesMeaning(vs, spec);
  }

  /** The snapshot that is kept is deleted exactly when the listing has it more than once. */
  lemma {:induction false} CanonicalSnapshotDoomedIff(ss: seq<Snapshot>, name: string, source: string, zone: string)
    requires PlanSnapshots(ss, name, source, zone).Keep?
    ensures var p := PlanSnapshots(ss, name, source, zone);
            p.canonical.Id() in p.doomed <==> SnapshotEntries(ss, name, p.canonical.Id()) > 1
  {
    PlanSnapshotsMeaning(ss, name, source, zone);
  }

  /** One snapshot listed twice is kept and deleted. */
  lemma {:induction false} RepeatedSnapshotIsDeleted(s: Snapshot, name: string, source: string, zone: string)
    requires s.name == name && s.volumeId == source && s.zone == zone
    ensures PlanSnapshots([s, s], name, source, zone) == Keep(FoundSnapshot(s), [s.id])
  {
    LeqTotal(s.id, s.id);
    assert [s, s][1..] == [s];
    assert SnapshotNamesakes([s], name, zone) == [s];
    assert SnapshotNamesakes([s, s], name, zone) == [s, s];
    assert Sort([s], SnapshotId) == [s];
    assert Sort([s, s], SnapshotId) == [s, s];
    assert SnapshotIds([s]) == [s.id];
  }

  /** A listing that carries one free volume twice makes the reconcile delete the volume it returns. */
  lemma {:induction false} RepeatedListingDeletesCanonical(v: Volume, spec: VolumeSpec)
    requires v.name == spec.name && CompatibleVolume(v, spec) && DeletableDuplicate(v)
    ensures PlanVolumes([v, v], spec) == Keep(FoundVolume(v), [v.id])
  {
    LeqTotal(v.id, v.id);
    assert [v, v][1..] == [v];
    assert Namesakes([v], spec.name) == [v];
    assert Namesakes([v, v], spec.name) == [v, v];
    assert Sort([v], VolumeId) == [v];
    assert Sort([v, v], VolumeId) == [v, v];
    assert DoomedIds([v]) == [v.id];
  }

  /** So does one that shows it attached, and once more as it was before. */
  lemma {:induction false} StaleEntryDeletesCanonical(now: Volume, stale: Volume, spec: VolumeSpec)
    requires now.id == stale.id && now.name == stale.name == spec.name
    requires CompatibleVolume(now, spec) && CompatibleVolume(stale, spec)
    requires !DeletableDuplicate(now) && DeletableDuplicate(stale)
    ensures PlanVolumes([now, stale], spec) == Keep(FoundVolume(now), [now.id])
  {
    LeqTotal(now.id, now.id);
    assert [now, stale][1..] == [stale];
    assert Namesakes([stale], spec.name) == [stale];
    assert Namesakes([now, stale], spec.name) == [now, stale];
    assert Sort([stale], VolumeId) == [stale];
    assert Sort([now, stale], VolumeId) == [now, stale];
    assert DoomedIds([stale]) == [stale.id];
  }
}
