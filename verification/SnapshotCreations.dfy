/**
 What a snapshot request comes to over the in-memory provider when nobody interferes with its
 name or its source.
 */
module SnapshotCreations {
  import opened Cloud
  import opened Reconcile
  import opened Protocol
  import opened Fakes
  import opened FakeLaws
  import opened Histories
  import opened SnapshotHistories

  // ---------- what others may do meanwhile ----------

  /** The call spares the source and the name's snapshots, and takes none but the very same one. */
  predicate Spares(f: FakeState, call: Call, t: Target)
    requires t.SnapshotTarget?
  {
    match call
    case CreateSnapshot(name, source, zone) => name == t.name ==> source == t.source && zone == t.zone
    case DeleteSnapshot(id, _) => !SnapshotNamed(f, id, t.name)
    case DeleteVolume(id) => id != t.source
    case _ => true
  }

  predicate Spared(fs: seq<FakeState>, h: seq<Entry>, who: nat, t: Target)
    requires |fs| == |h| + 1 && t.SnapshotTarget?
  {
    forall i :: 0 <= i < |h| && h[i].who != who ==> Spares(fs[i], h[i].call, t)
  }

  // ---------- whom the name belongs to ----------

  predicate Seen(f: FakeState, id: string, t: Target)
    requires t.SnapshotTarget?
  {
    Visible(f, id, t.name, t.source, t.zone)
  }

  /** Of this source, but stored in a zone in which the request does not look. */
  predicate Hidden(f: FakeState, id: string, t: Target)
    requires t.SnapshotTarget?
  {
    SnapshotNamed(f, id, t.name) && f.snapshots[id].volumeId == t.source && !Shown(t.zone, f.snapshots[id].zone)
  }

  predicate Foreign(f: FakeState, id: string, t: Target)
    requires t.SnapshotTarget?
  {
    Occupied(f, id, t.name, t.source)
  }

  ghost predicate Open(f: FakeState, t: Target)
    requires t.SnapshotTarget?
  {
    forall id :: !Hidden(f, id, t) && !Foreign(f, id, t)
  }

  predicate Based(f: FakeState, t: Target, fallbackZone: string)
    requires t.SnapshotTarget?
  {
    t.source in f.volumes && ZoneFor(f, t.source, fallbackZone) == t.zone
  }

  lemma {:induction false} BaseStays(f: FakeState, call: Call, reply: Reply, f': FakeState, t: Target,
        fallbackZone: string)
    requires t.SnapshotTarget? && FakeInv(f) && FakeStep(f, call, reply, f') && Based(f, t, fallbackZone)
    requires call != DeleteVolume(t.source)
    ensures Based(f', t, fallbackZone)
  {
    StepKeepsVolume(f, call, reply, f', t.source) by {
      assert t.source in f'.volumes;
    }
  }

  /** What the name has stays, and nothing comes that the request would not have made itself. */
  lemma {:induction false} NameStays(f: FakeState, call: Call, reply: Reply, f': FakeState, t: Target, id: string)
    requires t.SnapshotTarget? && FakeInv(f) && FakeStep(f, call, reply, f') && Spares(f, call, t)
    ensures SnapshotNamed(f, id, t.name) ==> id in f'.snapshots && f'.snapshots[id] == f.snapshots[id]
    ensures Hidden(f', id, t) <==> Hidden(f, id, t)
    ensures Foreign(f', id, t) <==> Foreign(f, id, t)
  {
    OtherSnapshotsUntouched(f, call, reply, f', id);
  }

  // ---------- where a request stands ----------

  ghost predicate HasSeen(f: FakeState, t: Target)
    requires t.SnapshotTarget?
  {
    exists id :: Seen(f, id, t)
  }

  ghost predicate AtRound(f: FakeState, stage: Stage, t: Target)
    requires t.SnapshotTarget?
  {
    match stage
    case BeforeCreate => Open(f, t)
    case Polling(round, previous, stable, _) =>
      HasSeen(f, t) && stable == round < 3 && (round > 0 ==> Seen(f, previous, t))
    case _ => false
  }

  /** The answer is the stored snapshot, with the zone filled in where the provider has none. */
  predicate Delivered(f: FakeState, outcome: Outcome, t: Target)
    requires t.SnapshotTarget?
  {
    && outcome.Returned? && outcome.resource.FoundSnapshot?
    && var s := outcome.resource.snapshot;
       Seen(f, s.id, t) && s == f.snapshots[s.id].(zone := Or(f.snapshots[s.id].zone, t.zone))
  }

  /** How many calls are left at most, the unlock not counted. */
  function Left(pc: Pc): int {
    match pc
    case ReadingSource(_, _, _, _) => 8
    case Listing(_, _, stage) => if stage.Polling? then 5 - 2 * stage.round else 7
    case Creating(_, _) => 6
    case Sleeping(_, _, stage, _) => if stage.Polling? then 6 - 2 * stage.round else 0
    case _ => 0
  }

  ghost predicate Heading(f: FakeState, pc: Pc, n: nat, t: Target, fallbackZone: string)
    requires t.SnapshotTarget?
  {
    && Based(f, t, fallbackZone)
    && n + Left(pc) <= 8
    && match pc
       case ReadingSource(_, name, source, fallback) =>
         name == t.name && source == t.source && fallback == fallbackZone && Open(f, t)
       case Listing(_, target, stage) => target == t && AtRound(f, stage, t)
       case Creating(_, target) => target == t && Open(f, t)
       case Sleeping(_, target, stage, _) => target == t && stage.Polling? && stage.round > 0 && AtRound(f, stage, t)
       case Unlocking(_, outcome) => Delivered(f, outcome, t)
       case _ => false
  }

  ghost function Bound(t: Target, fallbackZone: string): Standing
    requires t.SnapshotTarget?
  {
    (f, pc, n: nat) => Heading(f, pc, n, t, fallbackZone)
  }

  /** A new snapshot of the source, in the request's zone, has come, and all else is as it was. */
  ghost predicate Gains(f: FakeState, f': FakeState, t: Target)
    requires t.SnapshotTarget?
  {
    && (forall id :: !SnapshotNamed(f, id, t.name))
    && t.source in f.volumes
    && exists s: Snapshot ::
         && s.id !in f.snapshots && s.name == t.name && s.volumeId == t.source && s.zone == t.zone
         && s.size == f.volumes[t.source].size
         && f'.snapshots == f.snapshots[s.id := s] && f'.volumes == f.volumes
  }

  ghost function GainsAtMost(t: Target): (FakeState, FakeState) -> bool
    requires t.SnapshotTarget?
  {
    (f, f') => f' == f || Gains(f, f', t)
  }

  // ---------- one step ----------

  lemma {:induction false} ListingOfUnseen(f: FakeState, t: Target, ss: seq<Snapshot>)
    requires t.SnapshotTarget? && SnapshotListing(f, t.name, t.zone, ss)
    requires forall id :: !(SnapshotNamed(f, id, t.name) && Shown(t.zone, f.snapshots[id].zone))
    ensures PlanSnapshots(ss, t.name, t.source, t.zone) == Absent
  {
    PlanSnapshotsMeaning(ss, t.name, t.source, t.zone);
    assert forall s :: s in ss ==> SnapshotNamed(f, s.id, s.name) && Shown(t.zone, f.snapshots[s.id].zone);
  }

  lemma {:induction false} OpenIsSeenOrUnused(f: FakeState, t: Target)
    requires t.SnapshotTarget? && Open(f, t)
    ensures HasSeen(f, t) || forall id :: !SnapshotNamed(f, id, t.name)
  {
    if id :| SnapshotNamed(f, id, t.name) {
      assert !Hidden(f, id, t) && !Foreign(f, id, t);
      assert Seen(f, id, t);
    }
  }

  lemma {:induction false} FreshIsSeen(f: FakeState, t: Target, reply: Reply, f': FakeState)
    requires t.SnapshotTarget? && FakeInv(f) && t.source in f.volumes && forall id :: !SnapshotNamed(f, id, t.name)
    requires CreateSnapshotStep(f, t.name, t.source, t.zone, reply, f')
    ensures reply == Ok && HasSeen(f', t) && Gains(f, f', t)
  {
    var id := SnapshotName(f.nextSnapshot);
    NewNameIsFresh(f);
    assert Seen(f', id, t);
    assert f'.snapshots == f.snapshots[f'.snapshots[id].id := f'.snapshots[id]];
  }

  lemma {:induction false} OwnCreation(f: FakeState, t: Target, reply: Reply, f': FakeState)
    requires t.SnapshotTarget? && FakeInv(f) && t.source in f.volumes && Open(f, t)
    requires CreateSnapshotStep(f, t.name, t.source, t.zone, reply, f')
    ensures reply == Ok && HasSeen(f', t) && (f' == f || Gains(f, f', t))
  {
    OpenIsSeenOrUnused(f, t);
    if id :| SnapshotNamed(f, id, t.name) {
      var other :| SnapshotNamesakeAnswers(f, other, t.name, t.source, reply);
      assert !Foreign(f, other, t);
    } else {
      FreshIsSeen(f, t, reply, f');
    }
  }

  lemma {:induction false} OwnListing(f: FakeState, pc: Pc, n: nat, reply: Reply, t: Target, fallbackZone: string)
    requires t.SnapshotTarget? && FakeInv(f) && pc.Listing? && Heading(f, pc, n, t, fallbackZone)
    requires reply.SnapshotList? && SnapshotListing(f, t.name, t.zone, reply.snapshots)
    ensures Heading(f, Step(pc, reply), n + 1, t, fallbackZone)
  {
    if id :| Seen(f, id, t) {
      ListingOfVisible(f, id, t.name, t.source, t.zone, reply.snapshots);
      assert f.snapshots[id].id == id;
      if pc.stage.Polling? && pc.stage.round > 0 {
        assert pc.stage.previous == id;
      }
    } else {
      OpenIsSeenOrUnused(f, t);
      ListingOfUnseen(f, t, reply.snapshots);
    }
  }

  lemma {:induction false} OwnStep(f: FakeState, pc: Pc, n: nat, reply: Reply, f': FakeState, t: Target,
        fallbackZone: string)
    requires t.SnapshotTarget? && FakeInv(f) && Heading(f, pc, n, t, fallbackZone)
    requires Accepts(pc, reply) && FakeStep(f, CallOf(pc), reply, f')
    requires pc.Sleeping? ==> reply == Ok
    ensures Heading(f', Step(pc, reply), n + 1, t, fallbackZone) && GainsAtMost(t)(f, f')
  {
    match pc
    case ReadingSource(_, _, _, _) =>
    case Listing(_, _, _) => OwnListing(f, pc, n, reply, t, fallbackZone);
    case Creating(_, _) => OwnCreation(f, t, reply, f');
    case Sleeping(_, _, _, _) =>
    case Unlocking(_, _) =>
  }

  lemma {:induction false} OthersStep(f: FakeState, call: Call, reply: Reply, f': FakeState, pc: Pc, n: nat, t: Target,
        fallbackZone: string)
    requires t.SnapshotTarget? && FakeInv(f) && Heading(f, pc, n, t, fallbackZone)
    requires FakeStep(f, call, reply, f') && Spares(f, call, t)
    ensures Heading(f', pc, n, t, fallbackZone)
  {
    BaseStays(f, call, reply, f', t, fallbackZone);
    forall id
      ensures SnapshotNamed(f, id, t.name) ==> id in f'.snapshots && f'.snapshots[id] == f.snapshots[id]
      ensures Seen(f, id, t) ==> Seen(f', id, t)
      ensures Hidden(f', id, t) <==> Hidden(f, id, t)
      ensures Foreign(f', id, t) <==> Foreign(f, id, t)
    {
      NameStays(f, call, reply, f', t, id);
    }
  }

  lemma {:induction false} EntryKeeps(f: FakeState, e: Entry, f': FakeState, who: nat, t: Target, fallbackZone: string)
    requires t.SnapshotTarget? && FakeInv(f) && FakeStep(f, e.call, e.reply, f')
    requires if e.who == who then e.call.Wait? ==> e.reply == Ok else Spares(f, e.call, t)
    ensures Keeps(f, e, f', who, Bound(t, fallbackZone), GainsAtMost(t))
  {
    if e.who == who {
      forall pc, n: nat | Heading(f, pc, n, t, fallbackZone) && Accepts(pc, e.reply) && e.call == CallOf(pc)
        ensures Heading(f', Step(pc, e.reply), n + 1, t, fallbackZone) && GainsAtMost(t)(f, f')
      {
        OwnStep(f, pc, n, e.reply, f', t, fallbackZone);
      }
    } else {
      forall pc, n: nat | Heading(f, pc, n, t, fallbackZone) ensures Heading(f', pc, n, t, fallbackZone) {
        OthersStep(f, e.call, e.reply, f', pc, n, t, fallbackZone);
      }
    }
  }

  // ---------- the theorems ----------

  /** What the request for `t` is, and that nobody interferes with it. */
  ghost predicate Undisputed(fs: seq<FakeState>, h: seq<Entry>, who: nat, t: Target, fallbackZone: string) {
    && t.SnapshotTarget? && History(fs, h) && Based(fs[0], t, fallbackZone)
    && Spared(fs, h, who, t) && WaitsOut(h, who)
  }

  /**
   A snapshot request for an existing source, whose name has neither a snapshot of another source
   nor one in another zone, answers within eight calls, if it is not interfered with, and the
   answer is the snapshot that is stored under its name, source and zone.
   */
  lemma {:induction false} SnapshotSucceeds(fs: seq<FakeState>, h: seq<Entry>, who: nat, lock: Lock, t: Target,
        fallbackZone: string)
    requires Undisputed(fs, h, who, t, fallbackZone) && Open(fs[0], t)
    requires Follows(Enter(lock, TakeSnapshot(t.name, t.source, fallbackZone)), Mine(h, who))
    ensures var end := After(Enter(lock, TakeSnapshot(t.name, t.source, fallbackZone)), Mine(h, who));
            && |Mine(h, who)| <= 8
            && (|Mine(h, who)| == 8 ==> end.Unlocking?)
            && (end.Unlocking? ==> Delivered(fs[|h|], end.outcome, t))
    ensures forall i :: 0 <= i < |h| && h[i].who == who ==> fs[i + 1] == fs[i] || Gains(fs[i], fs[i + 1], t)
  {
    forall i | 0 <= i < |h| ensures Keeps(fs[i], h[i], fs[i + 1], who, Bound(t, fallbackZone), GainsAtMost(t)) {
      InvThroughout(fs, h, 0, i);
      assert h[i] in h;
      EntryKeeps(fs[i], h[i], fs[i + 1], who, t, fallbackZone);
    }
    var pc := Enter(lock, TakeSnapshot(t.name, t.source, fallbackZone));
    RunKeeps(fs, h, who, pc, 0, Bound(t, fallbackZone), GainsAtMost(t));
  }

  // ---------- a name that is taken ----------

  /** Where a request stands whose name belongs to a snapshot it cannot see. */
  ghost predicate HeadingAstray(f: FakeState, pc: Pc, n: nat, t: Target, fallbackZone: string, id: string)
    requires t.SnapshotTarget?
  {
    && Based(f, t, fallbackZone) && Hidden(f, id, t)
    && match pc
       case ReadingSource(_, name, source, fallback) =>
         name == t.name && source == t.source && fallback == fallbackZone
       case Listing(_, target, stage) => target == t && stage != AfterExists
       case Creating(_, target) => target == t
       case Sleeping(_, target, stage, _) => target == t && (stage.Polling? || stage.LastTry?)
       case Unlocking(_, outcome) => outcome == Refused(UnavailableCode)
       case _ => false
  }

  ghost function Astray(t: Target, fallbackZone: string, id: string): Standing
    requires t.SnapshotTarget?
  {
    (f, pc, n: nat) => HeadingAstray(f, pc, n, t, fallbackZone, id)
  }

  lemma {:induction false} CreationOfHidden(f: FakeState, t: Target, id: string, reply: Reply, f': FakeState)
    requires t.SnapshotTarget? && FakeInv(f) && t.source in f.volumes && Hidden(f, id, t)
    requires CreateSnapshotStep(f, t.name, t.source, t.zone, reply, f')
    ensures reply == Ok && f' == f
  {
    var other :| SnapshotNamesakeAnswers(f, other, t.name, t.source, reply);
    assert other == id;
  }

  lemma {:induction false} ListingOfHidden(f: FakeState, pc: Pc, n: nat, reply: Reply, t: Target, fallbackZone: string,
        id: string)
    requires t.SnapshotTarget? && FakeInv(f) && pc.Listing? && HeadingAstray(f, pc, n, t, fallbackZone, id)
    requires reply.SnapshotList? && SnapshotListing(f, t.name, t.zone, reply.snapshots)
    ensures HeadingAstray(f, Step(pc, reply), n + 1, t, fallbackZone, id)
  {
    ListingOfUnseen(f, t, reply.snapshots);
  }

  lemma {:induction false} StepAstray(f: FakeState, pc: Pc, n: nat, reply: Reply, f': FakeState, t: Target,
        fallbackZone: string, id: string)
    requires t.SnapshotTarget? && FakeInv(f) && HeadingAstray(f, pc, n, t, fallbackZone, id)
    requires Accepts(pc, reply) && FakeStep(f, CallOf(pc), reply, f')
    requires pc.Sleeping? ==> reply == Ok
    ensures HeadingAstray(f', Step(pc, reply), n + 1, t, fallbackZone, id) && f' == f
  {
    match pc
    case ReadingSource(_, _, _, _) =>
    case Listing(_, _, _) => ListingOfHidden(f, pc, n, reply, t, fallbackZone, id);
    case Creating(_, _) => CreationOfHidden(f, t, id, reply, f');
    case Sleeping(_, _, _, _) =>
    case Unlocking(_, _) =>
  }

  lemma {:induction false} EntryKeepsAstray(f: FakeState, e: Entry, f': FakeState, who: nat, t: Target,
        fallbackZone: string, id: string)
    requires t.SnapshotTarget? && FakeInv(f) && FakeStep(f, e.call, e.reply, f')
    requires if e.who == who then e.call.Wait? ==> e.reply == Ok else Spares(f, e.call, t)
    ensures Keeps(f, e, f', who, Astray(t, fallbackZone, id), NoChange())
  {
    if e.who == who {
      forall pc, n: nat | HeadingAstray(f, pc, n, t, fallbackZone, id) && Accepts(pc, e.reply) && e.call == CallOf(pc)
        ensures HeadingAstray(f', Step(pc, e.reply), n + 1, t, fallbackZone, id) && f' == f
      {
        StepAstray(f, pc, n, e.reply, f', t, fallbackZone, id);
      }
    } else {
      forall pc, n: nat | HeadingAstray(f, pc, n, t, fallbackZone, id)
        ensures HeadingAstray(f', pc, n, t, fallbackZone, id)
      {
        BaseStays(f, e.call, e.reply, f', t, fallbackZone);
        NameStays(f, e.call, e.reply, f', t, id);
      }
    }
  }

  /**
   If the name's snapshot is of the same source but in another zone, no listing of the request's
   zone shows it, and the provider makes no second one: the answer is Unavailable, however often
   the request is repeated.
   */
  lemma {:induction false} HiddenSnapshotIsUnavailable(fs: seq<FakeState>, h: seq<Entry>, who: nat, lock: Lock,
        t: Target, fallbackZone: string, id: string)
    requires Undisputed(fs, h, who, t, fallbackZone) && Hidden(fs[0], id, t)
    requires Follows(Enter(lock, TakeSnapshot(t.name, t.source, fallbackZone)), Mine(h, who))
    ensures var end := After(Enter(lock, TakeSnapshot(t.name, t.source, fallbackZone)), Mine(h, who));
            end.Unlocking? ==> end.outcome == Refused(UnavailableCode)
    ensures forall i :: 0 <= i < |h| && h[i].who == who ==> fs[i + 1] == fs[i]
  {
    forall i | 0 <= i < |h| ensures Keeps(fs[i], h[i], fs[i + 1], who, Astray(t, fallbackZone, id), NoChange()) {
      InvThroughout(fs, h, 0, i);
      assert h[i] in h;
      EntryKeepsAstray(fs[i], h[i], fs[i + 1], who, t, fallbackZone, id);
    }
    var pc := Enter(lock, TakeSnapshot(t.name, t.source, fallbackZone));
    assert HeadingAstray(fs[0], pc, 0, t, fallbackZone, id);
    RunKeeps(fs, h, who, pc, 0, Astray(t, fallbackZone, id), NoChange());
  }

  /** Drivers with different zones of their own come to this with any source that has none. */
  lemma {:induction false} ZonelessSourceHides(name: string, mine: string, other: string)
    returns (f: FakeState, t: Target, id: string)
    requires mine != "" && other != mine
    ensures FakeInv(f) && t.SnapshotTarget? && t.name == name && Based(f, t, mine)
    ensures Based(f, t.(zone := other), other) && Seen(f, id, t.(zone := other))
    ensures Hidden(f, id, t)
  {
    var source := VolumeName(1);
    id, t := SnapshotName(1), SnapshotTarget(name, source, mine);
    var v := FreshVolume(source, VolumeSpec("data", 1, "", "", false));
    f := FakeState(map[source := v], map[id := Snapshot(id, name, source, 1, true, other)], 2, 2);
    assert MintedVolume(f, source) && MintedSnapshot(f, id);
    assert VolumeInv(f, source);
  }

  /** Where a request stands whose name belongs to another source. */
  ghost predicate HeadingForRefusal(f: FakeState, pc: Pc, n: nat, t: Target, fallbackZone: string, id: string)
    requires t.SnapshotTarget?
  {
    && Based(f, t, fallbackZone) && Foreign(f, id, t)
    && Repelled(pc, t.name, t.source)
    && (pc.Unlocking? ==> pc.outcome == Refused(AlreadyExistsCode))
  }

  ghost function Refusing(t: Target, fallbackZone: string, id: string): Standing
    requires t.SnapshotTarget?
  {
    (f, pc, n: nat) => HeadingForRefusal(f, pc, n, t, fallbackZone, id)
  }

  lemma {:induction false} StepToRefusal(f: FakeState, pc: Pc, n: nat, reply: Reply, f': FakeState, t: Target,
        fallbackZone: string, id: string)
    requires t.SnapshotTarget? && FakeInv(f) && HeadingForRefusal(f, pc, n, t, fallbackZone, id)
    requires Accepts(pc, reply) && FakeStep(f, CallOf(pc), reply, f')
    ensures HeadingForRefusal(f', Step(pc, reply), n + 1, t, fallbackZone, id) && f' == f
  {
    RepelStep(f, pc, reply, f', id, t.name, t.source);
    match pc
    case ReadingSource(_, _, _, _) =>
    case Listing(_, target, _) => ListingOfOccupied(f, id, t.name, t.source, target.zone, reply.snapshots);
    case Creating(_, target) => CreateSnapshotMeaning(f, t.name, t.source, target.zone, reply, f');
    case Unlocking(_, _) =>
  }

  lemma {:induction false} EntryKeepsRefusal(f: FakeState, e: Entry, f': FakeState, who: nat, t: Target,
        fallbackZone: string, id: string)
    requires t.SnapshotTarget? && FakeInv(f) && FakeStep(f, e.call, e.reply, f')
    requires e.who != who ==> Spares(f, e.call, t)
    ensures Keeps(f, e, f', who, Refusing(t, fallbackZone, id), NoChange())
  {
    if e.who == who {
      forall pc, n: nat
        | HeadingForRefusal(f, pc, n, t, fallbackZone, id) && Accepts(pc, e.reply) && e.call == CallOf(pc)
        ensures HeadingForRefusal(f', Step(pc, e.reply), n + 1, t, fallbackZone, id) && f' == f
      {
        StepToRefusal(f, pc, n, e.reply, f', t, fallbackZone, id);
      }
    } else {
      forall pc, n: nat | HeadingForRefusal(f, pc, n, t, fallbackZone, id)
        ensures HeadingForRefusal(f', pc, n, t, fallbackZone, id)
      {
        BaseStays(f, e.call, e.reply, f', t, fallbackZone);
        NameStays(f, e.call, e.reply, f', t, id);
      }
    }
  }

  lemma {:induction false} ForeignIsRefused(fs: seq<FakeState>, h: seq<Entry>, who: nat, lock: Lock, t: Target,
        fallbackZone: string, id: string)
    requires Undisputed(fs, h, who, t, fallbackZone) && Foreign(fs[0], id, t)
    requires Follows(Enter(lock, TakeSnapshot(t.name, t.source, fallbackZone)), Mine(h, who))
    ensures var end := After(Enter(lock, TakeSnapshot(t.name, t.source, fallbackZone)), Mine(h, who));
            end.Unlocking? ==> end.outcome == Refused(AlreadyExistsCode)
    ensures forall i :: 0 <= i < |h| && h[i].who == who ==> fs[i + 1] == fs[i]
  {
    forall i | 0 <= i < |h| ensures Keeps(fs[i], h[i], fs[i + 1], who, Refusing(t, fallbackZone, id), NoChange()) {
      InvThroughout(fs, h, 0, i);
      EntryKeepsRefusal(fs[i], h[i], fs[i + 1], who, t, fallbackZone, id);
    }
    var pc := Enter(lock, TakeSnapshot(t.name, t.source, fallbackZone));
    assert HeadingForRefusal(fs[0], pc, 0, t, fallbackZone, id);
    RunKeeps(fs, h, who, pc, 0, Refusing(t, fallbackZone, id), NoChange());
  }

  /**
   The answer is known beforehand: AlreadyExists if the name has a snapshot of another source,
   Unavailable if it has one in another zone, and otherwise the snapshot.
   */
  lemma {:induction false} SnapshotAnswers(fs: seq<FakeState>, h: seq<Entry>, who: nat, lock: Lock, t: Target,
        fallbackZone: string)
    requires Undisputed(fs, h, who, t, fallbackZone)
    requires Follows(Enter(lock, TakeSnapshot(t.name, t.source, fallbackZone)), Mine(h, who))
    ensures var end := After(Enter(lock, TakeSnapshot(t.name, t.source, fallbackZone)), Mine(h, who));
            end.Unlocking? ==>
              if exists id :: Foreign(fs[0], id, t) then end.outcome == Refused(AlreadyExistsCode)
              else if exists id :: Hidden(fs[0], id, t) then end.outcome == Refused(UnavailableCode)
              else Delivered(fs[|h|], end.outcome, t)
  {
    if id :| Foreign(fs[0], id, t) {
      ForeignIsRefused(fs, h, who, lock, t, fallbackZone, id);
    } else if id :| Hidden(fs[0], id, t) {
      HiddenSnapshotIsUnavailable(fs, h, who, lock, t, fallbackZone, id);
    } else {
      SnapshotSucceeds(fs, h, who, lock, t, fallbackZone);
    }
  }
}
