/**
 Where attach exclusivity and agreement end: runs, for every provider and all requests and reads
 of the dangerous kind, in which a volume comes to be attached to two nodes, and in which a create
 misses the lowest ID.  With the theorems of `Exclusive` they give an exact condition.
 */
module Limits {
  import opened Ordering
  import opened Cloud
  import opened Reconcile
  import opened Protocol
  import opened System
  import opened Exclusive
  import Agreement

  // ---------- two RPCs ----------

  function Two(p: Provider, held: set<(nat, Lock)>, t0: Task, t1: Task): State {
    State(p, held, map[0 := t0, 1 := t1])
  }

  function Moved(t: Task, reply: Reply): Task
    requires Accepts(t.pc, reply)
  {
    t.(pc := Step(t.pc, reply))
  }

  predicate Quiet(run: seq<Event>) {
    forall e :: e in run ==> e.Progress?
  }

  predicate ReadsTruly(p: Provider, pc: Pc, reply: Reply) {
    pc.Checking? && reply.OneVolume? ==> reply.volume.attachments == AttachmentsOf(p, pc.id)
  }

  lemma {:induction false} Cons(s: State, e: Event, rest: seq<Event>)
    requires Enabled(s, e) && Legal(Next(s, e), rest)
    ensures Legal(s, [e] + rest) && Final(s, [e] + rest) == Final(Next(s, e), rest)
    ensures AlwaysExact(Next(s, e), rest) && ExactRead(s, e) ==> AlwaysExact(s, [e] + rest)
  {
    assert ([e] + rest)[1..] == rest;
  }

  /** A step of the first RPC, before a run that goes on from there. */
  lemma {:induction false} First(p: Provider, held: set<(nat, Lock)>, t0: Task, t1: Task, reply: Reply, effect: Effect,
        rest: seq<Event>)
    returns (run: seq<Event>)
    requires Accepts(t0.pc, reply) && Permits(p, CallOf(t0.pc), reply, effect)
    requires t0.pc.Locking? ==> (reply.granted <==> (t0.driver, t0.pc.lock) !in held)
    requires Legal(Two(Apply(p, CallOf(t0.pc), reply, effect), HeldAfter(held, t0.driver, t0.pc, reply),
      Moved(t0, reply), t1), rest)
    ensures var next := Two(Apply(p, CallOf(t0.pc), reply, effect), HeldAfter(held, t0.driver, t0.pc, reply),
      Moved(t0, reply), t1);
            && Legal(Two(p, held, t0, t1), run)
            && Final(Two(p, held, t0, t1), run) == Final(next, rest)
            && (AlwaysExact(next, rest) && ReadsTruly(p, t0.pc, reply) ==> AlwaysExact(Two(p, held, t0, t1), run))
    ensures Quiet(rest) ==> Quiet(run)
  {
    var s, e := Two(p, held, t0, t1), Progress(0, reply, effect);
    assert Next(s, e) == Two(Apply(p, CallOf(t0.pc), reply, effect), HeldAfter(held, t0.driver, t0.pc, reply),
      Moved(t0, reply), t1);
    run := [e] + rest;
    Cons(s, e, rest);
  }

  /** A step of the second RPC, likewise. */
  lemma {:induction false} Second(p: Provider, held: set<(nat, Lock)>, t0: Task, t1: Task, reply: Reply,
        effect: Effect, rest: seq<Event>)
    returns (run: seq<Event>)
    requires Accepts(t1.pc, reply) && Permits(p, CallOf(t1.pc), reply, effect)
    requires t1.pc.Locking? ==> (reply.granted <==> (t1.driver, t1.pc.lock) !in held)
    requires Legal(Two(Apply(p, CallOf(t1.pc), reply, effect), HeldAfter(held, t1.driver, t1.pc, reply), t0,
      Moved(t1, reply)), rest)
    ensures var next := Two(Apply(p, CallOf(t1.pc), reply, effect), HeldAfter(held, t1.driver, t1.pc, reply), t0,
      Moved(t1, reply));
            && Legal(Two(p, held, t0, t1), run)
            && Final(Two(p, held, t0, t1), run) == Final(next, rest)
            && (AlwaysExact(next, rest) && ReadsTruly(p, t1.pc, reply) ==> AlwaysExact(Two(p, held, t0, t1), run))
    ensures Quiet(rest) ==> Quiet(run)
  {
    var s, e := Two(p, held, t0, t1), Progress(1, reply, effect);
    assert Next(s, e) == Two(Apply(p, CallOf(t1.pc), reply, effect), HeldAfter(held, t1.driver, t1.pc, reply), t0,
      Moved(t1, reply));
    run := [e] + rest;
    Cons(s, e, rest);
  }

  function Entered(driver: nat, rpc: Rpc, lock: Lock): Task {
    Task(driver, rpc, Enter(lock, rpc))
  }

  /** Both take their locks, which differ. */
  lemma {:induction false} BothEnter(p: Provider, d0: nat, d1: nat, rpc0: Rpc, rpc1: Rpc, lock0: Lock, lock1: Lock,
        rest: seq<Event>)
    returns (run: seq<Event>)
    requires Begin(rpc0) == Locking(lock0, rpc0) && Begin(rpc1) == Locking(lock1, rpc1)
    requires (d0, lock0) != (d1, lock1)
    requires Legal(Two(p, {(d0, lock0), (d1, lock1)}, Entered(d0, rpc0, lock0), Entered(d1, rpc1, lock1)), rest)
    ensures var s, next := Two(p, {}, Task(d0, rpc0, Begin(rpc0)), Task(d1, rpc1, Begin(rpc1))),
                           Two(p, {(d0, lock0), (d1, lock1)}, Entered(d0, rpc0, lock0), Entered(d1, rpc1, lock1));
            && Legal(s, run)
            && Final(s, run) == Final(next, rest)
            && (AlwaysExact(next, rest) ==> AlwaysExact(s, run))
    ensures Quiet(rest) ==> Quiet(run)
  {
    var one: set<(nat, Lock)> := {(d0, lock0)};
    var both: set<(nat, Lock)> := {(d0, lock0), (d1, lock1)};
    var t0, t1 := Task(d0, rpc0, Begin(rpc0)), Task(d1, rpc1, Begin(rpc1));
    assert HeldAfter(one, d1, Begin(rpc1), Granted(true)) == both;
    run := Second(p, one, Entered(d0, rpc0, lock0), t1, Granted(true), Nothing, rest);
    assert HeldAfter({}, d0, Begin(rpc0), Granted(true)) == one;
    run := First(p, {}, t0, t1, Granted(true), Nothing, run);
  }

  function Arrivals(d0: nat, d1: nat, rpc0: Rpc, rpc1: Rpc): seq<Event> {
    [Arrival(0, d0, rpc0), Arrival(1, d1, rpc1)]
  }

  /** A whole run: both arrive, and go on. */
  lemma {:induction false} BothArrive(p: Provider, d0: nat, d1: nat, rpc0: Rpc, rpc1: Rpc, rest: seq<Event>)
    returns (run: seq<Event>)
    requires p.live == p.ever.Keys
    requires Legal(Two(p, {}, Task(d0, rpc0, Begin(rpc0)), Task(d1, rpc1, Begin(rpc1))), rest)
    ensures var s, next := State(p, {}, map[]), Two(p, {}, Task(d0, rpc0, Begin(rpc0)), Task(d1, rpc1, Begin(rpc1)));
            && Initial(s) && Legal(s, run)
            && Final(s, run) == Final(next, rest)
            && (AlwaysExact(next, rest) ==> AlwaysExact(s, run))
    ensures run == Arrivals(d0, d1, rpc0, rpc1) + rest
  {
    var s := State(p, {}, map[]);
    var s1 := Next(s, Arrival(0, d0, rpc0));
    var s2 := Next(s1, Arrival(1, d1, rpc1));
    assert s2 == Two(p, {}, Task(d0, rpc0, Begin(rpc0)), Task(d1, rpc1, Begin(rpc1)));
    Cons(s1, Arrival(1, d1, rpc1), rest);
    run := [Arrival(0, d0, rpc0)] + ([Arrival(1, d1, rpc1)] + rest);
    Cons(s, Arrival(0, d0, rpc0), [Arrival(1, d1, rpc1)] + rest);
    assert run == Arrivals(d0, d1, rpc0, rpc1) + rest;
  }

  // ---------- two publishes ----------

  lemma {:induction false} TwoAttaches(p: Provider, v: string, a: string, b: string, zone: string)
    returns (p1: Provider, p2: Provider)
    requires VolumeRef(v) in p.live && AttachmentsOf(p, v) == [] && a != b
    ensures Permits(p, AttachVolume(v, a, zone), Device("x"), Attaches("x"))
    ensures p1 == Apply(p, AttachVolume(v, a, zone), Device("x"), Attaches("x"))
    ensures Permits(p1, AttachVolume(v, b, zone), Device("y"), Attaches("y"))
    ensures p2 == Apply(p1, AttachVolume(v, b, zone), Device("y"), Attaches("y"))
    ensures !OneNode(AttachmentsOf(p2, v))
  {
    p1 := Apply(p, AttachVolume(v, a, zone), Device("x"), Attaches("x"));
    assert AttachmentsOf(p1, v) == [Attachment(a, "x")];
    p2 := Apply(p1, AttachVolume(v, b, zone), Device("y"), Attaches("y"));
    assert AttachmentsOf(p2, v) == [Attachment(a, "x"), Attachment(b, "y")];
    assert AttachmentsOf(p2, v)[0].instance == a;
    assert AttachmentsOf(p2, v)[1].instance == b;
  }

  /** Both have read the volume as free; each then attaches it. */
  lemma {:induction false} BothAttach(p: Provider, held: set<(nat, Lock)>, t0: Task, t1: Task, lock: Lock, v: string,
        a: string, b: string, zone: string)
    returns (run: seq<Event>)
    requires VolumeRef(v) in p.live && AttachmentsOf(p, v) == [] && a != b
    requires t0.pc == Attaching(lock, v, a, zone) && t1.pc == Attaching(lock, v, b, zone)
    ensures var s := Two(p, held, t0, t1);
            Legal(s, run) && AlwaysExact(s, run) && !OneNode(AttachmentsOf(Final(s, run).provider, v))
    ensures Quiet(run)
  {
    var p1, p2 := TwoAttaches(p, v, a, b, zone);
    run := Second(p1, held, Moved(t0, Device("x")), t1, Device("y"), Attaches("y"), []);
    run := First(p, held, t0, t1, Device("x"), Attaches("x"), run);
  }

  function Unattached(id: string): Volume {
    Volume(id, "", 0, Available, "zone", "", false, false, [])
  }

  /** Both read the volume as free, and go on to attach it. */
  lemma {:induction false} BothCheckAndAttach(p: Provider, held: set<(nat, Lock)>, t0: Task, t1: Task, lock: Lock,
        v: string, a: string, b: string)
    returns (run: seq<Event>)
    requires VolumeRef(v) in p.live && AttachmentsOf(p, v) == [] && a != b
    requires t0.pc == Checking(lock, v, a, "") && t1.pc == Checking(lock, v, b, "")
    ensures var s := Two(p, held, t0, t1);
            Legal(s, run) && AlwaysExact(s, run) && !OneNode(AttachmentsOf(Final(s, run).provider, v))
    ensures Quiet(run)
  {
    var read := OneVolume(Unattached(v));
    run := BothAttach(p, held, Moved(t0, read), Moved(t1, read), lock, v, a, b, "zone");
    run := Second(p, held, Moved(t0, read), t1, read, Nothing, run);
    run := First(p, held, t0, t1, read, Nothing, run);
  }

  lemma {:induction false} CoveredByTwo(d0: nat, d1: nat, rpc0: Rpc, rpc1: Rpc, rest: seq<Event>,
        wanted: set<Publication>)
    requires Quiet(rest) && rpc0.Publish? && rpc1.Publish?
    requires Publication(d0, rpc0.id, rpc0.node) in wanted && Publication(d1, rpc1.id, rpc1.node) in wanted
    ensures Covered(Arrivals(d0, d1, rpc0, rpc1) + rest, wanted)
  {
  }

  /**
   The locks live in one process: any two drivers that want one free volume on two nodes can
   attach it to both, although each reads the true attachments first.
   */
  lemma {:induction false} TwoDriversAttachTwice(p: Provider, x: Publication, y: Publication) returns (run: seq<Event>)
    requires p.live == p.ever.Keys && VolumeRef(x.volume) in p.live && AttachmentsOf(p, x.volume) == []
    requires Rivals(x, y)
    ensures var s := State(p, {}, map[]);
            && Initial(s) && Legal(s, run) && AlwaysExact(s, run)
            && !OneNode(AttachmentsOf(Final(s, run).provider, x.volume))
    ensures Covered(run, {x, y})
  {
    var v := x.volume;
    var rpc0, rpc1 := Publish(v, x.node, ""), Publish(v, y.node, "");
    var lock := Lock(Volumes, v);
    var t0, t1 := Entered(x.driver, rpc0, lock), Entered(y.driver, rpc1, lock);
    var rest := BothCheckAndAttach(p, {(x.driver, lock), (y.driver, lock)}, t0, t1, lock, v, x.node, y.node);
    rest := BothEnter(p, x.driver, y.driver, rpc0, rpc1, lock, lock, rest);
    run := BothArrive(p, x.driver, y.driver, rpc0, rpc1, rest);
    CoveredByTwo(x.driver, y.driver, rpc0, rpc1, rest, {x, y});
  }

  // ---------- one RPC alone ----------

  function One(p: Provider, held: set<(nat, Lock)>, t: Task): State {
    State(p, held, map[0 := t])
  }

  lemma {:induction false} ConsAdmitted(s: State, e: Event, rest: seq<Event>, stale: set<Publication>)
    requires Enabled(s, e) && Legal(Next(s, e), rest)
    ensures Legal(s, [e] + rest)
    ensures AlwaysAdmitted(Next(s, e), rest, stale) && AdmittedRead(s, e, stale) ==>
      AlwaysAdmitted(s, [e] + rest, stale)
  {
    assert ([e] + rest)[1..] == rest;
  }

  /** A step of a publish whose reads may show anything, or of any other RPC, alone. */
  lemma {:induction false} Alone(p: Provider, held: set<(nat, Lock)>, t: Task, reply: Reply, effect: Effect,
                                 rest: seq<Event>, stale: set<Publication>)
    returns (run: seq<Event>)
    requires Accepts(t.pc, reply) && Permits(p, CallOf(t.pc), reply, effect)
    requires t.pc.Locking? ==> (reply.granted <==> (t.driver, t.pc.lock) !in held)
    requires t.pc.Checking? ==> Publication(t.driver, t.pc.id, t.pc.node) in stale
    requires Legal(One(Apply(p, CallOf(t.pc), reply, effect), HeldAfter(held, t.driver, t.pc, reply), Moved(t, reply)),
      rest)
    ensures var next := One(Apply(p, CallOf(t.pc), reply, effect), HeldAfter(held, t.driver, t.pc, reply),
      Moved(t, reply));
            && Legal(One(p, held, t), run)
            && Final(One(p, held, t), run) == Final(next, rest)
            && (AlwaysAdmitted(next, rest, stale) ==> AlwaysAdmitted(One(p, held, t), run, stale))
    ensures Quiet(rest) ==> Quiet(run)
  {
    var s, e := One(p, held, t), Progress(0, reply, effect);
    assert Next(s, e) == One(Apply(p, CallOf(t.pc), reply, effect), HeldAfter(held, t.driver, t.pc, reply),
      Moved(t, reply));
    run := [e] + rest;
    Cons(s, e, rest);
    ConsAdmitted(s, e, rest, stale);
  }

  /** A whole run: the RPC arrives, takes its lock, and goes on. */
  lemma {:induction false} ArrivesAlone(p: Provider, d: nat, rpc: Rpc, lock: Lock, rest: seq<Event>,
        stale: set<Publication>)
    returns (run: seq<Event>)
    requires p.live == p.ever.Keys && Begin(rpc) == Locking(lock, rpc)
    requires Legal(One(p, {(d, lock)}, Entered(d, rpc, lock)), rest)
    ensures var s, next := State(p, {}, map[]), One(p, {(d, lock)}, Entered(d, rpc, lock));
            && Initial(s) && Legal(s, run)
            && Final(s, run) == Final(next, rest)
            && (AlwaysAdmitted(next, rest, stale) ==> AlwaysAdmitted(s, run, stale))
    ensures Quiet(rest) && rpc.Publish? && Publication(d, rpc.id, rpc.node) in stale ==> Covered(run, stale)
  {
    var s, e := State(p, {}, map[]), Arrival(0, d, rpc);
    var t := Task(d, rpc, Begin(rpc));
    assert HeldAfter({}, d, Begin(rpc), Granted(true)) == {(d, lock)};
    var later := Alone(p, {}, t, Granted(true), Nothing, rest, stale);
    assert Next(s, e) == One(p, {}, t);
    run := [e] + later;
    Cons(s, e, later);
    ConsAdmitted(s, e, later, stale);
  }

  // ---------- a publish led on by a wrong read ----------

  /** A read that hides the attachment a volume has lets one publish, alone, attach it to a second node. */
  lemma {:induction false} BlindPublishAttachesTwice(p: Provider, x: Publication) returns (run: seq<Event>)
    requires p.live == p.ever.Keys && VolumeRef(x.volume) in p.live && x.volume != "" && x.node != ""
    requires AttachmentsOf(p, x.volume) != [] && AttachmentsOf(p, x.volume)[0].instance != x.node
    ensures var s := State(p, {}, map[]);
            && Initial(s) && Legal(s, run) && AlwaysAdmitted(s, run, {x})
            && !OneNode(AttachmentsOf(Final(s, run).provider, x.volume))
    ensures Covered(run, {x})
  {
    var v, rpc, lock := x.volume, Publish(x.volume, x.node, ""), Lock(Volumes, x.volume);
    var held: set<(nat, Lock)> := {(x.driver, lock)};
    var read := OneVolume(Unattached(v));
    var t := Entered(x.driver, rpc, lock);
    var p' := Apply(p, AttachVolume(v, x.node, "zone"), Device("x"), Attaches("x"));
    var truth := AttachmentsOf(p', v);
    assert truth == AttachmentsOf(p, v) + [Attachment(x.node, "x")];
    assert truth[0].instance != x.node && truth[|truth| - 1].instance == x.node;
    run := Alone(p, held, Moved(t, read), Device("x"), Attaches("x"), [], {x});
    run := Alone(p, held, t, read, Nothing, run, {x});
    run := ArrivesAlone(p, x.driver, rpc, lock, run, {x});
  }

  /**
   In every run that publishes only what is wanted, with sound reads except for the publications in
   `stale`, no volume gets to two nodes.
   */
  ghost predicate Exclusivity(wanted: set<Publication>, stale: set<Publication>) {
    forall s, run ::
      Initial(s) && AllOneNode(s.provider) && Legal(s, run) && AlwaysAdmitted(s, run, stale) && Covered(run, wanted) ==>
        AllOneNode(Final(s, run).provider)
  }

  lemma {:induction false} MoreAdmitted(s: State, run: seq<Event>, few: set<Publication>, many: set<Publication>)
    requires Legal(s, run) && AlwaysAdmitted(s, run, few) && few <= many
    ensures AlwaysAdmitted(s, run, many)
    decreases |run|
  {
    if run != [] {
      MoreAdmitted(Next(s, run[0]), run[1..], few, many);
    }
  }

  lemma {:induction false} RivalsRefute(wanted: set<Publication>, stale: set<Publication>, x: Publication,
        y: Publication)
    requires x in wanted && y in wanted && Rivals(x, y)
    ensures !Exclusivity(wanted, stale)
  {
    var ref := VolumeRef(x.volume);
    var p := Provider(map[ref := VolumeKey("", "")], {ref}, map[]);
    var run := TwoDriversAttachTwice(p, x, y);
    var s := State(p, {}, map[]);
    ExactIsAdmitted(s, run, stale);
    assert AllOneNode(s.provider) && Covered(run, wanted);
    assert !AllOneNode(Final(s, run).provider);
  }

  lemma {:induction false} BlindPublishRefutes(wanted: set<Publication>, stale: set<Publication>, x: Publication)
    requires x in wanted && x in stale && x.volume != "" && x.node != ""
    ensures !Exclusivity(wanted, stale)
  {
    var ref := VolumeRef(x.volume);
    var elsewhere := x.node + "'";
    assert elsewhere != x.node by {
      assert |elsewhere| == |x.node| + 1;
    }
    var p := Provider(map[ref := VolumeKey("", "")], {ref}, map[x.volume := [Attachment(elsewhere, "x")]]);
    var run := BlindPublishAttachesTwice(p, x);
    var s := State(p, {}, map[]);
    MoreAdmitted(s, run, {x}, stale);
    assert AllOneNode(s.provider) && Covered(run, wanted);
    assert !AllOneNode(Final(s, run).provider);
  }

  /**
   Attachments are exclusive exactly when no two drivers want one volume on two nodes and no
   publication that gets as far as reading is at the mercy of a wrong read.
   */
  lemma {:induction false} ExclusiveIff(wanted: set<Publication>, stale: set<Publication>)
    ensures Exclusivity(wanted, stale) <==> Peaceful(wanted) && Sighted(wanted, stale)
  {
    if !Peaceful(wanted) {
      var x, y :| x in wanted && y in wanted && Rivals(x, y);
      RivalsRefute(wanted, stale, x, y);
    } else if !Sighted(wanted, stale) {
      var x :| x in wanted && x in stale && x.volume != "" && x.node != "";
      BlindPublishRefutes(wanted, stale, x);
    } else {
      forall s, run |
        Initial(s) && AllOneNode(s.provider) && Legal(s, run) && AlwaysAdmitted(s, run, stale) && Covered(run, wanted)
        ensures AllOneNode(Final(s, run).provider)
      {
        NeverOnTwoNodes(s, run, wanted, stale);
      }
    }
  }

  // ---------- a create whose listing hides namesakes ----------

  /** A free volume made of the specification. */
  function Copy(id: string, spec: VolumeSpec): Volume {
    Volume(id, spec.name, spec.size, Available, spec.zone, spec.kind, spec.encrypted, false, [])
  }

  /** A request for a resource of the key. */
  function RequestFor(key: Key): Rpc {
    match key
    case VolumeKey(name, zone) => Create(VolumeSpec(name, 1, zone, "", false))
    case SnapshotKey(name, source) => TakeSnapshot(name, source, "")
  }

  /** A create sees one volume of the name, whatever others there are, and takes it. */
  lemma {:induction false} OneVolumeSeen(p: Provider, d: nat, spec: VolumeSpec, id: string, lock: Lock)
    returns (run: seq<Event>)
    requires VolumeRef(id) in p.ever && p.ever[VolumeRef(id)] == VolumeKey(spec.name, spec.zone)
    ensures var s := One(p, {(d, lock)}, Entered(d, Create(spec), lock));
            && Legal(s, run)
            && Final(s, run) == One(p, {}, Task(d, Create(spec), Finished(Returned(FoundVolume(Copy(id, spec))))))
  {
    var v := Copy(id, spec);
    var held: set<(nat, Lock)> := {(d, lock)};
    var t := Entered(d, Create(spec), lock);
    PlanOfOne(v, spec);
    var verifying := Moved(t, VolumeList([v]));
    assert verifying.pc == Verifying(lock, spec, id);
    run := VerifiedAlone(p, verifying, spec, id, lock);
    run := Alone(p, held, t, VolumeList([v]), Nothing, run, {});
  }

  lemma {:induction false} VerifiedAlone(p: Provider, t: Task, spec: VolumeSpec, id: string, lock: Lock)
    returns (run: seq<Event>)
    requires t.pc == Verifying(lock, spec, id)
    ensures var s := One(p, {(t.driver, lock)}, t);
            Legal(s, run) && Final(s, run) == One(p, {}, t.(pc := Finished(Returned(FoundVolume(Copy(id, spec))))))
  {
    var held: set<(nat, Lock)> := {(t.driver, lock)};
    var verified := Moved(t, OneVolume(Copy(id, spec)));
    assert verified.pc == Unlocking(lock, Returned(FoundVolume(Copy(id, spec))));
    run := Alone(p, held, verified, Ok, Nothing, [], {});
    run := Alone(p, held, t, OneVolume(Copy(id, spec)), Nothing, run, {});
  }

  lemma {:induction false} PlanOfOne(v: Volume, spec: VolumeSpec)
    requires v.name == spec.name && CompatibleVolume(v, spec)
    ensures PlanVolumes([v], spec) == Keep(FoundVolume(v), [])
  {
    assert Namesakes([v], spec.name) == [v];
    assert Sort([v], VolumeId) == [v];
  }

  lemma {:induction false} OneSnapshotSeen(p: Provider, d: nat, name: string, source: string, id: string, lock: Lock)
    returns (run: seq<Event>)
    requires SnapshotRef(id) in p.ever && p.ever[SnapshotRef(id)] == SnapshotKey(name, source)
    ensures var s := One(p, {(d, lock)}, Entered(d, TakeSnapshot(name, source, ""), lock));
            && Legal(s, run)
            && Final(s, run) == One(p, {}, Task(d, TakeSnapshot(name, source, ""),
                 Finished(Returned(FoundSnapshot(Snapshot(id, name, source, 0, true, "zone"))))))
  {
    var shot := Snapshot(id, name, source, 0, true, "zone");
    var held: set<(nat, Lock)> := {(d, lock)};
    var t := Entered(d, TakeSnapshot(name, source, ""), lock);
    var t1 := Moved(t, OneVolume(Unattached(source)));
    assert t1.pc == Listing(lock, SnapshotTarget(name, source, "zone"), BeforeCreate);
    SnapshotPlanOfOne(shot, name, source, "zone");
    var t2 := Moved(t1, SnapshotList([shot]));
    assert t2.pc == Unlocking(lock, Returned(FoundSnapshot(shot)));
    run := Alone(p, held, t2, Ok, Nothing, [], {});
    run := Alone(p, held, t1, SnapshotList([shot]), Nothing, run, {});
    run := Alone(p, held, t, OneVolume(Unattached(source)), Nothing, run, {});
  }

  lemma {:induction false} SnapshotPlanOfOne(shot: Snapshot, name: string, source: string, zone: string)
    requires shot.name == name && shot.volumeId == source && shot.zone == zone
    ensures PlanSnapshots([shot], name, source, zone) == Keep(FoundSnapshot(shot), [])
  {
    assert SnapshotNamesakes([shot], name, zone) == [shot];
    assert Sort([shot], SnapshotId) == [shot];
    assert SnapshotIds([]) == [];
  }

  /**
   Whichever resource of a name it is, and however many lower ones there are: a create that is
   shown only this one returns it.
   */
  lemma {:induction false} HiddenLowestIsMissed(p: Provider, key: Key, id: string, d: nat) returns (run: seq<Event>)
    requires p.live == p.ever.Keys
    requires key.name != "" && (key.SnapshotKey? ==> key.source != "")
    requires Agreement.KeyRef(key, id) in p.ever && p.ever[Agreement.KeyRef(key, id)] == key
    ensures var s := State(p, {}, map[]);
            && Initial(s) && Legal(s, run)
            && Final(s, run).provider == p
            && Agreement.Returns(Final(s, run), 0, key) && Agreement.ReturnedId(Final(s, run), 0, key) == id
  {
    var rpc := RequestFor(key);
    match key
    case VolumeKey(name, zone) =>
      var lock := Lock(Names, name);
      run := OneVolumeSeen(p, d, rpc.spec, id, lock);
      run := ArrivesAlone(p, d, rpc, lock, run, {});
    case SnapshotKey(name, source) =>
      var lock := SnapshotLock(name);
      run := OneSnapshotSeen(p, d, name, source, id, lock);
      run := ArrivesAlone(p, d, rpc, lock, run, {});
  }
}
