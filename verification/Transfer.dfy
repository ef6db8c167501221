/**
 Whole runs over the in-memory provider.  Any interleaving of any drivers' RPCs over it is a run
 of the permissive system, with exact reads, so the theorems about all runs hold of it.
 */
module Transfer {
  import opened Ordering
  import opened Reconcile
  import opened Protocol
  import opened System
  import opened Fakes
  import opened Refinement
  import opened Exclusive
  import opened Canonical
  import Agreement
  import Pagination
  import Limits

  /** The RPCs in flight, and the keys they hold. */
  datatype Workers = Workers(held: set<(nat, Lock)>, tasks: map<nat, Task>)

  datatype Act =
    | Comes(task: nat, driver: nat, rpc: Rpc)
    | Acts(task: nat, reply: Reply)

  predicate Fits(w: Workers, act: Act) {
    match act
    case Comes(task, _, _) => task !in w.tasks
    case Acts(task, reply) =>
      task in w.tasks &&
      var Task(driver, _, pc) := w.tasks[task];
      Accepts(pc, reply) && (pc.Locking? ==> (reply.granted <==> (driver, pc.lock) !in w.held))
  }

  /** Locks are the driver's own; every other call is one of the in-memory provider. */
  ghost predicate CanAct(w: Workers, f: FakeState, act: Act, f': FakeState) {
    && Fits(w, act)
    && match act
       case Comes(_, _, _) => f' == f
       case Acts(task, reply) =>
         var pc := w.tasks[task].pc;
         if pc.Locking? || pc.Unlocking? then f' == f else FakeStep(f, CallOf(pc), reply, f')
  }

  function Acted(w: Workers, act: Act): Workers
    requires Fits(w, act)
  {
    match act
    case Comes(task, driver, rpc) => w.(tasks := w.tasks[task := Task(driver, rpc, Begin(rpc))])
    case Acts(task, reply) =>
      var t := w.tasks[task];
      Workers(HeldAfter(w.held, t.driver, t.pc, reply), w.tasks[task := t.(pc := Step(t.pc, reply))])
  }

  /** `fs[i]` is the provider's state before act `i`. */
  ghost predicate FakeRun(w: Workers, fs: seq<FakeState>, acts: seq<Act>)
    decreases |acts|
  {
    && |fs| == |acts| + 1
    && (acts == [] || (CanAct(w, fs[0], acts[0], fs[1]) && FakeRun(Acted(w, acts[0]), fs[1..], acts[1..])))
  }

  ghost function Outcome(w: Workers, fs: seq<FakeState>, acts: seq<Act>): Workers
    requires FakeRun(w, fs, acts)
    decreases |acts|
  {
    if acts == [] then w else Outcome(Acted(w, acts[0]), fs[1..], acts[1..])
  }

  // ---------- the same run of the permissive system ----------

  function StateOf(p: Provider, w: Workers): State {
    State(p, w.held, w.tasks)
  }

  ghost function EventOf(w: Workers, f: FakeState, act: Act, f': FakeState): Event
    requires Fits(w, act)
  {
    match act
    case Comes(task, driver, rpc) => Arrival(task, driver, rpc)
    case Acts(task, reply) =>
      var pc := w.tasks[task].pc;
      Progress(task, reply, if pc.Locking? || pc.Unlocking? then Nothing else EffectOf(f, CallOf(pc), reply, f'))
  }

  ghost function RunOf(w: Workers, fs: seq<FakeState>, acts: seq<Act>): seq<Event>
    requires FakeRun(w, fs, acts)
    decreases |acts|
  {
    if acts == [] then []
    else [EventOf(w, fs[0], acts[0], fs[1])] + RunOf(Acted(w, acts[0]), fs[1..], acts[1..])
  }

  /** The transition of one act is enabled in the system, and ends in corresponding states. */
  ghost predicate Matches(p: Provider, w: Workers, f: FakeState, act: Act, f': FakeState)
    requires Fits(w, act)
  {
    var s, e := StateOf(p, w), EventOf(w, f, act, f');
    && Enabled(s, e) && ExactRead(s, e)
    && var p' := Next(s, e).provider;
    && Next(s, e) == StateOf(p', Acted(w, act))
    && Abstracts(p', f')
    && Grows(p, p')
    && forall ref :: ref in p'.ever ==> ref in p.ever || ref in p'.live
  }

  lemma {:induction false} NewIsLive(p: Provider, call: Call, reply: Reply, effect: Effect)
    requires Permits(p, call, reply, effect)
    ensures var p' := Apply(p, call, reply, effect);
            Grows(p, p') && forall ref :: ref in p'.ever ==> ref in p.ever || ref in p'.live
  {
    EverGrows(p, call, reply, effect);
  }

  lemma {:induction false} CallIsEnabled(p: Provider, w: Workers, f: FakeState, act: Act, f': FakeState)
    requires Fits(w, act) && act.Acts? && !w.tasks[act.task].pc.Locking? && !w.tasks[act.task].pc.Unlocking?
    requires var pc := w.tasks[act.task].pc; Permits(p, CallOf(pc), act.reply, EffectOf(f, CallOf(pc), act.reply, f'))
    ensures var s, e, pc := StateOf(p, w), EventOf(w, f, act, f'), w.tasks[act.task].pc;
            && Enabled(s, e)
            && Next(s, e) == StateOf(Apply(p, CallOf(pc), act.reply, EffectOf(f, CallOf(pc), act.reply, f')),
              Acted(w, act))
  {
  }

  lemma {:induction false} CallTransfers(p: Provider, w: Workers, f: FakeState, act: Act, f': FakeState)
    requires FakeInv(f) && Abstracts(p, f) && CanAct(w, f, act, f')
    requires act.Acts? && !w.tasks[act.task].pc.Locking? && !w.tasks[act.task].pc.Unlocking?
    ensures Matches(p, w, f, act, f')
  {
    var pc := w.tasks[act.task].pc;
    FakeIsPermissive(p, f, CallOf(pc), act.reply, f');
    NewIsLive(p, CallOf(pc), act.reply, EffectOf(f, CallOf(pc), act.reply, f'));
    CallIsEnabled(p, w, f, act, f');
  }

  lemma {:induction false} ActTransfers(p: Provider, w: Workers, f: FakeState, act: Act, f': FakeState)
    requires FakeInv(f) && Abstracts(p, f) && CanAct(w, f, act, f')
    ensures Matches(p, w, f, act, f') && FakeInv(f')
  {
    if act.Acts? && !w.tasks[act.task].pc.Locking? && !w.tasks[act.task].pc.Unlocking? {
      CallTransfers(p, w, f, act, f');
      FakeStepKeepsInv(f, CallOf(w.tasks[act.task].pc), act.reply, f');
    }
  }

  /** Every run over the in-memory provider is a legal run of the system, with exact reads. */
  lemma {:induction false} RunTransfers(p: Provider, w: Workers, fs: seq<FakeState>, acts: seq<Act>)
    requires FakeRun(w, fs, acts) && FakeInv(fs[0]) && Abstracts(p, fs[0])
    ensures var s, run := StateOf(p, w), RunOf(w, fs, acts);
            && Legal(s, run) && AlwaysExact(s, run)
            && Final(s, run) == StateOf(Final(s, run).provider, Outcome(w, fs, acts))
            && Abstracts(Final(s, run).provider, fs[|acts|])
    decreases |acts|
  {
    if acts != [] {
      ActTransfers(p, w, fs[0], acts[0], fs[1]);
      var s, e := StateOf(p, w), EventOf(w, fs[0], acts[0], fs[1]);
      var rest := RunOf(Acted(w, acts[0]), fs[1..], acts[1..]);
      RunTransfers(Next(s, e).provider, Acted(w, acts[0]), fs[1..], acts[1..]);
      Limits.Cons(s, e, rest);
    }
  }

  lemma {:induction false} InvThroughoutRun(w: Workers, fs: seq<FakeState>, acts: seq<Act>, i: nat)
    requires FakeRun(w, fs, acts) && FakeInv(fs[0]) && i <= |acts|
    ensures FakeInv(fs[i])
    decreases i
  {
    if i > 0 {
      if acts[0].Acts? && !w.tasks[acts[0].task].pc.Locking? && !w.tasks[acts[0].task].pc.Unlocking? {
        FakeStepKeepsInv(fs[0], CallOf(w.tasks[acts[0].task].pc), acts[0].reply, fs[1]);
      }
      InvThroughoutRun(Acted(w, acts[0]), fs[1..], acts[1..], i - 1);
    }
  }

  // ---------- what the provider has ever held ----------

  predicate StoredAs(f: FakeState, ref: Ref, key: Key) {
    match ref
    case VolumeRef(id) => id in f.volumes && key == VolumeKey(f.volumes[id].name, f.volumes[id].zone)
    case SnapshotRef(id) => id in f.snapshots && key == SnapshotKey(f.snapshots[id].name, f.snapshots[id].volumeId)
  }

  ghost predicate StoredOnce(fs: seq<FakeState>, ref: Ref, key: Key) {
    exists k :: 0 <= k < |fs| && StoredAs(fs[k], ref, key)
  }

  /** The system remembers of the run exactly what the provider has held in it. */
  lemma {:induction false} EverIsStored(p: Provider, w: Workers, fs: seq<FakeState>, acts: seq<Act>, ref: Ref, key: Key)
    requires FakeRun(w, fs, acts) && FakeInv(fs[0]) && Abstracts(p, fs[0])
    ensures Legal(StateOf(p, w), RunOf(w, fs, acts))
    ensures var ever := Final(StateOf(p, w), RunOf(w, fs, acts)).provider.ever;
            && (StoredOnce(fs, ref, key) ==> ref in ever && ever[ref] == key)
            && (ref in ever && ever[ref] == key ==> ref in p.ever || StoredOnce(fs, ref, key))
    decreases |acts|
  {
    RunTransfers(p, w, fs, acts);
    var s, run := StateOf(p, w), RunOf(w, fs, acts);
    StoredIsEver(p, fs[0], ref, key);
    if acts != [] {
      var e := EventOf(w, fs[0], acts[0], fs[1]);
      ActTransfers(p, w, fs[0], acts[0], fs[1]);
      var p' := Next(s, e).provider;
      EverIsStored(p', Acted(w, acts[0]), fs[1..], acts[1..], ref, key);
      LiveIsStored(p', fs[1], ref);
      StoredOnceSplit(fs, ref, key);
      RestGrows(s, run, ref);
    }
  }

  lemma {:induction false} StoredIsEver(p: Provider, f: FakeState, ref: Ref, key: Key)
    requires FakeInv(f) && Abstracts(p, f)
    ensures StoredAs(f, ref, key) ==> ref in p.ever && p.ever[ref] == key
  {
    if ref.VolumeRef? && ref.id in f.volumes {
      assert VolumeInv(f, ref.id) && TrueVolume(p, f.volumes[ref.id]);
    }
    if ref.SnapshotRef? && ref.id in f.snapshots {
      assert TrueSnapshot(p, f.snapshots[ref.id]);
    }
  }

  lemma {:induction false} LiveIsStored(p: Provider, f: FakeState, ref: Ref)
    requires FakeInv(f) && Abstracts(p, f)
    ensures ref in p.live ==> ref in p.ever && StoredAs(f, ref, p.ever[ref])
  {
    if ref in p.live {
      assert LiveIn(f, ref);
      match ref
      case VolumeRef(id) => assert VolumeInv(f, id) && TrueVolume(p, f.volumes[id]);
      case SnapshotRef(id) => assert TrueSnapshot(p, f.snapshots[id]);
    }
  }

  lemma {:induction false} StoredOnceSplit(fs: seq<FakeState>, ref: Ref, key: Key)
    requires |fs| > 1
    ensures StoredOnce(fs, ref, key) <==> StoredAs(fs[0], ref, key) || StoredOnce(fs[1..], ref, key)
    ensures StoredAs(fs[1], ref, key) ==> StoredOnce(fs[1..], ref, key)
  {
    if StoredOnce(fs[1..], ref, key) {
      var k :| 0 <= k < |fs[1..]| && StoredAs(fs[1..][k], ref, key);
      assert fs[1..][k] == fs[k + 1];
    }
    if k :| 0 < k < |fs| && StoredAs(fs[k], ref, key) {
      assert fs[1..][k - 1] == fs[k];
    }
    assert fs[1..][0] == fs[1];
  }

  /** What is remembered is not forgotten. */
  lemma {:induction false} RestGrows(s: State, run: seq<Event>, ref: Ref)
    requires Legal(s, run) && run != []
    ensures ref in s.provider.ever ==>
              && ref in Next(s, run[0]).provider.ever
              && Next(s, run[0]).provider.ever[ref] == s.provider.ever[ref]
    ensures Next(s, run[0]).provider.ever.Keys <= Final(s, run).provider.ever.Keys
    ensures ref in Next(s, run[0]).provider.ever ==>
      Final(s, run).provider.ever[ref] == Next(s, run[0]).provider.ever[ref]
  {
    if run[0].Progress? {
      EverGrows(s.provider, CallOf(s.tasks[run[0].task].pc), run[0].reply, run[0].effect);
    }
    Agreement.RunGrows(Next(s, run[0]), run[1..]);
  }

  // ---------- the theorems, over the in-memory provider ----------

  function NoWorkers(): Workers {
    Workers({}, map[])
  }

  function EmptyFake(): FakeState {
    FakeState(map[], map[], 1, 1)
  }

  /** No act brings a request to delete the resource. */
  predicate Unasked(acts: seq<Act>, ref: Ref) {
    forall act :: act in acts ==> !(act.Comes? && AsksToDelete(act.rpc, ref))
  }

  lemma {:induction false} ArrivalsAreActs(w: Workers, fs: seq<FakeState>, acts: seq<Act>, e: Event)
    requires FakeRun(w, fs, acts) && e in RunOf(w, fs, acts) && e.Arrival?
    ensures Comes(e.task, e.driver, e.rpc) in acts
    decreases |acts|
  {
    var first := EventOf(w, fs[0], acts[0], fs[1]);
    var rest := RunOf(Acted(w, acts[0]), fs[1..], acts[1..]);
    assert acts[0] in acts;
    if e != first {
      assert e in rest;
      ArrivalsAreActs(Acted(w, acts[0]), fs[1..], acts[1..], e);
      assert acts == [acts[0]] + acts[1..];
    }
  }

  lemma {:induction false} NotAsked(s: State, w: Workers, fs: seq<FakeState>, acts: seq<Act>, ref: Ref)
    requires FakeRun(w, fs, acts) && Legal(s, RunOf(w, fs, acts)) && s.tasks == map[] && Unasked(acts, ref)
    ensures !Asked(Final(s, RunOf(w, fs, acts)), ref)
  {
    var run := RunOf(w, fs, acts);
    var end := Final(s, run);
    if task :| task in end.tasks && AsksToDelete(end.tasks[task].rpc, ref) {
      TasksHaveArrived(s, run, task);
      var e :| e in run && e.Arrival? && e.rpc == end.tasks[task].rpc;
      ArrivalsAreActs(w, fs, acts, e);
    }
  }

  /** The lowest of the resources that the provider has ever held under the key. */
  ghost predicate LowestStored(fs: seq<FakeState>, low: Ref, key: Key) {
    && StoredOnce(fs, low, key)
    && forall ref :: StoredOnce(fs, ref, key) ==> Leq(low.id, ref.id)
  }

  /** A run over an initially empty in-memory provider, as the permissive system sees it. */
  ghost function SystemRun(fs: seq<FakeState>, acts: seq<Act>): seq<Event>
    requires FakeRun(NoWorkers(), fs, acts)
  {
    RunOf(NoWorkers(), fs, acts)
  }

  ghost function Start(): State {
    StateOf(Provider(map[], {}, map[]), NoWorkers())
  }

  lemma {:induction false} LowestStoredIsLowest(fs: seq<FakeState>, acts: seq<Act>, low: Ref, key: Key)
    requires FakeRun(NoWorkers(), fs, acts) && fs[0] == EmptyFake() && LowestStored(fs, low, key)
    ensures Initial(Start()) && Legal(Start(), SystemRun(fs, acts))
    ensures var ever := Final(Start(), SystemRun(fs, acts)).provider.ever;
            low in ever && ever[low] == key && Lowest(ever, low)
  {
    EmptyFakeIsEmptyProvider();
    var p := Start().provider;
    EverIsStored(p, NoWorkers(), fs, acts, low, key);
    var ever := Final(Start(), SystemRun(fs, acts)).provider.ever;
    forall other | Siblings(ever, low, other) ensures Leq(low.id, other.id) {
      EverIsStored(p, NoWorkers(), fs, acts, other, key);
    }
  }

  /**
   Survival: starting from an empty in-memory provider, with any number of drivers and RPCs
   interleaved call by call, the lowest volume ever stored under a name and zone, or snapshot under
   a name and source, is stored at the end, unless a request named it for deletion.
   */
  lemma {:induction false} LowestSurvivesInMemory(fs: seq<FakeState>, acts: seq<Act>, low: Ref, key: Key)
    requires FakeRun(NoWorkers(), fs, acts) && fs[0] == EmptyFake()
    requires LowestStored(fs, low, key) && Unasked(acts, low)
    ensures StoredAs(fs[|acts|], low, key)
  {
    LowestStoredIsLowest(fs, acts, low, key);
    EmptyFakeIsEmptyProvider();
    RunTransfers(Start().provider, NoWorkers(), fs, acts);
    LowestSurvives(Start(), SystemRun(fs, acts), low);
    NotAsked(Start(), NoWorkers(), fs, acts, low);
    InvThroughoutRun(NoWorkers(), fs, acts, |acts|);
    LiveIsStored(Final(Start(), SystemRun(fs, acts)).provider, fs[|acts|], low);
  }

  /**
   Agreement: a create over the in-memory provider returns the lowest ID ever stored under its
   name if and only if its last listing showed it.
   */
  lemma {:induction false} ReturnsLowestInMemoryIff(fs: seq<FakeState>, acts: seq<Act>, low: Ref, key: Key, a: nat)
    requires FakeRun(NoWorkers(), fs, acts) && fs[0] == EmptyFake() && LowestStored(fs, low, key)
    requires Legal(Start(), SystemRun(fs, acts)) && Agreement.Returns(Final(Start(), SystemRun(fs, acts)), a, key)
    ensures var last := Agreement.LastListing(Start(), SystemRun(fs, acts), a, Pagination.None);
            && last.Some?
            && (Agreement.ReturnedId(Final(Start(), SystemRun(fs, acts)), a, key) == low.id <==>
              Agreement.Lists(last.value, low.id))
  {
    LowestStoredIsLowest(fs, acts, low, key);
    var k :| 0 <= k < |fs| && StoredAs(fs[k], low, key);
    assert low == Agreement.KeyRef(key, low.id);
    Agreement.ReturnsLowestIff(Start(), SystemRun(fs, acts), key, low.id, a);
  }

  /**
   Exclusivity: over the in-memory provider no volume is ever attached to two nodes, whichever
   drivers publish what; it refuses the second attach itself.
   */
  lemma {:induction false} NeverOnTwoNodesInMemory(fs: seq<FakeState>, acts: seq<Act>, i: nat, id: string)
    requires FakeRun(NoWorkers(), fs, acts) && fs[0] == EmptyFake() && i <= |acts|
    requires id in fs[i].volumes
    ensures OneNode(fs[i].volumes[id].attachments)
  {
    EmptyFakeIsEmptyProvider();
    InvThroughoutRun(NoWorkers(), fs, acts, i);
    assert VolumeInv(fs[i], id);
  }
}
