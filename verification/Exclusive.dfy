/**
 Attach exclusivity.  Publishing reads the volume and attaches it later; the lock held in
 between is what keeps a second publish of the same driver out, and no lock is shared between
 drivers.
 */
module Exclusive {
  import opened Cloud
  import opened Protocol
  import opened System
  import opened Locking

  /** All attachments are to `node`. */
  predicate OnlyNode(attachments: seq<Attachment>, node: string) {
    forall i :: 0 <= i < |attachments| ==> attachments[i].instance == node
  }

  predicate OneNode(attachments: seq<Attachment>) {
    forall i, j :: 0 <= i < |attachments| && 0 <= j < |attachments| ==>
      attachments[i].instance == attachments[j].instance
  }

  // ---------- which runs are meant ----------

  /** A publish that reads the volume sees the attachments as they are. */
  predicate ExactRead(s: State, e: Event)
    requires Enabled(s, e)
  {
    e.Progress? && s.tasks[e.task].pc.Checking? && e.reply.OneVolume? ==>
      e.reply.volume.attachments == AttachmentsOf(s.provider, s.tasks[e.task].pc.id)
  }

  predicate AlwaysExact(s: State, run: seq<Event>)
    requires Legal(s, run)
    decreases |run|
  {
    run == [] || (ExactRead(s, run[0]) && AlwaysExact(Next(s, run[0]), run[1..]))
  }

  datatype Publication = Publication(driver: nat, volume: string, node: string)

  /**
   A read of a volume that is on one node at most does not lead on to attaching it elsewhere.  The
   read may be wrong in any other way.
   */
  predicate SoundRead(s: State, e: Event)
    requires Enabled(s, e)
  {
    e.Progress? && s.tasks[e.task].pc.Checking? && Step(s.tasks[e.task].pc, e.reply).Attaching? ==>
      var truth := AttachmentsOf(s.provider, s.tasks[e.task].pc.id);
      OneNode(truth) ==> OnlyNode(truth, s.tasks[e.task].pc.node)
  }

  /** Reads are sound, except those of publications in `stale`, which may show anything. */
  predicate AdmittedRead(s: State, e: Event, stale: set<Publication>)
    requires Enabled(s, e)
  {
    SoundRead(s, e) ||
    var t := s.tasks[e.task];
    Publication(t.driver, t.pc.id, t.pc.node) in stale
  }

  predicate AlwaysAdmitted(s: State, run: seq<Event>, stale: set<Publication>)
    requires Legal(s, run)
    decreases |run|
  {
    run == [] || (AdmittedRead(s, run[0], stale) && AlwaysAdmitted(Next(s, run[0]), run[1..], stale))
  }

  /** The run publishes nothing but what is in `wanted`. */
  predicate Covered(run: seq<Event>, wanted: set<Publication>) {
    forall e :: e in run && e.Arrival? && e.rpc.Publish? ==> Publication(e.driver, e.rpc.id, e.rpc.node) in wanted
  }

  /** One volume, wanted on two nodes by two drivers.  Requests with a blank field are rejected. */
  predicate Rivals(x: Publication, y: Publication) {
    && x.volume == y.volume != ""
    && x.node != y.node && x.node != "" && y.node != ""
    && x.driver != y.driver
  }

  predicate Peaceful(wanted: set<Publication>) {
    forall x, y :: x in wanted && y in wanted ==> !Rivals(x, y)
  }

  /** No publication that gets as far as reading does so by a read that may show anything. */
  predicate Sighted(wanted: set<Publication>, stale: set<Publication>) {
    forall x :: x in wanted && x in stale ==> x.volume == "" || x.node == ""
  }

  // ---------- the invariant ----------

  predicate Wants(wanted: set<Publication>, driver: nat, id: string, node: string) {
    id != "" && node != "" && Publication(driver, id, node) in wanted
  }

  predicate PublishInv(p: Provider, t: Task, wanted: set<Publication>) {
    match t.pc
    case Locking(lock, rpc) =>
      rpc == t.rpc && (rpc.Publish? ==> Wants(wanted, t.driver, rpc.id, rpc.node) && lock == Lock(Volumes, rpc.id))
    case Checking(lock, id, node, _) => Wants(wanted, t.driver, id, node) && lock == Lock(Volumes, id)
    case Attaching(lock, id, node, _) =>
      Wants(wanted, t.driver, id, node) && lock == Lock(Volumes, id) && OnlyNode(AttachmentsOf(p, id), node)
    case _ => true
  }

  ghost predicate ExclusiveInv(s: State, wanted: set<Publication>) {
    && LockInv(s)
    && (forall id :: OneNode(AttachmentsOf(s.provider, id)))
    && (forall task :: task in s.tasks ==> PublishInv(s.provider, s.tasks[task], wanted))
  }

  // ---------- one step ----------

  /** No device and not elsewhere: nothing is attached, or only this node is, without a device path. */
  lemma {:induction false} NotElsewhere(attachments: seq<Attachment>, node: string)
    requires OneNode(attachments) && !AttachedDevice(attachments, node).1
    ensures OnlyNode(attachments, node)
  {
    if attachments != [] && attachments[0].instance != node {
      assert AttachedTo(attachments, node);
    }
  }

  /** A call leaves a volume's attachments to the nodes it had, unless it attaches that very volume. */
  lemma {:induction false} AttachmentsAfter(p: Provider, call: Call, reply: Reply, effect: Effect, id: string)
    requires Permits(p, call, reply, effect)
    requires effect.Attaches? ==> call.id != id
    ensures var p' := Apply(p, call, reply, effect);
            forall a :: a in AttachmentsOf(p', id) ==> a in AttachmentsOf(p, id)
  {
    if effect.Detaches? {
      WithoutNodeMembers(AttachmentsOf(p, call.id), call.node);
    }
  }

  lemma {:induction false} FewerAttachments(few: seq<Attachment>, many: seq<Attachment>)
    requires forall a :: a in few ==> a in many
    ensures OneNode(many) ==> OneNode(few)
    ensures forall node :: OnlyNode(many, node) ==> OnlyNode(few, node)
  {
    forall i | 0 <= i < |few| ensures few[i] in many {
      assert few[i] in few;
    }
  }

  lemma {:induction false} StepKeepsPublish(p: Provider, t: Task, reply: Reply, wanted: set<Publication>)
    requires PublishInv(p, t, wanted) && Accepts(t.pc, reply)
    requires t.pc.Checking? && Step(t.pc, reply).Attaching? ==> OnlyNode(AttachmentsOf(p, t.pc.id), t.pc.node)
    ensures PublishInv(p, t.(pc := Step(t.pc, reply)), wanted)
  {
    match t.pc
    case Listing(_, _, _) => NeverPublishing(t.pc, reply);
    case Purging(_, _, _, _, _, _) => NeverPublishing(t.pc, reply);
    case Creating(_, _) => NeverPublishing(t.pc, reply);
    case _ =>
  }

  predicate Publishing(pc: Pc) {
    pc.Locking? || pc.Checking? || pc.Attaching?
  }

  lemma {:induction false} NeverPublishing(pc: Pc, reply: Reply)
    requires Accepts(pc, reply) && (pc.Listing? || pc.Purging? || pc.Creating?)
    ensures !Publishing(Step(pc, reply))
  {
  }

  /** The one that attaches is alone on its driver between reading and attaching that volume. */
  lemma {:induction false} AttacherAlone(s: State, wanted: set<Publication>, a: nat, b: nat)
    requires ExclusiveInv(s, wanted) && a in s.tasks && b in s.tasks
    requires s.tasks[a].pc.Attaching? && s.tasks[b].pc.Attaching? && s.tasks[a].pc.id == s.tasks[b].pc.id
    requires s.tasks[a].driver == s.tasks[b].driver
    ensures a == b
  {
    var lock, driver := Lock(Volumes, s.tasks[a].pc.id), s.tasks[a].driver;
    assert PublishInv(s.provider, s.tasks[a], wanted) && PublishInv(s.provider, s.tasks[b], wanted);
    assert Holds(s, a, driver, lock) && Holds(s, b, driver, lock);
  }

  lemma {:induction false} StepKeepsOneNode(s: State, e: Event, wanted: set<Publication>, id: string)
    requires ExclusiveInv(s, wanted) && Enabled(s, e)
    ensures OneNode(AttachmentsOf(Next(s, e).provider, id))
  {
    assert OneNode(AttachmentsOf(s.provider, id));
    if e.Progress? {
      var t := s.tasks[e.task];
      assert PublishInv(s.provider, t, wanted);
      if !(e.effect.Attaches? && CallOf(t.pc).id == id) {
        AttachmentsAfter(s.provider, CallOf(t.pc), e.reply, e.effect, id);
        FewerAttachments(AttachmentsOf(Next(s, e).provider, id), AttachmentsOf(s.provider, id));
      }
    }
  }

  /** While one RPC is about to attach a volume, no other step attaches that volume to another node. */
  lemma {:induction false} OthersKeepPublish(s: State, e: Event, wanted: set<Publication>, task: nat)
    requires Peaceful(wanted)
    requires ExclusiveInv(s, wanted) && Enabled(s, e) && e.Progress? && task in s.tasks && task != e.task
    ensures PublishInv(Next(s, e).provider, s.tasks[task], wanted)
  {
    var t, u := s.tasks[task], s.tasks[e.task];
    assert PublishInv(s.provider, t, wanted);
    if t.pc.Attaching? {
      if e.effect.Attaches? && CallOf(u.pc).id == t.pc.id {
        assert PublishInv(s.provider, u, wanted);
        if t.driver == u.driver {
          AttacherAlone(s, wanted, task, e.task);
        } else {
          assert !Rivals(Publication(t.driver, t.pc.id, t.pc.node), Publication(u.driver, u.pc.id, u.pc.node));
        }
      } else {
        AttachmentsAfter(s.provider, CallOf(u.pc), e.reply, e.effect, t.pc.id);
        FewerAttachments(AttachmentsOf(Next(s, e).provider, t.pc.id), AttachmentsOf(s.provider, t.pc.id));
      }
    }
  }

  lemma {:induction false} NextKeepsExclusive(s: State, e: Event, wanted: set<Publication>, stale: set<Publication>)
    requires Peaceful(wanted) && ExclusiveInv(s, wanted) && Enabled(s, e) && AdmittedRead(s, e, stale)
      && Covered([e], wanted) && Sighted(wanted, stale)
    ensures ExclusiveInv(Next(s, e), wanted)
  {
    var s' := Next(s, e);
    assert e in [e];
    if e.Arrival? {
      ArrivalKeepsLocks(s, e);
    } else {
      ProgressKeepsLocks(s, e);
    }
    forall id ensures OneNode(AttachmentsOf(s'.provider, id)) {
      StepKeepsOneNode(s, e, wanted, id);
    }
    forall task | task in s'.tasks ensures PublishInv(s'.provider, s'.tasks[task], wanted) {
      if task != e.task {
        if e.Progress? {
          OthersKeepPublish(s, e, wanted, task);
        }
      } else if e.Progress? {
        OwnStepKeepsPublish(s, e, wanted, stale);
      }
    }
  }

  lemma {:induction false} OwnStepKeepsPublish(s: State, e: Event, wanted: set<Publication>, stale: set<Publication>)
    requires Sighted(wanted, stale)
    requires ExclusiveInv(s, wanted) && Enabled(s, e) && e.Progress? && AdmittedRead(s, e, stale)
    ensures PublishInv(Next(s, e).provider, Next(s, e).tasks[e.task], wanted)
  {
    var t := s.tasks[e.task];
    assert PublishInv(s.provider, t, wanted);
    if t.pc.Checking? {
      assert OneNode(AttachmentsOf(s.provider, t.pc.id));
    }
    StepKeepsPublish(s.provider, t, e.reply, wanted);
    if Step(t.pc, e.reply).Attaching? {
      assert t.pc.Checking?;
      assert e.effect.Nothing?;
    }
  }

  lemma {:induction false} ExclusiveAlways(s: State, run: seq<Event>, wanted: set<Publication>, stale: set<Publication>)
    requires Peaceful(wanted) && ExclusiveInv(s, wanted) && Legal(s, run) && AlwaysAdmitted(s, run, stale)
      && Covered(run, wanted) && Sighted(wanted, stale)
    ensures ExclusiveInv(Final(s, run), wanted)
    decreases |run|
  {
    if run != [] {
      NextKeepsExclusive(s, run[0], wanted, stale);
      ExclusiveAlways(Next(s, run[0]), run[1..], wanted, stale);
    }
  }

  // ---------- the theorems ----------

  /** No volume is attached to two nodes. */
  ghost predicate AllOneNode(p: Provider) {
    forall id :: OneNode(AttachmentsOf(p, id))
  }

  /**
   As long as no two drivers want one volume on two nodes, and no publish is led on by a read that
   hides an attachment to another node, no volume is ever attached to two nodes, although the
   provider would attach it twice, and whatever unpublish, delete, expand and create requests of
   any driver come in between.  Module `Limits` shows that both conditions are necessary.
   */
  lemma {:induction false} NeverOnTwoNodes(s: State, run: seq<Event>, wanted: set<Publication>, stale: set<Publication>)
    requires Initial(s) && Legal(s, run) && AlwaysAdmitted(s, run, stale)
    requires Covered(run, wanted) && Peaceful(wanted) && Sighted(wanted, stale)
    requires AllOneNode(s.provider)
    ensures AllOneNode(Final(s, run).provider)
  {
    ExclusiveAlways(s, run, wanted, stale);
  }

  /** Reads that show the true attachments are sound. */
  lemma {:induction false} ExactIsSound(s: State, e: Event)
    requires Enabled(s, e) && ExactRead(s, e)
    ensures SoundRead(s, e)
  {
    if e.Progress? && s.tasks[e.task].pc.Checking? && e.reply.OneVolume? {
      var truth, node := AttachmentsOf(s.provider, s.tasks[e.task].pc.id), s.tasks[e.task].pc.node;
      if OneNode(truth) && !AttachedDevice(truth, node).1 {
        NotElsewhere(truth, node);
      }
    }
  }

  lemma {:induction false} ExactIsAdmitted(s: State, run: seq<Event>, stale: set<Publication>)
    requires Legal(s, run) && AlwaysExact(s, run)
    ensures AlwaysAdmitted(s, run, stale)
    decreases |run|
  {
    if run != [] {
      ExactIsSound(s, run[0]);
      ExactIsAdmitted(Next(s, run[0]), run[1..], stale);
    }
  }
}
