/**
 What each RPC answers to what it is told, for every provider: its whole conversation, call by
 call, and the outcome that the replies lead to.
 */
module Outcomes {
  import opened Cloud
  import opened Capacity
  import opened Identifiers
  import opened Protocol
  import opened System
  import opened Locking

  // ---------- from the lock to its release ----------

  /** The request says what it is about. */
  predicate WellFormed(rpc: Rpc) {
    match rpc
    case Create(spec) => spec.name != ""
    case TakeSnapshot(name, source, _) => name != "" && source != ""
    case Delete(id) => id != ""
    case Publish(id, node, _) => id != "" && node != ""
    case Unpublish(id, node, _) => id != "" && node != ""
    case Expand(id, _) => id != ""
    case DropSnapshot(csiId, _) => csiId != ""
  }

  /** The lock is granted first and released last; in between the RPC comes to its outcome. */
  ghost predicate UnderLock(rpc: Rpc, log: seq<Exchange>, outcome: Outcome) {
    var lock, n := LockFor(rpc), |log|;
    && n >= 2
    && log[0] == Exchange(TryLock(lock), Granted(true)) && log[n - 1] == Exchange(Unlock(lock), Ok)
    && Follows(Enter(lock, rpc), log[1..n - 1])
    && After(Enter(lock, rpc), log[1..n - 1]) == Unlocking(lock, outcome)
  }

  lemma {:induction false} Unroll(pc: Pc, log: seq<Exchange>)
    requires Follows(pc, log) && log != []
    ensures Accepts(pc, log[0].reply) && log[0].call == CallOf(pc)
    ensures Follows(Step(pc, log[0].reply), log[1..])
    ensures After(pc, log) == After(Step(pc, log[0].reply), log[1..])
  {
  }

  lemma {:induction false} FinishedIsLast(outcome: Outcome, log: seq<Exchange>)
    requires Follows(Finished(outcome), log)
    ensures log == []
  {
  }

  /** An RPC that is about to unlock has nothing else to say. */
  lemma {:induction false} UnlockingIsLast(lock: Lock, outcome: Outcome, log: seq<Exchange>)
    requires Follows(Unlocking(lock, outcome), log)
    ensures After(Unlocking(lock, outcome), log).Unlocking? ==> log == []
  {
    if log != [] {
      Unroll(Unlocking(lock, outcome), log);
      FinishedIsLast(outcome, log[1..]);
    }
  }

  lemma {:induction false} HoldsThroughout(pc: Pc, log: seq<Exchange>)
    requires Holding(pc) && Follows(pc, log)
    ensures var end := After(pc, log); end.Finished? || (Holding(end) && end.lock == pc.lock)
    decreases |log|
  {
    if log != [] {
      StepKeepsLock(pc, log[0].reply);
      if pc.Unlocking? {
        FinishedIsLast(pc.outcome, log[1..]);
      } else {
        HoldsThroughout(Step(pc, log[0].reply), log[1..]);
      }
    }
  }

  lemma {:induction false} EndsUnlocking(pc: Pc, log: seq<Exchange>, outcome: Outcome)
    requires Holding(pc) && Follows(pc, log) && After(pc, log) == Finished(outcome)
    ensures log != []
    ensures var most := log[..|log| - 1];
            && Follows(pc, most) && After(pc, most) == Unlocking(pc.lock, outcome)
            && log[|log| - 1] == Exchange(Unlock(pc.lock), Ok)
  {
    LastExchange(pc, log);
    var most, last := log[..|log| - 1], log[|log| - 1];
    HoldsThroughout(pc, most);
    StepKeepsLock(After(pc, most), last.reply);
  }

  /**
   A request that says nothing is refused unheard; one that finds its lock taken is told to come
   again; any other holds its lock from its first call to its last.
   */
  lemma {:induction false} WholeConversation(rpc: Rpc, log: seq<Exchange>, outcome: Outcome)
    requires !rpc.DropSnapshot? && Follows(Begin(rpc), log) && After(Begin(rpc), log) == Finished(outcome)
    ensures if !WellFormed(rpc) then log == [] && outcome == Refused(InvalidArgument)
            else
              || (log == [Exchange(TryLock(LockFor(rpc)), Granted(false))] && outcome == Refused(Aborted))
              || UnderLock(rpc, log, outcome)
  {
    if !WellFormed(rpc) {
      FinishedIsLast(Refused(InvalidArgument), log);
    } else {
      var lock := LockFor(rpc);
      Unroll(Begin(rpc), log);
      var rest := log[1..];
      if log[0].reply.granted {
        StepKeepsLock(Begin(rpc), log[0].reply);
        EndsUnlocking(Enter(lock, rpc), rest, outcome);
        assert rest[..|rest| - 1] == log[1..|log| - 1];
      } else {
        FinishedIsLast(Refused(Aborted), rest);
      }
    }
  }

  // ---------- delete ----------

  predicate Gone(reply: Reply) {
    reply == Ok || reply == Failed(NotFound)
  }

  predicate RefusedFor(outcome: Outcome, reply: Reply) {
    reply.Failed? && outcome == Refused(StatusOf(reply.error))
  }

  /** A delete succeeds exactly if its one call does, or finds the volume gone; otherwise the error is the answer. */
  predicate DeleteGoes(call: Call, log: seq<Exchange>, outcome: Outcome) {
    && |log| == 1 && log[0].call == call
    && (outcome == Done <==> Gone(log[0].reply))
    && (outcome != Done ==> RefusedFor(outcome, log[0].reply))
  }

  lemma {:induction false} DeleteOutcome(lock: Lock, id: string, log: seq<Exchange>, outcome: Outcome)
    requires Follows(Enter(lock, Delete(id)), log) && After(Enter(lock, Delete(id)), log) == Unlocking(lock, outcome)
    ensures DeleteGoes(DeleteVolume(id), log, outcome)
  {
    var pc := Enter(lock, Delete(id));
    Unroll(pc, log);
    UnlockingIsLast(lock, Step(pc, log[0].reply).outcome, log[1..]);
  }

  /** The same for a snapshot, which takes no lock, in the zone that its ID gives. */
  lemma {:induction false} DropOutcome(csiId: string, fallbackZone: string, log: seq<Exchange>, outcome: Outcome)
    requires var rpc := DropSnapshot(csiId, fallbackZone);
             Follows(Begin(rpc), log) && After(Begin(rpc), log) == Finished(outcome)
    ensures var (id, zone) := DecodeSnapshotId(csiId, fallbackZone);
            if csiId == "" then log == [] && outcome == Refused(InvalidArgument)
            else DeleteGoes(DeleteSnapshot(id, zone), log, outcome)
  {
    var pc := Begin(DropSnapshot(csiId, fallbackZone));
    if csiId == "" {
      FinishedIsLast(Refused(InvalidArgument), log);
    } else {
      Unroll(pc, log);
      FinishedIsLast(Step(pc, log[0].reply).outcome, log[1..]);
    }
  }

  // ---------- publish ----------

  /** The first attachment to the node is at that device. */
  predicate DeviceOn(attachments: seq<Attachment>, node: string, device: string) {
    exists i :: 0 <= i < |attachments| && attachments[i] == Attachment(node, device)
                && forall j :: 0 <= j < i ==> attachments[j].instance != node
  }

  lemma {:induction false} AttachedDeviceMeaning(attachments: seq<Attachment>, node: string)
    ensures var (device, elsewhere) := AttachedDevice(attachments, node);
            && (AttachedTo(attachments, node) ==> DeviceOn(attachments, node, device))
            && (!AttachedTo(attachments, node) ==> device == "")
            && (elsewhere <==> attachments != [] && !AttachedTo(attachments, node))
  {
    if attachments != [] && attachments[0].instance != node {
      var rest := attachments[1..];
      AttachedDeviceMeaning(rest, node);
      assert forall i :: 0 <= i < |rest| ==> rest[i] == attachments[i + 1];
      if AttachedTo(attachments, node) {
        var i :| 0 <= i < |attachments| && attachments[i].instance == node;
        assert rest[i - 1].instance == node;
        var device := AttachedDevice(rest, node).0;
        var k :| 0 <= k < |rest| && rest[k] == Attachment(node, device)
                 && forall j :: 0 <= j < k ==> rest[j].instance != node;
        assert attachments[k + 1] == Attachment(node, device);
        assert forall j :: 0 <= j < k + 1 ==> attachments[j].instance != node;
      }
    }
  }

  lemma {:induction false} OneDevice(attachments: seq<Attachment>, node: string, a: string, b: string)
    requires DeviceOn(attachments, node, a) && DeviceOn(attachments, node, b)
    ensures a == b && AttachedTo(attachments, node)
  {
    var i :| 0 <= i < |attachments| && attachments[i] == Attachment(node, a)
             && forall j :: 0 <= j < i ==> attachments[j].instance != node;
    var k :| 0 <= k < |attachments| && attachments[k] == Attachment(node, b)
             && forall j :: 0 <= j < k ==> attachments[j].instance != node;
    assert i == k;
  }

  /** The reply shows a device of the volume on the node. */
  predicate ShowsDevice(reply: Reply, node: string, device: string) {
    device != "" && reply.OneVolume? && DeviceOn(reply.volume.attachments, node, device)
  }

  ghost predicate Shows(reply: Reply, node: string) {
    exists device :: ShowsDevice(reply, node, device)
  }

  /** The volume has an attachment, and none to the node. */
  predicate ShowsElsewhere(reply: Reply, node: string) {
    reply.OneVolume? && reply.volume.attachments != [] && !AttachedTo(reply.volume.attachments, node)
  }

  predicate AnswersDevice(outcome: Outcome, reply: Reply, node: string) {
    outcome.Published? && ShowsDevice(reply, node, outcome.device)
  }

  lemma {:induction false} DeviceShown(reply: Reply, node: string)
    requires reply.OneVolume?
    ensures var (device, elsewhere) := AttachedDevice(reply.volume.attachments, node);
            && (device != "" <==> Shows(reply, node)) && (device != "" ==> ShowsDevice(reply, node, device))
            && (elsewhere <==> ShowsElsewhere(reply, node)) && !(device != "" && elsewhere)
  {
    var attachments := reply.volume.attachments;
    AttachedDeviceMeaning(attachments, node);
    assert AttachedDevice(attachments, node).0 != "" ==> ShowsDevice(reply, node, AttachedDevice(attachments, node).0);
    if other :| ShowsDevice(reply, node, other) {
      var i :| 0 <= i < |attachments| && attachments[i] == Attachment(node, other);
      assert AttachedTo(attachments, node);
      OneDevice(attachments, node, other, AttachedDevice(attachments, node).0);
    }
  }

  /** A failed attach, and the second look. */
  ghost predicate RecheckGoes(id: string, node: string, attached: Reply, log: seq<Exchange>, outcome: Outcome) {
    && |log| == 1 && log[0].call == GetVolume(id)
    && if Shows(log[0].reply, node) then AnswersDevice(outcome, log[0].reply, node) else RefusedFor(outcome, attached)
  }

  ghost predicate AttachGoes(id: string, node: string, zone: string, log: seq<Exchange>, outcome: Outcome) {
    && log != [] && log[0].call == AttachVolume(id, node, zone)
    && if log[0].reply.Device? then |log| == 1 && outcome == Published(log[0].reply.device)
       else RecheckGoes(id, node, log[0].reply, log[1..], outcome)
  }

  /** Every way a publish can go, once it has its lock. */
  ghost predicate PublishGoes(id: string, node: string, fallbackZone: string, log: seq<Exchange>, outcome: Outcome) {
    && log != [] && log[0].call == GetVolume(id)
    && var reply := log[0].reply;
       if reply.Failed? then |log| == 1 && RefusedFor(outcome, reply)
       else
         && reply.OneVolume?
         && if reply.volume.multiattach then |log| == 1 && outcome == Refused(FailedPrecondition)
            else if Shows(reply, node) then |log| == 1 && AnswersDevice(outcome, reply, node)
            else if ShowsElsewhere(reply, node) then |log| == 1 && outcome == Refused(FailedPrecondition)
            else
              var zone := if reply.volume.zone != "" then reply.volume.zone else fallbackZone;
              AttachGoes(id, node, zone, log[1..], outcome)
  }

  lemma {:induction false} RecheckOutcome(lock: Lock, id: string, node: string, error: Error, log: seq<Exchange>,
        outcome: Outcome)
    requires var pc := Rechecking(lock, id, node, error);
             Follows(pc, log) && After(pc, log) == Unlocking(lock, outcome)
    ensures RecheckGoes(id, node, Failed(error), log, outcome)
  {
    var pc := Rechecking(lock, id, node, error);
    Unroll(pc, log);
    UnlockingIsLast(lock, Step(pc, log[0].reply).outcome, log[1..]);
    if log[0].reply.OneVolume? {
      DeviceShown(log[0].reply, node);
    }
  }

  lemma {:induction false} AttachOutcome(lock: Lock, id: string, node: string, zone: string, log: seq<Exchange>,
        outcome: Outcome)
    requires var pc := Attaching(lock, id, node, zone);
             Follows(pc, log) && After(pc, log) == Unlocking(lock, outcome)
    ensures AttachGoes(id, node, zone, log, outcome)
  {
    var pc := Attaching(lock, id, node, zone);
    Unroll(pc, log);
    var reply := log[0].reply;
    if reply.Device? {
      UnlockingIsLast(lock, Published(reply.device), log[1..]);
    } else {
      RecheckOutcome(lock, id, node, reply.error, log[1..], outcome);
    }
  }

  /**
   A publish answers with a device exactly if the volume's first read shows one on the node, or
   the attach answers it, or the read after a failed attach shows it; and it attaches only a
   volume that is read as neither shared, nor on the node, nor elsewhere.
   */
  lemma {:induction false} PublishOutcome(lock: Lock, id: string, node: string, fallbackZone: string,
        log: seq<Exchange>, outcome: Outcome)
    requires var pc := Enter(lock, Publish(id, node, fallbackZone));
             Follows(pc, log) && After(pc, log) == Unlocking(lock, outcome)
    ensures PublishGoes(id, node, fallbackZone, log, outcome)
  {
    var pc := Enter(lock, Publish(id, node, fallbackZone));
    Unroll(pc, log);
    var reply := log[0].reply;
    if reply.OneVolume? {
      DeviceShown(reply, node);
    }
    var next := Step(pc, reply);
    if next.Unlocking? {
      UnlockingIsLast(lock, next.outcome, log[1..]);
    } else {
      AttachOutcome(lock, id, node, Or(reply.volume.zone, fallbackZone), log[1..], outcome);
    }
  }

  // ---------- unpublish and expand ----------

  ghost predicate UnpublishGoes(id: string, node: string, fallbackZone: string, log: seq<Exchange>, outcome: Outcome) {
    && log != [] && log[0].call == GetVolume(id)
    && var reply := log[0].reply;
       if reply.Failed? then |log| == 1 && if reply.error.NotFound? then outcome == Done else RefusedFor(outcome, reply)
       else
         && reply.OneVolume?
         && if forall a :: a in reply.volume.attachments ==> a.instance != node then |log| == 1 && outcome == Done
            else
              var zone := if reply.volume.zone != "" then reply.volume.zone else fallbackZone;
              && |log| == 2 && log[1].call == DetachVolume(id, node, zone)
              && if Gone(log[1].reply) then outcome == Done else RefusedFor(outcome, log[1].reply)
  }

  /**
   An unpublish detaches a volume that is read as attached to the node, and no other; it succeeds
   if there is nothing to detach or the detach finds it done, and else answers with the error.
   */
  lemma {:induction false} UnpublishOutcome(lock: Lock, id: string, node: string, fallbackZone: string,
        log: seq<Exchange>, outcome: Outcome)
    requires var pc := Enter(lock, Unpublish(id, node, fallbackZone));
             Follows(pc, log) && After(pc, log) == Unlocking(lock, outcome)
    ensures UnpublishGoes(id, node, fallbackZone, log, outcome)
  {
    var pc := Enter(lock, Unpublish(id, node, fallbackZone));
    Unroll(pc, log);
    var reply := log[0].reply;
    if reply.OneVolume? {
      AttachedToMember(reply.volume.attachments, node);
    }
    var next := Step(pc, reply);
    if next.Unlocking? {
      UnlockingIsLast(lock, next.outcome, log[1..]);
    } else {
      Unroll(next, log[1..]);
      UnlockingIsLast(lock, Step(next, log[1].reply).outcome, log[1..][1..]);
    }
  }

  lemma {:induction false} AttachedToMember(attachments: seq<Attachment>, node: string)
    ensures AttachedTo(attachments, node) <==> exists a :: a in attachments && a.instance == node
  {
    if a :| a in attachments && a.instance == node {
      var i :| 0 <= i < |attachments| && attachments[i] == a;
      assert attachments[i].instance == node;
    }
    if i :| 0 <= i < |attachments| && attachments[i].instance == node {
      assert attachments[i] in attachments;
    }
  }

  predicate ExpandGoes(id: string, capacity: Requested, log: seq<Exchange>, outcome: Outcome) {
    match capacity
    case ExceedsLimit => log == [] && outcome == Refused(OutOfRangeCode)
    case Bytes(wanted) =>
      && log != [] && log[0].call == GetVolume(id)
      && var reply := log[0].reply;
         if reply.Failed? then |log| == 1 && RefusedFor(outcome, reply)
         else
           && reply.OneVolume?
           && if reply.volume.size >= wanted then |log| == 1 && outcome == Expanded(reply.volume.size)
              else
                && |log| == 2 && log[1].call == ResizeVolume(id, wanted, reply.volume.zone)
                && if log[1].reply.Size? then outcome == Expanded(log[1].reply.size)
                   else RefusedFor(outcome, log[1].reply)
  }

  /** An expand answers with the size it reads, if that is enough, and else with what the resize comes to. */
  lemma {:induction false} ExpandOutcome(lock: Lock, id: string, capacity: Requested, log: seq<Exchange>,
        outcome: Outcome)
    requires var pc := Enter(lock, Expand(id, capacity));
             Follows(pc, log) && After(pc, log) == Unlocking(lock, outcome)
    ensures ExpandGoes(id, capacity, log, outcome)
  {
    var pc := Enter(lock, Expand(id, capacity));
    if capacity.ExceedsLimit? {
      UnlockingIsLast(lock, Refused(OutOfRangeCode), log);
    } else {
      Unroll(pc, log);
      var next := Step(pc, log[0].reply);
      if next.Unlocking? {
        UnlockingIsLast(lock, next.outcome, log[1..]);
      } else {
        Unroll(next, log[1..]);
        UnlockingIsLast(lock, Step(next, log[1].reply).outcome, log[1..][1..]);
      }
    }
  }
}
