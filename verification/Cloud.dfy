/** The provider's domain types and errors, and how errors become gRPC status codes. */
module Cloud {

  datatype Error =
    | NotFound | AlreadyExists | QuotaExceeded | Conflict | RateLimited | Unavailable
    | OutOfRange | Unauthorized | Invalid
    | ContextCanceled | ContextDeadline
    | Unclassified

  datatype Code =
    | Aborted | AlreadyExistsCode | Canceled | DeadlineExceeded | FailedPrecondition | Internal
    | InvalidArgument | NotFoundCode | OutOfRangeCode | PermissionDenied | ResourceExhausted | UnavailableCode

  function StatusOf(e: Error): Code {
    match e
    case ContextCanceled => Canceled
    case ContextDeadline => DeadlineExceeded
    case NotFound => NotFoundCode
    case AlreadyExists => AlreadyExistsCode
    case QuotaExceeded => ResourceExhausted
    case Conflict => FailedPrecondition
    case RateLimited | Unavailable => UnavailableCode
    case OutOfRange => OutOfRangeCode
    case Unauthorized => PermissionDenied
    case Invalid => InvalidArgument
    case Unclassified => Internal
  }

  datatype Status = Available | InUse | CreatingStatus | DeletingStatus | Extending | ErrorStatus

  datatype Attachment = Attachment(instance: string, device: string)

  datatype Volume = Volume(
    id: string, name: string, size: int, status: Status, zone: string,
    kind: string, encrypted: bool, multiattach: bool, attachments: seq<Attachment>)

  datatype VolumeSpec = VolumeSpec(name: string, size: int, zone: string, kind: string, encrypted: bool)

  datatype Snapshot = Snapshot(
    id: string, name: string, volumeId: string, size: int, available: bool, zone: string)

  const DEFAULT_VOLUME_TYPE := "__DEFAULT__"
  const ENCRYPTED_VOLUME_TYPE := "Encrypted-v1"

  /** Go's cmp.Or on strings: the first that is not empty. */
  function Or(a: string, b: string): string {
    if a != "" then a else b
  }

  function VolumeId(v: Volume): string { v.id }

  function SnapshotId(s: Snapshot): string { s.id }

  predicate CompatibleVolume(v: Volume, spec: VolumeSpec) {
    && v.size == spec.size
    && v.zone == spec.zone
    && (spec.kind == "" || v.kind == spec.kind)
    && v.encrypted == spec.encrypted
  }

  predicate DeletableDuplicate(v: Volume) {
    v.attachments == [] && v.status != InUse
  }

  /** The device the volume has on `node`, and whether it is attached but not to `node`. */
  function AttachedDevice(attachments: seq<Attachment>, node: string): (string, bool) {
    if attachments == [] then ("", false)
    else if attachments[0].instance == node then (attachments[0].device, false)
    else
      var (device, _) := AttachedDevice(attachments[1..], node);
      (device, !AttachedTo(attachments, node))
  }

  predicate AttachedTo(attachments: seq<Attachment>, node: string) {
    exists i :: 0 <= i < |attachments| && attachments[i].instance == node
  }

  function WithoutNode(attachments: seq<Attachment>, node: string): seq<Attachment> {
    if attachments == [] then []
    else if attachments[0].instance == node then WithoutNode(attachments[1..], node)
    else [attachments[0]] + WithoutNode(attachments[1..], node)
  }

  lemma {:induction false} WithoutNodeMembers(attachments: seq<Attachment>, node: string)
    ensures forall a :: a in WithoutNode(attachments, node) <==> a in attachments && a.instance != node
  {
    if attachments != [] {
      WithoutNodeMembers(attachments[1..], node);
      assert attachments == [attachments[0]] + attachments[1..];
    }
  }
}
