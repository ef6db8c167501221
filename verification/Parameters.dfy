/** From a CreateVolume request to a volume specification: zone, size, type and encryption. */
module Parameters {
  import opened Cloud
  import opened Capacity
  import opened Pagination

  // ---------- zones ----------

  /** The distinct non-empty zones of a topology list, by first occurrence. */
  method TopologyZones(topologies: seq<string>) returns (zones: seq<string>)
    ensures forall z :: z in zones <==> z != "" && z in topologies
    ensures forall i, j :: 0 <= i < j < |zones| ==> zones[i] != zones[j]
    ensures FirstOccurrenceOrder(topologies, zones)
  {
    zones := [];
    for i := 0 to |topologies|
      invariant forall z :: z in zones <==> z != "" && z in topologies[..i]
      invariant forall a, b :: 0 <= a < b < |zones| ==> zones[a] != zones[b]
      invariant FirstOccurrenceOrder(topologies[..i], zones)
    {
      var zone := topologies[i];
      assert topologies[..i + 1] == topologies[..i] + [zone];
      if zone != "" && zone !in zones {
        assert FirstOccurrenceOrder(topologies[..i + 1], zones + [zone]) by {
          forall a, b | 0 <= a < b < |zones| + 1
            ensures Before(topologies[..i + 1], (zones + [zone])[a], (zones + [zone])[b])
          {
            assert zones[a] in zones;
            if b == |zones| {
              var k :| 0 <= k < i && topologies[k] == zones[a];
              assert topologies[..i + 1][k] == zones[a];
            } else {
              BeforeExtends(topologies[..i], zone, zones[a], zones[b]);
            }
          }
        }
        zones := zones + [zone];
      } else {
        assert FirstOccurrenceOrder(topologies[..i + 1], zones) by {
          forall a, b | 0 <= a < b < |zones| ensures Before(topologies[..i + 1], zones[a], zones[b]) {
            BeforeExtends(topologies[..i], zone, zones[a], zones[b]);
          }
        }
      }
    }
    assert topologies[..|topologies|] == topologies;
  }

  /** `x` appears at a position before which, and at which, there is no `y`. */
  predicate Before(list: seq<string>, x: string, y: string) {
    exists k :: 0 <= k < |list| && list[k] == x && forall i :: 0 <= i <= k ==> list[i] != y
  }

  predicate FirstOccurrenceOrder(list: seq<string>, zones: seq<string>) {
    forall a, b :: 0 <= a < b < |zones| ==> Before(list, zones[a], zones[b])
  }

  lemma {:induction false} BeforeExtends(list: seq<string>, last: string, x: string, y: string)
    requires Before(list, x, y)
    ensures Before(list + [last], x, y)
  {
    var k :| 0 <= k < |list| && list[k] == x && forall i :: 0 <= i <= k ==> list[i] != y;
    assert (list + [last])[k] == x && forall i :: 0 <= i <= k ==> (list + [last])[i] != y;
  }

  /** A preferred zone that may be used. */
  predicate Usable(zone: string, requisite: seq<string>) {
    zone != "" && (NoneRequired(requisite) || zone in requisite)
  }

  predicate SomeUsable(preferred: seq<string>, requisite: seq<string>) {
    exists k :: 0 <= k < |preferred| && Usable(preferred[k], requisite)
  }

  /** The zone is the first usable preferred one. */
  predicate FirstUsable(preferred: seq<string>, requisite: seq<string>, zone: string) {
    exists k :: 0 <= k < |preferred| && zone == preferred[k] && Usable(zone, requisite)
                && forall j :: 0 <= j < k ==> !Usable(preferred[j], requisite)
  }

  predicate NoneRequired(requisite: seq<string>) {
    forall r :: r in requisite ==> r == ""
  }

  predicate FirstNamed(requisite: seq<string>, zone: string) {
    exists k :: 0 <= k < |requisite| && zone == requisite[k] && forall j :: 0 <= j < k ==> requisite[j] == ""
  }

  /**
   The first usable preferred zone wins; then, if zones are required, the fallback if it is one
   of them, and otherwise the first of them; then the fallback.
   */
  predicate ZoneChoice(requisite: seq<string>, preferred: seq<string>, fallback: string, zone: string) {
    && ((exists r :: r in requisite && r != "") ==> zone in requisite && zone != "")
    && (if SomeUsable(preferred, requisite) then FirstUsable(preferred, requisite, zone)
        else if NoneRequired(requisite) || (fallback != "" && fallback in requisite) then zone == fallback
        else FirstNamed(requisite, zone))
  }

  method SelectedZone(requisite: seq<string>, preferred: seq<string>, fallback: string) returns (zone: string)
    ensures ZoneChoice(requisite, preferred, fallback, zone)
  {
    var required := TopologyZones(requisite);
    if |required| > 0 {
      assert required[0] in required;
    }
    for i := 0 to |preferred|
      invariant forall j :: 0 <= j < i ==> !Usable(preferred[j], requisite)
    {
      if preferred[i] != "" {
        if |required| > 0 && preferred[i] !in required {
          continue;
        }
        return preferred[i];
      }
    }
    if |required| > 0 {
      if fallback != "" && fallback in required {
        return fallback;
      }
      FirstRequired(requisite, required);
      return required[0];
    }
    return fallback;
  }

  /** No required zone comes before the first of them. */
  lemma {:induction false} NotBeforeFirst(requisite: seq<string>, required: seq<string>, j: nat)
    requires required != [] && j < |requisite| && requisite[j] in required
    requires FirstOccurrenceOrder(requisite, required)
    ensures exists i :: 0 <= i <= j && requisite[i] == required[0]
  {
    var b :| 0 <= b < |required| && required[b] == requisite[j];
    if b > 0 {
      assert Before(requisite, required[0], required[b]);
    }
  }

  lemma {:induction false} FirstRequired(requisite: seq<string>, required: seq<string>)
    requires required != []
    requires forall z :: z in required <==> z != "" && z in requisite
    requires FirstOccurrenceOrder(requisite, required)
    ensures FirstNamed(requisite, required[0])
  {
    assert required[0] in required;
    var k := FirstIndex(requisite, required[0]);
    forall j | 0 <= j < k ensures requisite[j] == "" {
      assert requisite[j] in requisite;
      if requisite[j] in required {
        NotBeforeFirst(requisite, required, j);
      }
    }
  }

  lemma {:induction false} FirstIndex(list: seq<string>, x: string) returns (k: nat)
    requires x in list
    ensures k < |list| && list[k] == x && forall i :: 0 <= i < k ==> list[i] != x
    decreases |list|
  {
    if list[0] == x {
      k := 0;
    } else {
      assert list == [list[0]] + list[1..];
      var i := FirstIndex(list[1..], x);
      k := i + 1;
    }
  }

  // ---------- the specification ----------

  datatype Request = Request(
    name: string, parameters: map<string, string>, required: int, limit: int,
    requisite: seq<string>, preferred: seq<string>)

  datatype Defaults = Defaults(zone: string, project: string, volumeType: string)

  datatype SpecResult = Spec(spec: VolumeSpec) | Rejected(code: Code)

  const SUPPORTED := {"availability_zone", "project_id", "region", "volume_type", "encrypted"}

  function Parameter(request: Request, key: string): string {
    if key in request.parameters then request.parameters[key] else ""
  }

  /** Go's strconv.ParseBool. */
  function ParseBool(s: string): (bool, bool)
  {
    if s in {"1", "t", "T", "true", "TRUE", "True"} then (true, true)
    else if s in {"0", "f", "F", "false", "FALSE", "False"} then (true, false)
    else (false, false)
  }

  /** Neither the topology nor the parameters nor the configuration name a zone. */
  predicate NamesNoZone(request: Request, defaults: Defaults) {
    && (forall z :: z in request.requisite ==> z == "")
    && (forall z :: z in request.preferred ==> z == "")
    && Parameter(request, "availability_zone") == "" && defaults.zone == ""
  }

  function ProjectOf(request: Request, defaults: Defaults): string {
    Or(Parameter(request, "project_id"), defaults.project)
  }

  predicate UnreadableFlag(request: Request) {
    "encrypted" in request.parameters && !ParseBool(request.parameters["encrypted"]).0
  }

  /** The zone a request falls back on. */
  function FallbackZone(request: Request, defaults: Defaults): string {
    Or(Parameter(request, "availability_zone"), defaults.zone)
  }

  /** The status a request is rejected with, if it is: an unsatisfiable size counts before a missing zone. */
  function Rejection(request: Request, defaults: Defaults): Option<Code> {
    if request.name == "" || !(request.parameters.Keys <= SUPPORTED) then Some(InvalidArgument)
    else if DefaultRequestedBytes(request.required, request.limit).ExceedsLimit? then Some(OutOfRangeCode)
    else if NamesNoZone(request, defaults) || ProjectOf(request, defaults) == "" || UnreadableFlag(request)
    then Some(InvalidArgument)
    else None
  }

  /** What a request that is not rejected asks for. */
  predicate Specifies(request: Request, defaults: Defaults, spec: VolumeSpec) {
    && spec.name == request.name != ""
    && spec.zone != ""
    && ZoneChoice(request.requisite, request.preferred, FallbackZone(request, defaults), spec.zone)
    && DefaultRequestedBytes(request.required, request.limit) == Bytes(spec.size)
    && spec.kind == Or(Parameter(request, "volume_type"), defaults.volumeType)
    && (if "encrypted" in request.parameters then ParseBool(request.parameters["encrypted"]) == (true, spec.encrypted)
        else !spec.encrypted)
  }

  predicate Parsed(request: Request, defaults: Defaults, r: SpecResult) {
    match Rejection(request, defaults)
    case Some(code) => r == Rejected(code)
    case None => r.Spec? && Specifies(request, defaults, r.spec)
  }

  /** No zone is chosen exactly when none is named anywhere. */
  lemma {:induction false} NoZoneIffNamesNone(request: Request, defaults: Defaults, zone: string)
    requires ZoneChoice(request.requisite, request.preferred, FallbackZone(request, defaults), zone)
    ensures zone == "" <==> NamesNoZone(request, defaults)
  {
    assert forall k :: 0 <= k < |request.preferred| ==> request.preferred[k] in request.preferred;
    if zone == "" {
      assert !SomeUsable(request.preferred, request.requisite);
    }
  }

  method VolumeSpecOf(request: Request, defaults: Defaults) returns (r: SpecResult)
    ensures Parsed(request, defaults, r)
  {
    if request.name == "" {
      return Rejected(InvalidArgument);
    }
    if !(request.parameters.Keys <= SUPPORTED) {
      return Rejected(InvalidArgument);
    }
    var size := DefaultRequestedBytes(request.required, request.limit);
    if size.ExceedsLimit? {
      return Rejected(OutOfRangeCode);
    }
    var zone := SelectedZone(request.requisite, request.preferred, FallbackZone(request, defaults));
    NoZoneIffNamesNone(request, defaults, zone);
    if zone == "" || ProjectOf(request, defaults) == "" {
      return Rejected(InvalidArgument);
    }
    var encrypted := false;
    if "encrypted" in request.parameters {
      var (ok, value) := ParseBool(request.parameters["encrypted"]);
      if !ok {
        return Rejected(InvalidArgument);
      }
      encrypted := value;
    }
    var kind := Or(Parameter(request, "volume_type"), defaults.volumeType);
    return Spec(VolumeSpec(request.name, size.n, zone, kind, encrypted));
  }

  /** What the provider stores and lists of a specification: sizes go there and back as whole GiB. */
  predicate MadeOf(v: Volume, spec: VolumeSpec) {
    && v.size == GibToBytes(BytesToGib(spec.size))
    && v.zone == spec.zone && v.encrypted == spec.encrypted
    && (spec.kind != "" ==> v.kind == spec.kind)
  }

  /** The volume made of a request comes back compatible with that request. */
  lemma {:induction false} FreshVolumeIsCompatible(request: Request, defaults: Defaults, spec: VolumeSpec, v: Volume)
    requires -GIB < request.required <= TWO63 - GIB
    ensures Specifies(request, defaults, spec) && MadeOf(v, spec) ==> CompatibleVolume(v, spec)
  {
    RequestedSizeSurvives(request.required, request.limit);
  }
}
