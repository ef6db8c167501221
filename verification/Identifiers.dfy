/**
 The two ID encodings built on "/": CSI snapshot IDs of the form zone/id, and the Pulumi
 provider's zone/project/id.
 */
module Identifiers {

  /** Position of the first "/", or the length of `s`. */
  function FirstSlash(s: string): (i: nat)
    ensures i <= |s|
    ensures i < |s| ==> s[i] == '/'
    ensures forall j :: 0 <= j < i ==> s[j] != '/'
  {
    if s == "" || s[0] == '/' then 0 else 1 + FirstSlash(s[1..])
  }

  predicate SlashFree(s: string) {
    '/' !in s
  }

  lemma {:induction false} FirstSlashOfConcat(a: string, b: string)
    requires SlashFree(a)
    ensures FirstSlash(a + "/" + b) == |a|
    ensures (a + "/" + b)[..|a|] == a && (a + "/" + b)[|a| + 1..] == b
  {
    var s := a + "/" + b;
    assert s[|a|] == '/';
    forall j | 0 <= j < |a| ensures s[j] != '/' {
      assert s[j] == a[j] && a[j] in a;
    }
  }

  lemma {:induction false} SlashFreeMeans(s: string)
    ensures SlashFree(s) <==> FirstSlash(s) == |s|
  {
  }

  // ---------- CSI snapshot IDs ----------

  function EncodeSnapshotId(id: string, zone: string): string {
    if zone == "" then id else zone + "/" + id
  }

  /** The provider's ID and the zone; an ID without "/" belongs to the fallback zone. */
  function DecodeSnapshotId(id: string, fallbackZone: string): (string, string) {
    var i := FirstSlash(id);
    if i == |id| then (id, fallbackZone) else (id[i + 1..], id[..i])
  }

  /**
   Decoding returns what was encoded exactly when the zone has no "/" of its own, or, with no
   zone, when the raw ID has none and no fallback zone is configured.
   */
  lemma {:induction false} SnapshotIdRoundTrip(id: string, zone: string, fallbackZone: string)
    ensures DecodeSnapshotId(EncodeSnapshotId(id, zone), fallbackZone) == (id, zone) <==>
              (if zone == "" then SlashFree(id) && fallbackZone == "" else SlashFree(zone))
  {
    var encoded := EncodeSnapshotId(id, zone);
    var i := FirstSlash(encoded);
    if zone == "" {
      SlashFreeMeans(id);
      if i < |encoded| {
        assert |encoded[i + 1..]| < |id|;
      }
    } else if SlashFree(zone) {
      FirstSlashOfConcat(zone, id);
    } else {
      assert encoded[|zone|] == '/';
      assert '/' in zone;
      var j :| 0 <= j < |zone| && zone[j] == '/';
      assert encoded[j] == '/';
      assert i < |zone|;
      assert |encoded[..i]| < |zone|;
    }
  }

  // ---------- Pulumi scoped IDs ----------

  /** Go's strings.Split(s, "/"). */
  function Split(s: string): (parts: seq<string>)
    ensures |parts| >= 1
    ensures forall p :: p in parts ==> SlashFree(p)
    decreases |s|
  {
    var i := FirstSlash(s);
    if i == |s| then
      SlashFreeMeans(s);
      [s]
    else
      SlashFreeMeans(s[..i]);
      assert forall c :: c in s[..i] ==> c != '/';
      [s[..i]] + Split(s[i + 1..])
  }

  function ScopedId(zone: string, project: string, id: string): string {
    zone + "/" + project + "/" + id
  }

  function ParseScopedId(id: string): (string, string, string) {
    var parts := Split(id);
    if |parts| == 3 then (parts[0], parts[1], parts[2])
    else if |parts| == 2 then (parts[0], "", parts[1])
    else ("", "", id)
  }

  function BareResourceId(id: string): string {
    ParseScopedId(id).2
  }

  lemma {:induction false} SplitConcat(a: string, b: string)
    requires SlashFree(a)
    ensures Split(a + "/" + b) == [a] + Split(b)
  {
    FirstSlashOfConcat(a, b);
  }

  lemma {:induction false} SplitSlashFree(s: string)
    requires SlashFree(s)
    ensures Split(s) == [s]
  {
    SlashFreeMeans(s);
  }

  lemma {:induction false} ScopedIdRoundTrip(zone: string, project: string, id: string)
    requires SlashFree(zone) && SlashFree(project) && SlashFree(id)
    ensures ParseScopedId(ScopedId(zone, project, id)) == (zone, project, id)
    ensures BareResourceId(ScopedId(zone, project, id)) == id
  {
    assert ScopedId(zone, project, id) == zone + "/" + (project + "/" + id);
    SplitConcat(zone, project + "/" + id);
    SplitConcat(project, id);
    SplitSlashFree(id);
  }

  lemma {:induction false} BareOfSlashFree(id: string)
    requires SlashFree(id)
    ensures BareResourceId(id) == id
  {
    SplitSlashFree(id);
  }

  /** Taking the bare ID twice changes nothing, whatever the string. */
  lemma {:induction false} BareResourceIdIdempotent(id: string)
    ensures BareResourceId(BareResourceId(id)) == BareResourceId(id)
  {
    var parts := Split(id);
    if |parts| == 3 {
      assert parts[2] in parts;
      BareOfSlashFree(parts[2]);
    } else if |parts| == 2 {
      assert parts[1] in parts;
      BareOfSlashFree(parts[1]);
    }
  }
}
