/** The Pulumi provider's reading of an instance's address map. */
module Addresses {
  import opened Ordering

  datatype AddressEntry = AddressEntry(addr: string, version: int, kind: string)

  datatype ParsedAddresses = ParsedAddresses(
    networks: seq<string>, ipv4: seq<string>, ipv6: seq<string>, privateIPv4: string, publicIPv4: string)

  /** All entries, network by network. */
  function Flatten(raw: map<string, seq<AddressEntry>>, networks: seq<string>): seq<AddressEntry>
    requires forall n :: n in networks ==> n in raw
  {
    if networks == [] then [] else raw[networks[0]] + Flatten(raw, networks[1..])
  }

  function IPv4(entries: seq<AddressEntry>): seq<string> {
    if entries == [] then []
    else if entries[0].version == 6 then IPv4(entries[1..])
    else [entries[0].addr] + IPv4(entries[1..])
  }

  function IPv6(entries: seq<AddressEntry>): seq<string> {
    if entries == [] then []
    else if entries[0].version == 6 then [entries[0].addr] + IPv6(entries[1..])
    else IPv6(entries[1..])
  }

  function Addrs(entries: seq<AddressEntry>): seq<string> {
    if entries == [] then [] else [entries[0].addr] + Addrs(entries[1..])
  }

  predicate Floating(e: AddressEntry) {
    e.kind == "floating" || e.kind == "public"
  }

  /** An IPv4 entry that can be the public address, or the private one. */
  predicate Eligible(e: AddressEntry, public: bool) {
    e.version != 6 && Floating(e) == public && e.addr != ""
  }

  predicate NoneEligible(entries: seq<AddressEntry>, public: bool) {
    forall k :: 0 <= k < |entries| ==> !Eligible(entries[k], public)
  }

  predicate FirstEligible(entries: seq<AddressEntry>, public: bool, addr: string) {
    exists k :: 0 <= k < |entries| && Eligible(entries[k], public) && entries[k].addr == addr
                && forall j :: 0 <= j < k ==> !Eligible(entries[j], public)
  }

  /** What the loops have chosen so far: the first eligible address, if there is one. */
  predicate Chosen(entries: seq<AddressEntry>, public: bool, addr: string) {
    if addr == "" then NoneEligible(entries, public) else FirstEligible(entries, public, addr)
  }

  /** What the result must be, whatever order the map is walked in. */
  ghost predicate Parses(raw: map<string, seq<AddressEntry>>, out: ParsedAddresses) {
    && Enumerates(out.networks, raw.Keys)
    && var entries := Flatten(raw, out.networks);
    && out.ipv4 == IPv4(entries)
    && out.ipv6 == IPv6(entries)
    && (if NoneEligible(entries, false)
        then out.privateIPv4 == (if |out.ipv4| > 0 then out.ipv4[0] else "")
        else FirstEligible(entries, false, out.privateIPv4))
    && (if NoneEligible(entries, true)
        then out.publicIPv4 == (if |out.ipv4| > 1 then out.ipv4[|out.ipv4| - 1] else "")
        else FirstEligible(entries, true, out.publicIPv4))
  }

  method ParseAddresses(raw: map<string, seq<AddressEntry>>) returns (out: ParsedAddresses)
    ensures Parses(raw, out)
  {
    if |raw| == 0 {
      assert raw.Keys == {};
      return ParsedAddresses([], [], [], "", "");
    }
    var networks := SortedNames(raw);
    out := ParsedAddresses(networks, [], [], "", "");
    for i := 0 to |networks|
      invariant Progress(out, networks, Flatten(raw, networks[..i]))
    {
      assert networks[i] in networks;
      out := ReadNetwork(out, raw[networks[i]], networks, Flatten(raw, networks[..i]));
      FlattenExtends(raw, networks, i);
    }
    assert networks[..|networks|] == networks;
    if out.privateIPv4 == "" && |out.ipv4| > 0 {
      out := out.(privateIPv4 := out.ipv4[0]);
    }
    if out.publicIPv4 == "" && |out.ipv4| > 1 {
      out := out.(publicIPv4 := out.ipv4[|out.ipv4| - 1]);
    }
  }

  /** The inner loop: the entries of one network. */
  method ReadNetwork(start: ParsedAddresses, entries: seq<AddressEntry>, ghost networks: seq<string>,
        ghost seen: seq<AddressEntry>)
    returns (out: ParsedAddresses)
    requires Progress(start, networks, seen)
    ensures Progress(out, networks, seen + entries)
  {
    out := start;
    assert seen + entries[..0] == seen;
    for j := 0 to |entries|
      invariant Progress(out, networks, seen + entries[..j])
    {
      var entry := entries[j];
      ghost var read := seen + entries[..j];
      ListsExtend(read, entry);
      ChosenExtends(read, false, out.privateIPv4, entry);
      ChosenExtends(read, true, out.publicIPv4, entry);
      if entry.version == 6 {
        out := out.(ipv6 := out.ipv6 + [entry.addr]);
      } else {
        out := out.(ipv4 := out.ipv4 + [entry.addr]);
        if entry.kind == "floating" || entry.kind == "public" {
          if out.publicIPv4 == "" {
            out := out.(publicIPv4 := entry.addr);
          }
        } else if out.privateIPv4 == "" {
          out := out.(privateIPv4 := entry.addr);
        }
      }
      assert seen + entries[..j + 1] == read + [entry];
    }
    assert entries[..|entries|] == entries;
  }

  /** The keys of the map, collected in any order and then sorted. */
  method SortedNames(raw: map<string, seq<AddressEntry>>) returns (names: seq<string>)
    ensures Enumerates(names, raw.Keys)
  {
    names := [];
    var pending := raw.Keys;
    while pending != {}
      invariant pending <= raw.Keys
      invariant DistinctKeys(names, Itself)
      invariant forall x :: x in names <==> x in raw.Keys - pending
    {
      var name :| name in pending;
      assert forall k :: 0 <= k < |names| ==> names[k] in names;
      names := names + [name];
      pending := pending - {name};
    }
    SortEnumerates(names, raw.Keys);
    names := SortStrings(names);
  }

  /** The result while the entries in `seen` have been read. */
  predicate Progress(out: ParsedAddresses, networks: seq<string>, seen: seq<AddressEntry>) {
    && out.networks == networks
    && out.ipv4 == IPv4(seen) && out.ipv6 == IPv6(seen)
    && Chosen(seen, false, out.privateIPv4) && Chosen(seen, true, out.publicIPv4)
  }

  function ChooseNext(addr: string, public: bool, entry: AddressEntry): string {
    if addr == "" && Eligible(entry, public) then entry.addr else addr
  }

  lemma {:induction false} ChosenExtends(seen: seq<AddressEntry>, public: bool, addr: string, entry: AddressEntry)
    requires Chosen(seen, public, addr)
    ensures Chosen(seen + [entry], public, ChooseNext(addr, public, entry))
  {
    var more := seen + [entry];
    assert more[|seen|] == entry && forall k :: 0 <= k < |seen| ==> more[k] == seen[k];
    if addr != "" {
      var k :| 0 <= k < |seen| && Eligible(seen[k], public) && seen[k].addr == addr
               && forall j :: 0 <= j < k ==> !Eligible(seen[j], public);
      assert Eligible(more[k], public) && more[k].addr == addr;
    }
  }

  lemma {:induction false} ListsExtend(seen: seq<AddressEntry>, entry: AddressEntry)
    ensures IPv4(seen + [entry]) == IPv4(seen) + (if entry.version == 6 then [] else [entry.addr])
    ensures IPv6(seen + [entry]) == IPv6(seen) + (if entry.version == 6 then [entry.addr] else [])
  {
    if seen == [] {
      assert seen + [entry] == [entry];
    } else {
      var more := seen + [entry];
      assert more[0] == seen[0] && more[1..] == seen[1..] + [entry];
      ListsExtend(seen[1..], entry);
    }
  }

  lemma {:induction false} FlattenExtends(raw: map<string, seq<AddressEntry>>, networks: seq<string>, i: nat)
    requires forall n :: n in networks ==> n in raw
    requires i < |networks|
    ensures Flatten(raw, networks[..i + 1]) == Flatten(raw, networks[..i]) + raw[networks[i]]
    decreases i
  {
    assert networks[..i + 1] == [networks[0]] + networks[1..][..i];
    if i > 0 {
      FlattenExtends(raw, networks[1..], i - 1);
      assert networks[..i] == [networks[0]] + networks[1..][..i - 1];
      assert networks[1..][i - 1] == networks[i];
    } else {
      assert networks[..1][1..] == [];
    }
  }

  // ---------- what the result means ----------

  /** There is one result, so walking the map in another order gives the same. */
  lemma {:induction false} ParseIsDeterministic(raw: map<string, seq<AddressEntry>>, a: ParsedAddresses,
        b: ParsedAddresses)
    requires Parses(raw, a) && Parses(raw, b)
    ensures a == b
  {
    EnumerationUnique(a.networks, b.networks, raw.Keys);
  }

  /** IPv4 and IPv6 share out the entries, losing and duplicating none. */
  lemma {:induction false} AddressesPartition(entries: seq<AddressEntry>)
    ensures multiset(IPv4(entries)) + multiset(IPv6(entries)) == multiset(Addrs(entries))
    ensures |IPv4(entries)| + |IPv6(entries)| == |entries|
  {
    if entries != [] {
      AddressesPartition(entries[1..]);
    }
  }

  /** Order is kept: an entry's place is the number of entries of its kind before it. */
  lemma {:induction false} EntryLands(entries: seq<AddressEntry>, i: nat)
    requires i < |entries|
    ensures entries[i].version == 6 ==>
              var at := |IPv6(entries[..i])|; at < |IPv6(entries)| && IPv6(entries)[at] == entries[i].addr
    ensures entries[i].version != 6 ==>
              var at := |IPv4(entries[..i])|; at < |IPv4(entries)| && IPv4(entries)[at] == entries[i].addr
    decreases i
  {
    if i > 0 {
      EntryLands(entries[1..], i - 1);
      assert entries[..i] == [entries[0]] + entries[1..][..i - 1];
    }
  }

  /**
   Both choices are members of IPv4 or empty; the private one is empty only if the first IPv4
   address is, or there is none.
   */
  lemma {:induction false} ChoicesAreMembers(raw: map<string, seq<AddressEntry>>, out: ParsedAddresses)
    requires Parses(raw, out)
    ensures out.privateIPv4 in out.ipv4 || (out.privateIPv4 == "" && out.ipv4 == [])
    ensures out.publicIPv4 in out.ipv4 || (out.publicIPv4 == "" && |out.ipv4| <= 1)
    ensures out.privateIPv4 == "" ==> out.ipv4 == [] || out.ipv4[0] == ""
  {
    var entries := Flatten(raw, out.networks);
    forall k | 0 <= k < |entries| && entries[k].version != 6 ensures entries[k].addr in out.ipv4 {
      EntryLands(entries, k);
    }
  }
}
