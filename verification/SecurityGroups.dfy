/**
 The Pulumi provider's update of an instance's security groups: compare the old and the new
 list up to scoping, and if they look different, detach what is gone and attach what is new.
 */
module SecurityGroups {
  import opened Identifiers
  import opened Ordering

  function Bares(ids: seq<string>): (out: seq<string>)
    ensures |out| == |ids|
    ensures forall i :: 0 <= i < |ids| ==> out[i] == BareResourceId(ids[i])
  {
    if ids == [] then [] else [BareResourceId(ids[0])] + Bares(ids[1..])
  }

  function BareSet(ids: seq<string>): set<string> {
    set id | id in ids :: BareResourceId(id)
  }

  method BareIds(ids: seq<string>) returns (out: seq<string>)
    ensures out == Bares(ids)
  {
    if |ids| == 0 {
      return ids;
    }
    var filled := new string[|ids|];
    for i := 0 to |ids|
      invariant forall k :: 0 <= k < i ==> filled[k] == BareResourceId(ids[k])
    {
      filled[i] := BareResourceId(ids[i]);
    }
    out := filled[..];
  }

  // ---------- the comparison ----------

  /** Equal as the driver sees it: sort the raw strings, then compare their bare IDs in order. */
  predicate LookEqual(a: seq<string>, b: seq<string>) {
    Bares(SortStrings(a)) == Bares(SortStrings(b))
  }

  method StringSlicesEqual(a: seq<string>, b: seq<string>) returns (equal: bool)
    ensures equal <==> LookEqual(a, b)
  {
    SortSorts(a, Itself);
    SortSorts(b, Itself);
    if |a| != |b| {
      return false;
    }
    var aa, bb := SortStrings(a), SortStrings(b);
    for i := 0 to |aa|
      invariant forall k :: 0 <= k < i ==> BareResourceId(aa[k]) == BareResourceId(bb[k])
    {
      if BareResourceId(aa[i]) != BareResourceId(bb[i]) {
        assert Bares(aa)[i] != Bares(bb)[i];
        return false;
      }
    }
    return true;
  }

  lemma {:induction false} BaresOfInsert(x: string, xs: seq<string>)
    ensures multiset(Bares(Insert(x, xs, Itself))) == multiset{BareResourceId(x)} + multiset(Bares(xs))
  {
    if xs == [] || Leq(Itself(x), Itself(xs[0])) {
      assert Bares([x] + xs) == [BareResourceId(x)] + Bares(xs);
    } else {
      BaresOfInsert(x, xs[1..]);
      var tail := Insert(x, xs[1..], Itself);
      assert Bares([xs[0]] + tail) == [BareResourceId(xs[0])] + Bares(tail);
      assert Bares(xs) == [BareResourceId(xs[0])] + Bares(xs[1..]);
    }
  }

  lemma {:induction false} BaresOfSort(xs: seq<string>)
    ensures multiset(Bares(SortStrings(xs))) == multiset(Bares(xs))
  {
    if xs != [] {
      BaresOfSort(xs[1..]);
      BaresOfInsert(xs[0], SortStrings(xs[1..]));
      assert Bares(xs) == [BareResourceId(xs[0])] + Bares(xs[1..]);
    }
  }

  /** Lists that look equal name the same groups, each as often. */
  lemma {:induction false} LookEqualIsSound(a: seq<string>, b: seq<string>)
    requires LookEqual(a, b)
    ensures multiset(Bares(a)) == multiset(Bares(b))
    ensures BareSet(a) == BareSet(b)
  {
    BaresOfSort(a);
    BaresOfSort(b);
    forall x ensures x in BareSet(a) <==> x in BareSet(b) {
      BareSetOfBares(a, x);
      BareSetOfBares(b, x);
    }
  }

  lemma {:induction false} BareSetOfBares(ids: seq<string>, x: string)
    ensures x in BareSet(ids) <==> x in multiset(Bares(ids))
  {
    if x in BareSet(ids) {
      var id :| id in ids && BareResourceId(id) == x;
      var i :| 0 <= i < |ids| && ids[i] == id;
      assert Bares(ids)[i] == x;
    }
    if x in Bares(ids) {
      var i :| 0 <= i < |ids| && Bares(ids)[i] == x;
      assert ids[i] in ids;
    }
  }

  // ---------- when the comparison is exact ----------

  predicate AllSlashFree(ids: seq<string>) {
    forall id :: id in ids ==> SlashFree(id)
  }

  /** Sorting the raw strings also sorts the bare IDs. */
  predicate OrderAgrees(ids: seq<string>) {
    Sorted(Bares(SortStrings(ids)), Itself)
  }

  /** Where the two orders agree, the comparison decides equality of the groups, order apart. */
  lemma {:induction false} LookEqualIsExact(a: seq<string>, b: seq<string>)
    requires OrderAgrees(a) && OrderAgrees(b)
    ensures LookEqual(a, b) <==> multiset(Bares(a)) == multiset(Bares(b))
  {
    BaresOfSort(a);
    BaresOfSort(b);
    if multiset(Bares(a)) == multiset(Bares(b)) {
      SortedPermutationUnique(Bares(SortStrings(a)), Bares(SortStrings(b)), Itself, multiset(Bares(a)));
    }
  }

  /** Against a list whose orders agree the comparison is right exactly when the other list's do, too. */
  lemma {:induction false} LookEqualToOrderedList(a: seq<string>, b: seq<string>)
    requires OrderAgrees(b)
    ensures LookEqual(a, b) <==> multiset(Bares(a)) == multiset(Bares(b)) && OrderAgrees(a)
  {
    BaresOfSort(a);
    BaresOfSort(b);
    if multiset(Bares(a)) == multiset(Bares(b)) && OrderAgrees(a) {
      LookEqualIsExact(a, b);
    }
  }

  lemma {:induction false} SlashFreeIsBare(ids: seq<string>)
    requires AllSlashFree(ids)
    ensures Bares(ids) == ids
  {
    forall i | 0 <= i < |ids| ensures BareResourceId(ids[i]) == ids[i] {
      BareOfSlashFree(ids[i]);
    }
  }

  lemma {:induction false} SlashFreeSorted(ids: seq<string>)
    requires AllSlashFree(ids)
    ensures Bares(SortStrings(ids)) == SortStrings(ids) && OrderAgrees(ids)
  {
    forall id ensures id in SortStrings(ids) <==> id in ids {
      SortMembers(ids, Itself, id);
    }
    SlashFreeIsBare(SortStrings(ids));
    SortSorts(ids, Itself);
  }

  /** On IDs without "/", lists look equal exactly when one is a permutation of the other. */
  lemma {:induction false} LookEqualIffPermutation(a: seq<string>, b: seq<string>)
    requires AllSlashFree(a) && AllSlashFree(b)
    ensures LookEqual(a, b) <==> multiset(a) == multiset(b)
  {
    SlashFreeIsBare(a);
    SlashFreeIsBare(b);
    SlashFreeSorted(a);
    SlashFreeSorted(b);
    LookEqualToOrderedList(a, b);
  }

  predicate ScopedUnder(zone: string, project: string, id: string) {
    SlashFree(BareResourceId(id)) && id == ScopedId(zone, project, BareResourceId(id))
  }

  lemma {:induction false} LeqWithoutPrefix(prefix: string, a: string, b: string)
    ensures Leq(prefix + a, prefix + b) <==> Leq(a, b)
  {
    if prefix == "" {
      assert prefix + a == a && prefix + b == b;
    } else {
      LeqWithoutPrefix(prefix[1..], a, b);
      assert (prefix + a)[1..] == prefix[1..] + a && (prefix + b)[1..] == prefix[1..] + b;
    }
  }

  /** IDs that are all scoped under one zone and project are compared exactly, too. */
  lemma {:induction false} OneScopeAgrees(zone: string, project: string, ids: seq<string>)
    requires forall id :: id in ids ==> ScopedUnder(zone, project, id)
    ensures OrderAgrees(ids)
  {
    var sorted := SortStrings(ids);
    SortSorts(ids, Itself);
    var prefix := zone + "/" + project + "/";
    forall i, j | 0 <= i < j < |sorted| ensures Leq(Bares(sorted)[i], Bares(sorted)[j]) {
      SortMembers(ids, Itself, sorted[i]);
      SortMembers(ids, Itself, sorted[j]);
      assert sorted[i] == prefix + Bares(sorted)[i] && sorted[j] == prefix + Bares(sorted)[j];
      assert Leq(Itself(sorted[i]), Itself(sorted[j]));
      LeqWithoutPrefix(prefix, Bares(sorted)[i], Bares(sorted)[j]);
    }
  }

  /** With scoped and bare IDs mixed, lists of the same groups can look different. */
  lemma {:induction false} MixedListsLookDifferent()
    ensures var a, b := ["z/p/a", "b"], ["a", "b"];
            multiset(Bares(a)) == multiset(Bares(b)) && !LookEqual(a, b)
  {
    var a, b := ["z/p/a", "b"], ["a", "b"];
    ScopedIdRoundTrip("z", "p", "a");
    BareOfSlashFree("a");
    BareOfSlashFree("b");
    assert ScopedId("z", "p", "a") == "z/p/a";
    assert a[1..] == ["b"] && b[1..] == ["b"];
    assert SortStrings(["b"]) == ["b"];
    assert SortStrings(a) == ["b", "z/p/a"];
    assert SortStrings(b) == ["a", "b"];
    assert Bares(a) == ["a", "b"] && Bares(b) == ["a", "b"];
    assert Bares(SortStrings(a))[0] == "b" && Bares(SortStrings(b))[0] == "a";
  }

  // ---------- the difference ----------

  /** What to attach and what to detach: the two differences of the sets of bare IDs, sorted. */
  method SliceDiff(olds: seq<string>, news: seq<string>) returns (add: seq<string>, remove: seq<string>)
    ensures Enumerates(add, BareSet(news) - BareSet(olds))
    ensures Enumerates(remove, BareSet(olds) - BareSet(news))
  {
    var oldSet := Collect(olds);
    var newSet := Collect(news);
    add := Missing(newSet, oldSet);
    remove := Missing(oldSet, newSet);
    SortEnumerates(add, newSet - oldSet);
    SortEnumerates(remove, oldSet - newSet);
    add, remove := SortStrings(add), SortStrings(remove);
  }

  method Collect(ids: seq<string>) returns (collected: set<string>)
    ensures collected == BareSet(ids)
  {
    collected := {};
    for i := 0 to |ids|
      invariant collected == BareSet(ids[..i])
    {
      assert ids[..i + 1] == ids[..i] + [ids[i]];
      collected := collected + {BareResourceId(ids[i])};
    }
    assert ids[..|ids|] == ids;
  }

  /** The elements of `from` that are not in `other`, in whatever order the map yields them. */
  method Missing(from: set<string>, other: set<string>) returns (missing: seq<string>)
    ensures DistinctKeys(missing, Itself)
    ensures forall x :: x in missing <==> x in from - other
  {
    missing := [];
    var pending := from;
    while pending != {}
      invariant pending <= from
      invariant DistinctKeys(missing, Itself)
      invariant forall x :: x in missing <==> x in from - pending - other
    {
      var v :| v in pending;
      pending := pending - {v};
      if v !in other {
        assert forall k :: 0 <= k < |missing| ==> missing[k] in missing;
        missing := missing + [v];
      }
    }
  }

  // ---------- the update ----------

  datatype GroupCall = Detach(group: string) | Attach(group: string)

  function DetachAll(groups: seq<string>): seq<GroupCall> {
    seq(|groups|, i requires 0 <= i < |groups| => Detach(groups[i]))
  }

  function AttachAll(groups: seq<string>): seq<GroupCall> {
    seq(|groups|, i requires 0 <= i < |groups| => Attach(groups[i]))
  }

  /** The groups a server is in, and the calls made to change them; a failed call may or may not have taken effect. */
  class Server {
    var groups: set<string>
    var calls: seq<GroupCall>

    constructor (groups: set<string>)
      ensures this.groups == groups && calls == []
    {
      this.groups := groups;
      calls := [];
    }

    method RemoveSecurityGroup(group: string) returns (ok: bool)
      modifies this
      ensures calls == old(calls) + [Detach(group)]
      ensures groups == old(groups) - {group} || (!ok && groups == old(groups))
    {
      calls := calls + [Detach(group)];
      ok := *;
      var effective: bool := *;
      if ok || effective {
        groups := groups - {group};
      }
    }

    method AttachSecurityGroup(group: string) returns (ok: bool)
      modifies this
      ensures calls == old(calls) + [Attach(group)]
      ensures groups == old(groups) + {group} || (!ok && groups == old(groups))
    {
      calls := calls + [Attach(group)];
      ok := *;
      var effective: bool := *;
      if ok || effective {
        groups := groups + {group};
      }
    }
  }

  /** Only groups in `touched` may have come or gone. */
  ghost predicate SameOutside(before: set<string>, after: set<string>, touched: set<string>) {
    forall g :: g !in touched ==> (g in after <==> g in before)
  }

  function Elements(xs: seq<string>): set<string> {
    set x | x in xs
  }

  method DetachEach(server: Server, remove: seq<string>) returns (ok: bool, ghost made: nat)
    modifies server
    ensures made <= |remove| && server.calls == old(server.calls) + DetachAll(remove[..made])
    ensures ok ==> made == |remove| && server.groups == old(server.groups) - Elements(remove)
    ensures SameOutside(old(server.groups), server.groups, Elements(remove))
  {
    made := 0;
    for i := 0 to |remove|
      invariant made == i && server.calls == old(server.calls) + DetachAll(remove[..i])
      invariant server.groups == old(server.groups) - Elements(remove[..i])
    {
      var done := server.RemoveSecurityGroup(remove[i]);
      assert remove[..i + 1] == remove[..i] + [remove[i]];
      assert DetachAll(remove[..i + 1]) == DetachAll(remove[..i]) + [Detach(remove[i])];
      made := i + 1;
      if !done {
        return false, made;
      }
    }
    assert remove[..|remove|] == remove;
    return true, made;
  }

  method AttachEach(server: Server, add: seq<string>) returns (ok: bool, ghost made: nat)
    modifies server
    ensures made <= |add| && server.calls == old(server.calls) + AttachAll(add[..made])
    ensures ok ==> made == |add| && server.groups == old(server.groups) + Elements(add)
    ensures SameOutside(old(server.groups), server.groups, Elements(add))
  {
    made := 0;
    for i := 0 to |add|
      invariant made == i && server.calls == old(server.calls) + AttachAll(add[..i])
      invariant server.groups == old(server.groups) + Elements(add[..i])
    {
      var done := server.AttachSecurityGroup(add[i]);
      assert add[..i + 1] == add[..i] + [add[i]];
      assert AttachAll(add[..i + 1]) == AttachAll(add[..i]) + [Attach(add[i])];
      made := i + 1;
      if !done {
        return false, made;
      }
    }
    assert add[..|add|] == add;
    return true, made;
  }

  /** The one sequence of calls that leads from the old to the new groups: detaches, then attaches, each sorted. */
  ghost predicate Script(olds: seq<string>, news: seq<string>, calls: seq<GroupCall>) {
    exists add, remove ::
      Enumerates(add, BareSet(news) - BareSet(olds)) && Enumerates(remove, BareSet(olds) - BareSet(news))
      && calls == DetachAll(remove) + AttachAll(add)
  }

  lemma {:induction false} ScriptUnique(olds: seq<string>, news: seq<string>, a: seq<GroupCall>, b: seq<GroupCall>)
    requires Script(olds, news, a) && Script(olds, news, b)
    ensures a == b
  {
    var gains, losses := BareSet(news) - BareSet(olds), BareSet(olds) - BareSet(news);
    var add, remove :| Enumerates(add, gains) && Enumerates(remove, losses) && a == DetachAll(remove) + AttachAll(add);
    var add', remove' :| Enumerates(add', gains) && Enumerates(remove', losses)
      && b == DetachAll(remove') + AttachAll(add');
    EnumerationUnique(add, add', gains);
    EnumerationUnique(remove, remove', losses);
  }

  function Touched(olds: seq<string>, news: seq<string>): set<string> {
    (BareSet(olds) - BareSet(news)) + (BareSet(news) - BareSet(olds))
  }

  /**
   The security-group part of the instance update.  Whatever the comparison says, the calls
   made are the script or, when one fails, a beginning of it.
   */
  method UpdateSecurityGroups(server: Server, olds: seq<string>, news: seq<string>)
    returns (ok: bool, ghost script: seq<GroupCall>, ghost made: seq<GroupCall>)
    modifies server
    ensures ok && old(server.groups) == BareSet(olds) ==> server.groups == BareSet(news)
    ensures ok ==>
              server.groups == old(server.groups) - (BareSet(olds) - BareSet(news)) + (BareSet(news) - BareSet(olds))
    ensures SameOutside(old(server.groups), server.groups, Touched(olds, news))
    ensures Script(olds, news, script) && made <= script && (ok ==> made == script)
    ensures server.calls == old(server.calls) + made
  {
    var equal := StringSlicesEqual(olds, news);
    if equal {
      LookEqualIsSound(olds, news);
      assert Enumerates([], BareSet(news) - BareSet(olds)) && Enumerates([], BareSet(olds) - BareSet(news));
      assert DetachAll([]) + AttachAll([]) == [];
      return true, [], [];
    }
    ok, script, made := ApplyDifference(server, olds, news);
  }

  method ApplyDifference(server: Server, olds: seq<string>, news: seq<string>)
    returns (ok: bool, ghost script: seq<GroupCall>, ghost made: seq<GroupCall>)
    modifies server
    ensures ok && old(server.groups) == BareSet(olds) ==> server.groups == BareSet(news)
    ensures ok ==>
              server.groups == old(server.groups) - (BareSet(olds) - BareSet(news)) + (BareSet(news) - BareSet(olds))
    ensures SameOutside(old(server.groups), server.groups, Touched(olds, news))
    ensures Script(olds, news, script) && made <= script && (ok ==> made == script)
    ensures server.calls == old(server.calls) + made
  {
    var add, remove := SliceDiff(olds, news);
    script := DetachAll(remove) + AttachAll(add);
    ghost var before := server.groups;
    var detached, losses := DetachEach(server, remove);
    if !detached {
      SameOutsideGrows(before, server.groups, remove, olds, news);
      DetachesAreABeginning(remove, add, losses);
      return false, script, DetachAll(remove[..losses]);
    }
    assert remove[..losses] == remove;
    ghost var between := server.groups;
    var attached, gains := AttachEach(server, add);
    UpdateOutcome(before, between, server.groups, add, remove, olds, news);
    AttachesContinue(remove, add, gains);
    return attached, script, DetachAll(remove) + AttachAll(add[..gains]);
  }

  lemma {:induction false} DetachesAreABeginning(remove: seq<string>, add: seq<string>, n: nat)
    requires n <= |remove|
    ensures DetachAll(remove[..n]) <= DetachAll(remove) + AttachAll(add)
  {
    assert DetachAll(remove) == DetachAll(remove[..n]) + DetachAll(remove[n..]);
  }

  lemma {:induction false} AttachesContinue(remove: seq<string>, add: seq<string>, n: nat)
    requires n <= |add|
    ensures DetachAll(remove) + AttachAll(add[..n]) <= DetachAll(remove) + AttachAll(add)
    ensures n == |add| ==> AttachAll(add[..n]) == AttachAll(add)
  {
    assert AttachAll(add) == AttachAll(add[..n]) + AttachAll(add[n..]);
    assert n == |add| ==> add[..n] == add;
  }

  lemma {:induction false} SameOutsideGrows(before: set<string>, after: set<string>, remove: seq<string>,
        olds: seq<string>, news: seq<string>)
    requires Enumerates(remove, BareSet(olds) - BareSet(news))
    requires SameOutside(before, after, Elements(remove))
    ensures SameOutside(before, after, Touched(olds, news))
  {
    assert Elements(remove) == BareSet(olds) - BareSet(news);
  }

  /** The effect of the detaches and the attaches together. */
  lemma {:induction false} UpdateOutcome(before: set<string>, between: set<string>, after: set<string>,
                                         add: seq<string>, remove: seq<string>, olds: seq<string>, news: seq<string>)
    requires Enumerates(add, BareSet(news) - BareSet(olds)) && Enumerates(remove, BareSet(olds) - BareSet(news))
    requires between == before - Elements(remove) && SameOutside(between, after, Elements(add))
    ensures SameOutside(before, after, Touched(olds, news))
    ensures after == between + Elements(add) ==>
              after == before - (BareSet(olds) - BareSet(news)) + (BareSet(news) - BareSet(olds))
    ensures after == between + Elements(add) && before == BareSet(olds) ==> after == BareSet(news)
  {
    assert Elements(remove) == BareSet(olds) - BareSet(news);
    assert Elements(add) == BareSet(news) - BareSet(olds);
  }
}
