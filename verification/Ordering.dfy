/**
 Go compares strings byte by byte, so "vol-10" comes before "vol-2".  This module fixes that
 order and the sorting the driver and the Pulumi provider do with it.  A `char` stands for a byte.
 */
module Ordering {

  predicate Leq(a: string, b: string) {
    a == "" || (b != "" && (a[0] < b[0] || (a[0] == b[0] && Leq(a[1..], b[1..]))))
  }

  predicate Less(a: string, b: string) {
    a != b && Leq(a, b)
  }

  lemma {:induction false} LeqTotal(a: string, b: string)
    ensures Leq(a, b) || Leq(b, a)
  {
    if a != "" && b != "" && a[0] == b[0] {
      LeqTotal(a[1..], b[1..]);
    }
  }

  lemma {:induction false} LeqAntisymmetric(a: string, b: string)
    requires Leq(a, b) && Leq(b, a)
    ensures a == b
  {
    if a != "" && b != "" {
      LeqAntisymmetric(a[1..], b[1..]);
      assert a == [a[0]] + a[1..] && b == [b[0]] + b[1..];
    }
  }

  lemma {:induction false} LeqTransitive(a: string, b: string, c: string)
    requires Leq(a, b) && Leq(b, c)
    ensures Leq(a, c)
  {
    if a != "" && a[0] == b[0] == c[0] {
      LeqTransitive(a[1..], b[1..], c[1..]);
    }
  }

  lemma {:induction false} LessTransitive(a: string, b: string, c: string)
    requires (Less(a, b) && Leq(b, c)) || (Leq(a, b) && Less(b, c))
    ensures Less(a, c)
  {
    LeqTransitive(a, b, c);
    if a == c {
      LeqAntisymmetric(a, b);
    }
  }

  // ---------- sorting by a string key ----------

  predicate Sorted<T(==)>(xs: seq<T>, key: T -> string) {
    forall i, j :: 0 <= i < j < |xs| ==> Leq(key(xs[i]), key(xs[j]))
  }

  predicate DistinctKeys<T(==)>(xs: seq<T>, key: T -> string) {
    forall i, j :: 0 <= i < j < |xs| ==> key(xs[i]) != key(xs[j])
  }

  function Insert<T>(x: T, xs: seq<T>, key: T -> string): seq<T> {
    if xs == [] || Leq(key(x), key(xs[0])) then [x] + xs
    else [xs[0]] + Insert(x, xs[1..], key)
  }

  /** The result of slices.SortFunc and sort.Strings, up to the order of equal keys. */
  function Sort<T>(xs: seq<T>, key: T -> string): seq<T> {
    if xs == [] then [] else Insert(xs[0], Sort(xs[1..], key), key)
  }

  lemma {:induction false} InsertSorts<T>(x: T, xs: seq<T>, key: T -> string)
    requires Sorted(xs, key)
    ensures Sorted(Insert(x, xs, key), key)
    ensures multiset(Insert(x, xs, key)) == multiset{x} + multiset(xs)
  {
    if xs == [] {
    } else if Leq(key(x), key(xs[0])) {
      forall j | 0 <= j < |xs| ensures Leq(key(x), key(xs[j])) {
        if j > 0 { LeqTransitive(key(x), key(xs[0]), key(xs[j])); }
      }
    } else {
      LeqTotal(key(x), key(xs[0]));
      InsertSorts(x, xs[1..], key);
      var tail := Insert(x, xs[1..], key);
      assert xs == [xs[0]] + xs[1..];
      forall j | 0 <= j < |tail| ensures Leq(key(xs[0]), key(tail[j])) {
        assert tail[j] in multiset(tail);
        assert tail[j] == x || tail[j] in xs[1..];
      }
    }
  }

  lemma {:induction false} SortSorts<T>(xs: seq<T>, key: T -> string)
    ensures Sorted(Sort(xs, key), key)
    ensures multiset(Sort(xs, key)) == multiset(xs)
    ensures |Sort(xs, key)| == |xs|
  {
    if xs != [] {
      SortSorts(xs[1..], key);
      InsertSorts(xs[0], Sort(xs[1..], key), key);
      assert xs == [xs[0]] + xs[1..];
    }
    assert |multiset(Sort(xs, key))| == |multiset(xs)|;
  }

  predicate Injective<T(==)>(m: multiset<T>, key: T -> string) {
    forall x, y :: x in m && y in m && key(x) == key(y) ==> x == y
  }

  lemma {:induction false} TailMultiset<T>(xs: seq<T>)
    requires xs != []
    ensures multiset(xs[1..]) == multiset(xs) - multiset{xs[0]}
  {
    assert xs == [xs[0]] + xs[1..];
  }

  lemma {:induction false} SortedHead<T>(xs: seq<T>, key: T -> string, y: T)
    requires Sorted(xs, key) && y in multiset(xs)
    ensures Leq(key(xs[0]), key(y))
  {
    var i :| 0 <= i < |xs| && xs[i] == y;
    if i == 0 {
      LeqTotal(key(y), key(y));
    }
  }

  lemma {:induction false} SortedPermutationHead<T>(xs: seq<T>, ys: seq<T>, key: T -> string)
    requires xs != [] && ys != []
    requires Sorted(xs, key) && Sorted(ys, key)
    requires multiset(xs) == multiset(ys)
    ensures key(xs[0]) == key(ys[0])
  {
    assert xs[0] in multiset(xs) && ys[0] in multiset(ys);
    SortedHead(xs, key, ys[0]);
    SortedHead(ys, key, xs[0]);
    LeqAntisymmetric(key(xs[0]), key(ys[0]));
  }

  lemma {:induction false} SortedPermutationTail<T>(xs: seq<T>, ys: seq<T>, key: T -> string, pool: multiset<T>)
    requires xs != [] && ys != []
    requires Sorted(xs, key) && Sorted(ys, key)
    requires multiset(xs) == multiset(ys) <= pool && Injective(pool, key)
    ensures xs[0] == ys[0] && multiset(xs[1..]) == multiset(ys[1..]) <= pool
  {
    SortedPermutationHead(xs, ys, key);
    assert xs[0] in multiset(xs) && ys[0] in multiset(ys);
    TailMultiset(xs);
    TailMultiset(ys);
  }

  lemma {:induction false} SortedTail<T>(xs: seq<T>, key: T -> string)
    requires xs != [] && Sorted(xs, key)
    ensures Sorted(xs[1..], key)
  {
    assert forall i :: 0 <= i < |xs[1..]| ==> xs[1..][i] == xs[i + 1];
  }

  lemma {:induction false} SameSize<T>(xs: seq<T>, ys: seq<T>)
    requires multiset(xs) == multiset(ys)
    ensures |xs| == |ys|
  {
    assert |multiset(xs)| == |xs| && |multiset(ys)| == |ys|;
  }

  /** Go's sort is not stable; it does not matter as long as equal keys mean equal elements. */
  lemma {:induction false} SortedPermutationUnique<T>(xs: seq<T>, ys: seq<T>, key: T -> string, pool: multiset<T>)
    requires Sorted(xs, key) && Sorted(ys, key)
    requires multiset(xs) == multiset(ys) <= pool
    requires Injective(pool, key)
    ensures xs == ys
    decreases |xs|
  {
    SameSize(xs, ys);
    if xs != [] {
      SortedPermutationTail(xs, ys, key, pool);
      SortedTail(xs, key);
      SortedTail(ys, key);
      SortedPermutationUnique(xs[1..], ys[1..], key, pool);
      assert xs == [xs[0]] + xs[1..] && ys == [ys[0]] + ys[1..];
    }
  }

  /** Sorting forgets the order of its input. */
  lemma {:induction false} SortPermutationInvariant<T>(xs: seq<T>, ys: seq<T>, key: T -> string)
    requires multiset(xs) == multiset(ys)
    requires Injective(multiset(xs), key)
    ensures Sort(xs, key) == Sort(ys, key)
  {
    SortSorts(xs, key);
    SortSorts(ys, key);
    SortedPermutationUnique(Sort(xs, key), Sort(ys, key), key, multiset(xs));
  }

  lemma {:induction false} InsertMembers<T>(x: T, xs: seq<T>, key: T -> string, y: T)
    ensures y in Insert(x, xs, key) <==> y == x || y in xs
  {
    if xs != [] {
      InsertMembers(x, xs[1..], key, y);
      assert xs == [xs[0]] + xs[1..];
    }
  }

  lemma {:induction false} SortMembers<T>(xs: seq<T>, key: T -> string, y: T)
    ensures y in Sort(xs, key) <==> y in xs
  {
    if xs != [] {
      SortMembers(xs[1..], key, y);
      InsertMembers(xs[0], Sort(xs[1..], key), key, y);
      assert xs == [xs[0]] + xs[1..];
    }
  }

  predicate FreshKey<T(==)>(k: string, xs: seq<T>, key: T -> string) {
    forall i :: 0 <= i < |xs| ==> key(xs[i]) != k
  }

  lemma {:induction false} InsertKeepsDistinct<T>(x: T, xs: seq<T>, key: T -> string)
    requires DistinctKeys(xs, key) && FreshKey(key(x), xs, key)
    ensures DistinctKeys(Insert(x, xs, key), key)
  {
    if xs != [] && !Leq(key(x), key(xs[0])) {
      InsertKeepsDistinct(x, xs[1..], key);
      InsertKeepsFresh(key(xs[0]), x, xs[1..], key);
    }
  }

  lemma {:induction false} InsertKeepsFresh<T>(k: string, x: T, xs: seq<T>, key: T -> string)
    requires FreshKey(k, xs, key) && key(x) != k
    ensures FreshKey(k, Insert(x, xs, key), key)
  {
    if xs != [] {
      InsertKeepsFresh(k, x, xs[1..], key);
    }
  }

  lemma {:induction false} SortKeepsFresh<T>(k: string, xs: seq<T>, key: T -> string)
    requires FreshKey(k, xs, key)
    ensures FreshKey(k, Sort(xs, key), key)
  {
    if xs != [] {
      SortKeepsFresh(k, xs[1..], key);
      InsertKeepsFresh(k, xs[0], Sort(xs[1..], key), key);
    }
  }

  /** Distinct keys stay distinct when sorted, so the order becomes strict. */
  lemma {:induction false} SortKeepsDistinct<T>(xs: seq<T>, key: T -> string)
    requires DistinctKeys(xs, key)
    ensures DistinctKeys(Sort(xs, key), key)
  {
    if xs != [] {
      SortKeepsDistinct(xs[1..], key);
      SortKeepsFresh(key(xs[0]), xs[1..], key);
      InsertKeepsDistinct(xs[0], Sort(xs[1..], key), key);
    }
  }

  /** The head of a strictly sorted list is below everything else, and nothing else shares its ID. */
  lemma {:induction false} SortedHeadLowest<T>(sorted: seq<T>, key: T -> string, v: T)
    requires sorted != [] && Sorted(sorted, key) && DistinctKeys(sorted, key) && v in sorted
    ensures Leq(key(sorted[0]), key(v))
    ensures v in sorted[1..] <==> key(v) != key(sorted[0])
  {
    var k :| 0 <= k < |sorted| && sorted[k] == v;
    if k == 0 {
      LeqTotal(key(v), key(v));
      forall j | 0 <= j < |sorted[1..]| ensures sorted[1..][j] != v {
        assert sorted[1..][j] == sorted[j + 1];
      }
    } else {
      assert sorted[1..][k - 1] == v;
    }
  }

  ghost predicate SameMembers<T(!new)>(xs: seq<T>, ys: seq<T>) {
    forall x :: x in xs <==> x in ys
  }

  lemma {:induction false} SameMembersNothing<T(!new)>(xs: seq<T>, ys: seq<T>)
    requires SameMembers(xs, ys)
    ensures xs == [] ==> ys == []
  {
    if ys != [] {
      assert ys[0] in ys;
    }
  }

  lemma {:induction false} HeadThenTail<T>(xs: seq<T>, x: T)
    requires xs != []
    ensures x in xs <==> x == xs[0] || x in xs[1..]
  {
    assert xs == [xs[0]] + xs[1..];
  }

  /** A strictly sorted list is determined by its members. */
  lemma {:induction false} StrictlySortedUnique<T(!new)>(xs: seq<T>, ys: seq<T>, key: T -> string)
    requires Sorted(xs, key) && DistinctKeys(xs, key) && Sorted(ys, key) && DistinctKeys(ys, key)
    requires SameMembers(xs, ys)
    ensures xs == ys
  {
    SameMembersNothing(xs, ys);
    SameMembersNothing(ys, xs);
    if xs != [] {
      assert xs[0] in xs && ys[0] in ys;
      SortedHeadLowest(xs, key, ys[0]);
      SortedHeadLowest(ys, key, xs[0]);
      LeqAntisymmetric(key(xs[0]), key(ys[0]));
      assert xs[0] == ys[0];
      forall x ensures x in xs[1..] <==> x in ys[1..] {
        HeadThenTail(xs, x);
        HeadThenTail(ys, x);
        if x in xs {
          SortedHeadLowest(xs, key, x);
          SortedHeadLowest(ys, key, x);
        }
      }
      StrictlySortedUnique(xs[1..], ys[1..], key);
      assert xs == [xs[0]] + xs[1..] && ys == [ys[0]] + ys[1..];
    }
  }

  // ---------- plain string lists ----------

  function Itself(s: string): string { s }

  function SortStrings(xs: seq<string>): seq<string> { Sort(xs, Itself) }

  // ---------- counting ----------

  function Count<T>(xs: seq<T>, p: T -> bool): nat {
    if xs == [] then 0 else (if p(xs[0]) then 1 else 0) + Count(xs[1..], p)
  }

  lemma {:induction false} CountWithout<T>(xs: seq<T>, j: nat, p: T -> bool)
    requires j < |xs|
    ensures Count(xs, p) == (if p(xs[j]) then 1 else 0) + Count(xs[..j] + xs[j + 1..], p)
    decreases j
  {
    if j == 0 {
      assert xs[..0] + xs[1..] == xs[1..];
    } else {
      CountWithout(xs[1..], j - 1, p);
      var rest := xs[..j] + xs[j + 1..];
      assert rest[0] == xs[0] && rest[1..] == xs[1..][..j - 1] + xs[1..][j..];
    }
  }

  lemma {:induction false} CountOfPermutation<T>(xs: seq<T>, ys: seq<T>, p: T -> bool)
    requires multiset(xs) == multiset(ys)
    ensures Count(xs, p) == Count(ys, p)
    decreases |xs|
  {
    assert |multiset(xs)| == |xs| && |multiset(ys)| == |ys|;
    if xs != [] {
      assert xs[0] in multiset(ys);
      var j :| 0 <= j < |ys| && ys[j] == xs[0];
      CountWithout(ys, j, p);
      TailMultiset(xs);
      assert ys == ys[..j] + [ys[j]] + ys[j + 1..];
      CountOfPermutation(xs[1..], ys[..j] + ys[j + 1..], p);
    }
  }

  lemma {:induction false} CountPositive<T>(xs: seq<T>, p: T -> bool)
    ensures Count(xs, p) > 0 <==> exists x :: x in xs && p(x)
  {
    if xs != [] {
      CountPositive(xs[1..], p);
      assert xs == [xs[0]] + xs[1..];
      assert xs[0] in xs;
    }
  }

  /** With distinct keys, what is told by its key occurs once at most. */
  lemma {:induction false} CountDistinct<T>(xs: seq<T>, key: T -> string, k: string, p: T -> bool)
    requires DistinctKeys(xs, key) && forall x :: x in xs && p(x) ==> key(x) == k
    ensures Count(xs, p) <= 1
  {
    if xs != [] {
      assert xs[0] in xs && forall x :: x in xs[1..] ==> x in xs;
      CountDistinct(xs[1..], key, k, p);
      CountPositive(xs[1..], p);
      if p(xs[0]) {
        forall x | x in xs[1..] ensures !p(x) {
          var i :| 0 <= i < |xs[1..]| && xs[1..][i] == x;
          assert xs[i + 1] == x && key(xs[0]) != key(xs[i + 1]);
        }
      }
    }
  }

  // ---------- sets as sorted lists ----------

  /** The elements of a set as a strictly increasing list. */
  ghost predicate Enumerates(xs: seq<string>, members: set<string>) {
    && Sorted(xs, Itself) && DistinctKeys(xs, Itself)
    && forall x :: x in xs <==> x in members
  }

  lemma {:induction false} SortEnumerates(xs: seq<string>, members: set<string>)
    requires DistinctKeys(xs, Itself)
    requires forall x :: x in xs <==> x in members
    ensures Enumerates(SortStrings(xs), members)
  {
    SortSorts(xs, Itself);
    SortKeepsDistinct(xs, Itself);
    forall x ensures x in SortStrings(xs) <==> x in members {
      SortMembers(xs, Itself, x);
    }
  }

  /** There is one such list, so the order in which Go walks a map cannot show. */
  lemma {:induction false} EnumerationUnique(xs: seq<string>, ys: seq<string>, members: set<string>)
    requires Enumerates(xs, members) && Enumerates(ys, members)
    ensures xs == ys
  {
    StrictlySortedUnique(xs, ys, Itself);
  }
}
