/** Decimal printing and parsing (strconv.Itoa, strconv.Atoi) and the listing pages built on them. */
module Pagination {
  import opened Capacity

  datatype Option<+T> = None | Some(value: T)

  // ---------- decimal numbers ----------

  predicate IsDigit(c: char) {
    '0' <= c <= '9'
  }

  function DigitOf(d: int): char
    requires 0 <= d < 10
  {
    ('0' as int + d) as char
  }

  function Itoa(n: nat): (s: string)
    ensures s != ""
    ensures forall i :: 0 <= i < |s| ==> IsDigit(s[i])
  {
    if n < 10 then [DigitOf(n)] else Itoa(n / 10) + [DigitOf(n % 10)]
  }

  predicate AllDigits(s: string) {
    forall i :: 0 <= i < |s| ==> IsDigit(s[i])
  }

  function Value(s: string): nat
    requires AllDigits(s)
  {
    if s == "" then 0 else 10 * Value(s[..|s| - 1]) + (s[|s| - 1] as int - '0' as int)
  }

  function Atoi(s: string): Option<int> {
    var negative := s != "" && s[0] == '-';
    var digits := if s != "" && (s[0] == '-' || s[0] == '+') then s[1..] else s;
    if digits == "" || !AllDigits(digits) then None
    else
      var n: int := if negative then -(Value(digits) as int) else Value(digits);
      if Int64(n) then Some(n) else None
  }

  lemma {:induction false} ValueOfItoa(n: nat)
    ensures Value(Itoa(n)) == n
  {
    if n >= 10 {
      ValueOfItoa(n / 10);
      var s := Itoa(n);
      assert s[..|s| - 1] == Itoa(n / 10);
    }
  }

  lemma {:induction false} ItoaInjective(m: nat, n: nat)
    requires Itoa(m) == Itoa(n)
    ensures m == n
  {
    ValueOfItoa(m);
    ValueOfItoa(n);
  }

  /** Every offset that fits an int64 is read back exactly as printed. */
  lemma {:induction false} AtoiOfItoa(n: nat)
    ensures Atoi(Itoa(n)) == if n < TWO63 then Some(n) else None
  {
    ValueOfItoa(n);
    assert IsDigit(Itoa(n)[0]);
  }

  // ---------- pages ----------

  /** A page and the token of the next one; None for a token that is not a number from 0 on. */
  function Paginate<T>(items: seq<T>, token: string, size: int): Option<(seq<T>, string)> {
    var parsed := if token == "" then Some(0) else Atoi(token);
    if parsed.None? || parsed.value < 0 then None
    else
      var start := parsed.value;
      if start >= |items| then Some(([], ""))
      else if size <= 0 || start + size >= |items| then Some((items[start..], ""))
      else Some((items[start..start + size], Itoa(start + size)))
  }

  function Offset(token: string): int {
    if token == "" then 0
    else match Atoi(token) case Some(n) => n case None => -1
  }

  /** The pages a client sees that starts at `token` and keeps following the returned tokens. */
  function Walk<T>(items: seq<T>, size: nat, token: string): (pages: seq<seq<T>>)
    requires 0 < size && |items| < TWO63
    requires 0 <= Offset(token) < |items|
    decreases |items| - Offset(token)
  {
    var (page, next) := Paginate(items, token, size).value;
    if next == "" then [page]
    else
      AtoiOfItoa(Offset(token) + size);
      [page] + Walk(items, size, next)
  }

  function Concat<T>(pages: seq<seq<T>>): seq<T> {
    if pages == [] then [] else pages[0] + Concat(pages[1..])
  }

  /** `pages` is `items` divided by `size`, rounded up. */
  predicate PageCount(pages: nat, items: nat, size: nat) {
    (pages - 1) * size < items <= pages * size
  }

  lemma {:induction false} OneMorePage(pages: nat, items: nat, size: nat)
    requires PageCount(pages, items, size)
    ensures PageCount(pages + 1, items + size, size)
  {
    assert (pages + 1) * size == pages * size + size;
    assert (pages - 1) * size + size == pages * size;
  }

  lemma {:induction false} WalkFrom<T>(items: seq<T>, size: nat, token: string)
    requires 0 < size && |items| < TWO63
    requires 0 <= Offset(token) < |items|
    ensures Concat(Walk(items, size, token)) == items[Offset(token)..]
    ensures PageCount(|Walk(items, size, token)|, |items| - Offset(token), size)
    decreases |items| - Offset(token)
  {
    var start := Offset(token);
    var pages := Walk(items, size, token);
    if start + size >= |items| {
      assert pages == [items[start..]];
      assert Concat(pages) == pages[0] + Concat(pages[1..]) == items[start..];
    } else {
      AtoiOfItoa(start + size);
      var next := Itoa(start + size);
      WalkFrom(items, size, next);
      var rest := Walk(items, size, next);
      assert pages == [items[start..start + size]] + rest;
      assert pages[0] == items[start..start + size] && pages[1..] == rest;
      assert items[start..] == items[start..start + size] + items[start + size..];
      OneMorePage(|rest|, |items| - start - size, size);
    }
  }

  /** Following the tokens of a fixed list gives every item once, in order, in ceil(n/k) pages. */
  lemma {:induction false} PagesConserveTheList<T>(items: seq<T>, size: nat)
    requires 0 < size && 0 < |items| < TWO63
    ensures Concat(Walk(items, size, "")) == items
    ensures PageCount(|Walk(items, size, "")|, |items|, size)
  {
    WalkFrom(items, size, "");
  }

  /** No size asks for everything at once, as both reconcile listings do. */
  lemma {:induction false} UnpagedListing<T>(items: seq<T>)
    ensures Paginate(items, "", 0) == Some((items, ""))
  {
    assert items[0..] == items;
  }
}
