/** Filters, sums and sorts over sequences, and when their results ignore the order of the input. */
module Bags {

  datatype Option<+T> = None | Some(value: T)

  // ---- permutations ----

  lemma BagAround<T>(a: seq<T>, x: T, b: seq<T>)
    ensures multiset(a + ([x] + b)) == multiset(a + b) + multiset{x}
  {
  }

  lemma BagCancel<T>(m: multiset<T>, n: multiset<T>, x: T)
    requires m + multiset{x} == n + multiset{x}
    ensures m == n
  {
    assert m == (m + multiset{x}) - multiset{x};
    assert n == (n + multiset{x}) - multiset{x};
  }

  /** A permutation `t` of `s` holds the last element of `s` somewhere; dropping both leaves permutations. */
  lemma MatchLast<T>(s: seq<T>, t: seq<T>) returns (a: seq<T>, b: seq<T>)
    requires |s| > 0 && multiset(s) == multiset(t)
    ensures t == a + ([s[|s| - 1]] + b)
    ensures multiset(s[..|s| - 1]) == multiset(a + b)
  {
    var n, x := |s| - 1, s[|s| - 1];
    assert s == s[..n] + [x];
    assert x in multiset(t);
    var j :| 0 <= j < |t| && t[j] == x;
    a, b := t[..j], t[j + 1..];
    assert t == a + ([x] + b);
    BagAround(a, x, b);
    assert multiset(s) == multiset(s[..n]) + multiset{x};
    BagCancel(multiset(s[..n]), multiset(a + b), x);
  }

  lemma BagLength<T>(s: seq<T>, t: seq<T>)
    requires multiset(s) == multiset(t)
    ensures |s| == |t|
  {
    assert |s| == |multiset(s)|;
    assert |t| == |multiset(t)|;
  }

  lemma BagMembers<T>(s: seq<T>, t: seq<T>)
    requires multiset(s) == multiset(t)
    ensures forall x :: x in s <==> x in t
  {
    forall x
      ensures x in s <==> x in t
    {
      assert x in s <==> x in multiset(s);
      assert x in t <==> x in multiset(t);
    }
  }

  // ---- filter and map in one pass ----

  function FilterMap<T, U>(s: seq<T>, f: T -> Option<U>): seq<U> {
    if s == [] then []
    else
      var rest := FilterMap(s[..|s| - 1], f);
      match f(s[|s| - 1])
      case None => rest
      case Some(u) => rest + [u]
  }

  lemma {:induction false} FilterMapConcat<T, U>(s: seq<T>, t: seq<T>, f: T -> Option<U>)
    ensures FilterMap(s + t, f) == FilterMap(s, f) + FilterMap(t, f)
  {
    if t == [] {
      assert s + t == s;
    } else {
      FilterMapConcat(s, t[..|t| - 1], f);
      assert (s + t)[..|s + t| - 1] == s + t[..|t| - 1];
    }
  }

  lemma BagOfThree<T>(a: seq<T>, x: seq<T>, b: seq<T>)
    ensures multiset(a + (x + b)) == multiset(a + b) + multiset(x)
  {
  }

  lemma FilterMapThree<T, U>(a: seq<T>, x: seq<T>, b: seq<T>, f: T -> Option<U>)
    ensures multiset(FilterMap(a + (x + b), f)) == multiset(FilterMap(a + b, f)) + multiset(FilterMap(x, f))
  {
    FilterMapConcat(a, x + b, f);
    FilterMapConcat(x, b, f);
    FilterMapConcat(a, b, f);
    BagOfThree(FilterMap(a, f), FilterMap(x, f), FilterMap(b, f));
  }

  lemma {:induction false} FilterMapPermuted<T, U>(s: seq<T>, t: seq<T>, f: T -> Option<U>)
    requires multiset(s) == multiset(t)
    ensures multiset(FilterMap(s, f)) == multiset(FilterMap(t, f))
    decreases |s|
  {
    BagLength(s, t);
    if |s| > 0 {
      var n := |s| - 1;
      var a, b := MatchLast(s, t);
      FilterMapPermuted(s[..n], a + b, f);
      FilterMapThree(a, [s[n]], b, f);
      FilterMapSingle(s[n], f);
    }
  }

  lemma FilterMapSingle<T, U>(x: T, f: T -> Option<U>)
    ensures FilterMap([x], f) == match f(x) case None => [] case Some(u) => [u]
  {
    assert [x][..0] == [];
    assert FilterMap([x][..0], f) == [];
  }

  lemma {:induction false} FilterMapSame<T, U>(s: seq<T>, f: T -> Option<U>, g: T -> Option<U>)
    requires forall x :: x in s ==> f(x) == g(x)
    ensures FilterMap(s, f) == FilterMap(s, g)
  {
    if s != [] {
      FilterMapSame(s[..|s| - 1], f, g);
      assert s[|s| - 1] in s;
    }
  }

  lemma {:induction false} FilterMapOrigin<T, U>(s: seq<T>, f: T -> Option<U>)
    ensures forall u :: u in FilterMap(s, f) <==> exists x :: x in s && f(x) == Some(u)
  {
    if s != [] {
      var a, z := s[..|s| - 1], s[|s| - 1];
      FilterMapOrigin(a, f);
      assert forall x :: x in s <==> x in a || x == z;
    }
  }

  lemma {:induction false} FilterMapNone<T, U>(s: seq<T>, f: T -> Option<U>)
    requires forall x :: x in s ==> f(x) == None
    ensures FilterMap(s, f) == []
  {
    if s != [] {
      FilterMapNone(s[..|s| - 1], f);
      assert s[|s| - 1] in s;
    }
  }

  lemma {:induction false} FilterMapShorter<T, U>(s: seq<T>, f: T -> Option<U>)
    ensures |FilterMap(s, f)| <= |s|
  {
    if s != [] {
      FilterMapShorter(s[..|s| - 1], f);
    }
  }

  // ---- sums ----

  function SumOf<T>(s: seq<T>, f: T -> int): int {
    if s == [] then 0 else SumOf(s[..|s| - 1], f) + f(s[|s| - 1])
  }

  lemma {:induction false} SumConcat<T>(s: seq<T>, t: seq<T>, f: T -> int)
    ensures SumOf(s + t, f) == SumOf(s, f) + SumOf(t, f)
  {
    if t == [] {
      assert s + t == s;
    } else {
      SumConcat(s, t[..|t| - 1], f);
      assert (s + t)[..|s + t| - 1] == s + t[..|t| - 1];
    }
  }

  lemma SumSingle<T>(x: T, f: T -> int)
    ensures SumOf([x], f) == f(x)
  {
    assert [x][..0] == [];
    assert SumOf([x][..0], f) == 0;
  }

  lemma {:induction false} SumPermuted<T>(s: seq<T>, t: seq<T>, f: T -> int)
    requires multiset(s) == multiset(t)
    ensures SumOf(s, f) == SumOf(t, f)
    decreases |s|
  {
    BagLength(s, t);
    if |s| > 0 {
      var n := |s| - 1;
      var a, b := MatchLast(s, t);
      SumPermuted(s[..n], a + b, f);
      SumConcat(a, [s[n]] + b, f);
      SumConcat([s[n]], b, f);
      SumConcat(a, b, f);
      SumSingle(s[n], f);
    }
  }

  lemma {:induction false} SumVanishes<T>(s: seq<T>, f: T -> int)
    requires forall x :: x in s ==> f(x) == 0
    ensures SumOf(s, f) == 0
  {
    if s != [] {
      assert s[|s| - 1] in s;
      SumVanishes(s[..|s| - 1], f);
    }
  }

  lemma {:induction false} SumSame<T>(s: seq<T>, f: T -> int, g: T -> int)
    requires forall x :: x in s ==> f(x) == g(x)
    ensures SumOf(s, f) == SumOf(s, g)
  {
    if s != [] {
      SumSame(s[..|s| - 1], f, g);
      assert s[|s| - 1] in s;
    }
  }

  lemma {:induction false} SumBounded<T>(s: seq<T>, f: T -> int, g: T -> int)
    requires forall x :: x in s ==> f(x) <= g(x)
    ensures SumOf(s, f) <= SumOf(s, g)
  {
    if s != [] {
      SumBounded(s[..|s| - 1], f, g);
      assert s[|s| - 1] in s;
    }
  }

  /** If `f + g <= h + k` at every element, the same holds of the sums. */
  lemma {:induction false} SumExchange<T>(s: seq<T>, f: T -> int, g: T -> int, h: T -> int, k: T -> int)
    requires forall x :: x in s ==> f(x) + g(x) <= h(x) + k(x)
    ensures SumOf(s, f) + SumOf(s, g) <= SumOf(s, h) + SumOf(s, k)
  {
    if s != [] {
      SumExchange(s[..|s| - 1], f, g, h, k);
      assert s[|s| - 1] in s;
    }
  }

  lemma {:induction false} SumNonNegative<T>(s: seq<T>, f: T -> int)
    requires forall x :: x in s ==> 0 <= f(x)
    ensures 0 <= SumOf(s, f)
  {
    if s != [] {
      SumNonNegative(s[..|s| - 1], f);
      assert s[|s| - 1] in s;
    }
  }

  lemma {:induction false} SumFilterMap<T, U>(s: seq<T>, f: T -> Option<U>, g: U -> int, h: T -> int)
    requires forall x :: x in s ==> h(x) == match f(x) case None => 0 case Some(u) => g(u)
    ensures SumOf(FilterMap(s, f), g) == SumOf(s, h)
  {
    if s != [] {
      SumFilterMap(s[..|s| - 1], f, g, h);
      assert s[|s| - 1] in s;
    }
  }

  // ---- ascending sort of naturals, as `sort_unstable` leaves them ----

  predicate Ascending(s: seq<nat>) {
    forall i, j :: 0 <= i < j < |s| ==> s[i] <= s[j]
  }

  predicate StrictlyAscending(s: seq<nat>) {
    forall i, j :: 0 <= i < j < |s| ==> s[i] < s[j]
  }

  lemma ConsAscending(x: nat, s: seq<nat>)
    requires Ascending(s) && forall y :: y in s ==> x <= y
    ensures Ascending([x] + s)
  {
    assert forall i :: 0 <= i < |s| ==> s[i] in s;
  }

  function InsertAscending(x: nat, s: seq<nat>): (r: seq<nat>)
    requires Ascending(s)
    ensures Ascending(r)
    ensures forall y :: y in r <==> y == x || y in s
  {
    if s == [] then [x]
    else if x <= s[0] then [x] + s
    else
      var rest := InsertAscending(x, s[1..]);
      assert s == [s[0]] + s[1..];
      ConsAscending(s[0], rest);
      [s[0]] + rest
  }

  lemma {:induction false} InsertAscendingBag(x: nat, s: seq<nat>)
    requires Ascending(s)
    ensures multiset(InsertAscending(x, s)) == multiset(s) + multiset{x}
  {
    if s != [] {
      assert s == [s[0]] + s[1..];
      if x > s[0] { InsertAscendingBag(x, s[1..]); }
    }
  }

  function SortAscending(s: seq<nat>): (r: seq<nat>)
    ensures Ascending(r)
  {
    if s == [] then [] else InsertAscending(s[|s| - 1], SortAscending(s[..|s| - 1]))
  }

  lemma {:induction false} SortAscendingBag(s: seq<nat>)
    ensures multiset(SortAscending(s)) == multiset(s)
  {
    if s != [] {
      assert s == s[..|s| - 1] + [s[|s| - 1]];
      SortAscendingBag(s[..|s| - 1]);
      InsertAscendingBag(s[|s| - 1], SortAscending(s[..|s| - 1]));
    }
  }

  lemma DropHeadBag<T>(s: seq<T>)
    requires |s| > 0
    ensures multiset(s[1..]) == multiset(s) - multiset{s[0]}
  {
    assert s == [s[0]] + s[1..];
  }

  lemma SameHead(s: seq<nat>, t: seq<nat>)
    requires Ascending(s) && Ascending(t) && multiset(s) == multiset(t) && |s| > 0 && |t| > 0
    ensures s[0] == t[0]
  {
    BagMembers(s, t);
    assert s[0] in t && t[0] in s;
  }

  /** An ascending arrangement of a bag is unique. */
  lemma {:induction false} AscendingUnique(s: seq<nat>, t: seq<nat>)
    requires Ascending(s) && Ascending(t) && multiset(s) == multiset(t)
    ensures s == t
    decreases |s|
  {
    BagLength(s, t);
    if |s| > 0 {
      SameHead(s, t);
      DropHeadBag(s);
      DropHeadBag(t);
      AscendingUnique(s[1..], t[1..]);
      assert s == [s[0]] + s[1..] && t == [t[0]] + t[1..];
    }
  }

  /** A strictly ascending sequence is determined by its set of elements. */
  lemma {:induction false} StrictUnique(s: seq<nat>, t: seq<nat>)
    requires StrictlyAscending(s) && StrictlyAscending(t)
    requires forall x :: x in s <==> x in t
    ensures s == t
    decreases |s|
  {
    assert |t| > 0 ==> |s| > 0 by { if |t| > 0 { assert t[0] in s; } }
    assert |s| > 0 ==> |t| > 0 by { if |s| > 0 { assert s[0] in t; } }
    if |s| > 0 {
      assert s[0] in t && t[0] in s;
      assert s == [s[0]] + s[1..] && t == [t[0]] + t[1..];
      assert s[0] !in s[1..] && t[0] !in t[1..];
      assert forall x :: x in s[1..] <==> x in s && x != s[0];
      assert forall x :: x in t[1..] <==> x in t && x != t[0];
      StrictUnique(s[1..], t[1..]);
    }
  }

  /** Insert into a strictly ascending sequence unless already there: a `BTreeMap`'s key order. */
  function InsertKey(x: nat, s: seq<nat>): (r: seq<nat>)
    requires StrictlyAscending(s)
    ensures StrictlyAscending(r)
    ensures forall y :: y in r <==> y == x || y in s
  {
    if s == [] then [x]
    else if x == s[0] then s
    else if x < s[0] then [x] + s
    else
      var rest := InsertKey(x, s[1..]);
      assert s == [s[0]] + s[1..];
      assert forall i :: 0 <= i < |rest| ==> rest[i] in rest;
      [s[0]] + rest
  }

  predicate Distinct<T(==)>(s: seq<T>) {
    forall i, j :: 0 <= i < j < |s| ==> s[i] != s[j]
  }

  function IndexOf<T(==)>(s: seq<T>, x: T): (i: nat)
    requires x in s
    ensures i < |s| && s[i] == x && x !in s[..i]
  {
    if s[0] == x then 0 else
      assert x in s[1..];
      assert s == [s[0]] + s[1..];
      IndexOf(s[1..], x) + 1
  }
}
