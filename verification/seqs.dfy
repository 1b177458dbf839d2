/** Sequence helpers with the semantics of the JavaScript idioms the source
    uses: `[...new Set(xs)]`, `xs.filter(p)` and `xs.slice(0, n)`. */
module Seqs {

  predicate NoDup<T(==)>(xs: seq<T>) {
    forall i, j :: 0 <= i < j < |xs| ==> xs[i] != xs[j]
  }

  /** Position of the first occurrence of `x`. */
  function IndexOf<T(==)>(xs: seq<T>, x: T): (k: nat)
    requires x in xs
    ensures k < |xs| && xs[k] == x
    ensures forall j :: 0 <= j < k ==> xs[j] != x
  {
    if xs[0] == x then 0 else 1 + IndexOf(xs[1..], x)
  }

  /** Elements in the order of their first occurrence, as a JavaScript `Set`
      built from `xs` iterates them. */
  function Dedup<T(==, !new)>(xs: seq<T>): (r: seq<T>)
    ensures NoDup(r)
    ensures forall x :: x in r <==> x in xs
    ensures |r| <= |xs|
  {
    if |xs| == 0 then []
    else
      var init := Dedup(xs[..|xs| - 1]);
      var last := xs[|xs| - 1];
      assert forall x :: x in xs <==> x in xs[..|xs| - 1] || x == last;
      if last in init then init else init + [last]
  }

  /** `Dedup` keeps the order of first occurrences: earlier in the result
      means first seen earlier in the input. */
  lemma {:induction false} DedupKeepsFirstOccurrenceOrder<T(!new)>(xs: seq<T>)
    ensures forall i, j :: 0 <= i < j < |Dedup(xs)| ==>
      IndexOf(xs, Dedup(xs)[i]) < IndexOf(xs, Dedup(xs)[j])
  {
    if |xs| > 0 {
      var init := xs[..|xs| - 1];
      var last := xs[|xs| - 1];
      DedupKeepsFirstOccurrenceOrder(init);
      forall y | y in init ensures IndexOf(xs, y) == IndexOf(init, y) {
        IndexOfPrefix(xs, init, y);
      }
      var r := Dedup(xs);
      forall i, j | 0 <= i < j < |r| ensures IndexOf(xs, r[i]) < IndexOf(xs, r[j]) {
        var d := Dedup(init);
        if j < |d| {
          assert r[i] == d[i] && r[j] == d[j];
        } else {
          assert r[j] == last && last !in init;
          assert r[i] == d[i] && r[i] in init;
          assert IndexOf(xs, last) == |xs| - 1;
        }
      }
    }
  }

  lemma IndexOfPrefix<T>(xs: seq<T>, p: seq<T>, y: T)
    requires |p| <= |xs| && p == xs[..|p|] && y in p
    ensures IndexOf(xs, y) == IndexOf(p, y)
  {
    var k := IndexOf(p, y);
    var m := IndexOf(xs, y);
    assert xs[k] == y;
    assert p[m] == xs[m];
  }

  /** A duplicate-free sequence is its own deduplication. */
  lemma {:induction false} DedupOfNoDup<T(!new)>(xs: seq<T>)
    requires NoDup(xs)
    ensures Dedup(xs) == xs
  {
    if |xs| > 0 {
      var init := xs[..|xs| - 1];
      DedupOfNoDup(init);
      assert xs[|xs| - 1] !in init;
      assert init + [xs[|xs| - 1]] == xs;
    }
  }

  /** Where `y` first occurs in `xs + ys` when `xs` does not hold it. */
  lemma IndexOfAppendRight<T>(xs: seq<T>, ys: seq<T>, y: T)
    requires y !in xs && y in ys
    ensures IndexOf(xs + ys, y) == |xs| + IndexOf(ys, y)
  {
    var zs := xs + ys;
    var k := IndexOf(ys, y);
    var m := IndexOf(zs, y);
    assert zs[|xs| + k] == y;
    assert m >= |xs| by {
      assert forall i :: 0 <= i < |xs| ==> zs[i] == xs[i];
    }
    assert ys[m - |xs|] == zs[m];
  }

  /** `[...new Set([...xs, ...ys])]` lists the distinct elements of `xs`
      first, as for `xs` alone, then the elements of `ys` that `xs` lacks, in
      the order of their first occurrence in `ys`. */
  lemma DedupAppend<T(!new)>(xs: seq<T>, ys: seq<T>)
    ensures |Dedup(xs)| <= |Dedup(xs + ys)| && Dedup(xs + ys)[..|Dedup(xs)|] == Dedup(xs)
    ensures forall y :: y in Dedup(xs + ys)[|Dedup(xs)|..] <==> y in ys && y !in xs
    ensures OrderedIn(Dedup(xs + ys)[|Dedup(xs)|..], ys)
  {
    DedupPrefix(xs, ys);
    DedupRestMembers(xs, ys);
    DedupRestOrder(xs, ys);
  }

  lemma DedupRestMembers<T(!new)>(xs: seq<T>, ys: seq<T>)
    requires |Dedup(xs)| <= |Dedup(xs + ys)| && Dedup(xs + ys)[..|Dedup(xs)|] == Dedup(xs)
    ensures forall y :: y in Dedup(xs + ys)[|Dedup(xs)|..] <==> y in ys && y !in xs
  {
    var d := Dedup(xs);
    var all := Dedup(xs + ys);
    var rest := all[|d|..];
    assert all == d + rest;
    assert forall a, b :: 0 <= a < |d| && 0 <= b < |rest| ==> d[a] != rest[b] by {
      forall a, b | 0 <= a < |d| && 0 <= b < |rest| ensures d[a] != rest[b] {
        assert all[a] == d[a] && all[|d| + b] == rest[b];
      }
    }
    forall y ensures y in rest <==> y in ys && y !in xs {
      assert y in all <==> y in xs || y in ys;
      assert y in all <==> y in d || y in rest;
    }
  }

  lemma DedupRestOrder<T(!new)>(xs: seq<T>, ys: seq<T>)
    requires |Dedup(xs)| <= |Dedup(xs + ys)| && Dedup(xs + ys)[..|Dedup(xs)|] == Dedup(xs)
    requires forall y :: y in Dedup(xs + ys)[|Dedup(xs)|..] <==> y in ys && y !in xs
    ensures OrderedIn(Dedup(xs + ys)[|Dedup(xs)|..], ys)
  {
    DedupOrderedIn(xs + ys);
    RestOrder(xs, ys, Dedup(xs + ys), |Dedup(xs)|);
  }

  /** The part of a list ordered in `xs + ys` that avoids `xs` is ordered in
      `ys`. */
  lemma RestOrder<T>(xs: seq<T>, ys: seq<T>, all: seq<T>, n: nat)
    requires n <= |all| && OrderedIn(all, xs + ys)
    requires forall y :: y in all[n..] <==> y in ys && y !in xs
    ensures OrderedIn(all[n..], ys)
  {
    var rest := all[n..];
    forall i | 0 <= i < |rest| ensures rest[i] in ys {
      assert rest[i] in rest;
    }
    forall i, j | 0 <= i < j < |rest| ensures IndexOf(ys, rest[i]) < IndexOf(ys, rest[j]) {
      assert rest[i] == all[n + i] && rest[j] == all[n + j];
      assert rest[i] in rest && rest[j] in rest;
      IndexOfAppendRight(xs, ys, rest[i]);
      IndexOfAppendRight(xs, ys, rest[j]);
    }
  }

  lemma {:induction false} DedupPrefix<T(!new)>(xs: seq<T>, ys: seq<T>)
    ensures |Dedup(xs)| <= |Dedup(xs + ys)| && Dedup(xs + ys)[..|Dedup(xs)|] == Dedup(xs)
    decreases |ys|
  {
    if |ys| == 0 {
      assert xs + ys == xs;
    } else {
      var init := ys[..|ys| - 1];
      DedupPrefix(xs, init);
      var zs := xs + ys;
      assert zs[..|zs| - 1] == xs + init;
      var d := Dedup(xs + init);
      assert Dedup(zs) == d || Dedup(zs) == d + [zs[|zs| - 1]];
      assert Dedup(zs)[..|d|] == d;
      assert Dedup(zs)[..|Dedup(xs)|] == d[..|Dedup(xs)|];
    }
  }

  /** Appending an element already present changes nothing. */
  lemma DedupAppendPresent<T(!new)>(xs: seq<T>, x: T)
    requires x in xs
    ensures Dedup(xs + [x]) == Dedup(xs)
  {
    assert (xs + [x])[..|xs|] == xs;
  }

  function Filter<T(!new)>(p: T -> bool, xs: seq<T>): (r: seq<T>)
    ensures |r| <= |xs|
    ensures forall x :: x in r <==> x in xs && p(x)
    ensures forall i :: 0 <= i < |r| ==> p(r[i])
  {
    if |xs| == 0 then []
    else
      var rest := Filter(p, xs[1..]);
      assert forall x :: x in xs <==> x == xs[0] || x in xs[1..];
      if p(xs[0]) then [xs[0]] + rest else rest
  }

  lemma {:induction false} FilterNoDup<T(!new)>(p: T -> bool, xs: seq<T>)
    requires NoDup(xs)
    ensures NoDup(Filter(p, xs))
  {
    if |xs| > 0 {
      FilterNoDup(p, xs[1..]);
      assert xs[0] !in xs[1..];
    }
  }

  /** Filtering one more element at the end, as a loop does. */
  lemma {:induction false} FilterSnoc<T(!new)>(p: T -> bool, xs: seq<T>, x: T)
    ensures Filter(p, xs + [x]) == Filter(p, xs) + (if p(x) then [x] else [])
  {
    if |xs| > 0 {
      assert (xs + [x])[1..] == xs[1..] + [x];
      FilterSnoc(p, xs[1..], x);
    } else {
      assert (xs + [x])[1..] == [];
    }
  }

  /** Filtering a concatenation filters each part. */
  lemma {:induction false} FilterAppend<T(!new)>(p: T -> bool, xs: seq<T>, ys: seq<T>)
    ensures Filter(p, xs + ys) == Filter(p, xs) + Filter(p, ys)
    decreases |xs|
  {
    if |xs| > 0 {
      assert (xs + ys)[0] == xs[0];
      assert (xs + ys)[1..] == xs[1..] + ys;
      FilterAppend(p, xs[1..], ys);
    } else {
      assert xs + ys == ys;
    }
  }

  /** Filtering everything-passes keeps the sequence. */
  lemma {:induction false} FilterAll<T(!new)>(p: T -> bool, xs: seq<T>)
    requires forall x :: x in xs ==> p(x)
    ensures Filter(p, xs) == xs
  {
    if |xs| > 0 {
      FilterAll(p, xs[1..]);
    }
  }

  /** The end index `xs.slice(0, n)` uses: a negative `n` counts from the end. */
  function SliceEnd(len: nat, n: int): (e: nat)
    ensures e <= len
    ensures 0 <= n ==> e == if n < len then n else len
    ensures n < 0 ==> e == if len + n > 0 then len + n else 0
  {
    if n < 0 then (if len + n > 0 then len + n else 0)
    else if n < len then n else len
  }

  /** `xs.slice(0, n)`. */
  function Take<T>(xs: seq<T>, n: int): (r: seq<T>)
    ensures r == xs[..SliceEnd(|xs|, n)]
  {
    xs[..SliceEnd(|xs|, n)]
  }

  /** Every element of `r` occurs in `c`, and `r` lists them in the order of
      their first occurrence in `c`. */
  predicate OrderedIn<T(==)>(r: seq<T>, c: seq<T>) {
    (forall i :: 0 <= i < |r| ==> r[i] in c) &&
    forall i, j :: 0 <= i < j < |r| ==> IndexOf(c, r[i]) < IndexOf(c, r[j])
  }

  lemma DedupOrderedIn<T(!new)>(xs: seq<T>)
    ensures OrderedIn(Dedup(xs), xs)
  {
    DedupKeepsFirstOccurrenceOrder(xs);
  }

  lemma OrderedInTail<T>(xs: seq<T>, c: seq<T>)
    requires OrderedIn(xs, c) && |xs| > 0
    ensures OrderedIn(xs[1..], c)
  {
    var tail := xs[1..];
    forall i, j | 0 <= i < j < |tail| ensures IndexOf(c, tail[i]) < IndexOf(c, tail[j]) {
      assert tail[i] == xs[i + 1] && tail[j] == xs[j + 1];
    }
  }

  lemma OrderedInHeadFirst<T>(xs: seq<T>, c: seq<T>, y: T)
    requires OrderedIn(xs, c) && |xs| > 0 && y in xs[1..]
    ensures IndexOf(c, xs[0]) < IndexOf(c, y)
  {
    var k :| 1 <= k < |xs| && xs[k] == y;
  }

  lemma OrderedInCons<T>(x: T, rest: seq<T>, c: seq<T>)
    requires x in c && OrderedIn(rest, c)
    requires forall y :: y in rest ==> IndexOf(c, x) < IndexOf(c, y)
    ensures OrderedIn([x] + rest, c)
  {
    var r := [x] + rest;
    forall i, j | 0 <= i < j < |r| ensures IndexOf(c, r[i]) < IndexOf(c, r[j]) {
      assert r[j] == rest[j - 1];
      if i > 0 {
        assert r[i] == rest[i - 1];
      }
    }
  }

  /** Filtering keeps the order of what it keeps. */
  lemma {:induction false} FilterOrderedIn<T(!new)>(p: T -> bool, xs: seq<T>, c: seq<T>)
    requires OrderedIn(xs, c)
    ensures OrderedIn(Filter(p, xs), c)
  {
    if |xs| > 0 {
      OrderedInTail(xs, c);
      FilterOrderedIn(p, xs[1..], c);
      var rest := Filter(p, xs[1..]);
      if p(xs[0]) {
        forall y | y in rest ensures IndexOf(c, xs[0]) < IndexOf(c, y) {
          OrderedInHeadFirst(xs, c, y);
        }
        OrderedInCons(xs[0], rest, c);
      }
    }
  }

  /** A prefix keeps the order. */
  lemma TakeOrderedIn<T>(xs: seq<T>, n: int, c: seq<T>)
    requires OrderedIn(xs, c)
    ensures OrderedIn(Take(xs, n), c)
  {
    var r := Take(xs, n);
    assert forall i :: 0 <= i < |r| ==> r[i] == xs[i];
  }

  /** What `Take(xs, n)` drops comes, in `c`'s order, after everything it keeps. */
  lemma TakeKeepsEarliest<T>(xs: seq<T>, n: int, c: seq<T>, y: T)
    requires OrderedIn(xs, c) && y in xs && y !in Take(xs, n)
    ensures forall x :: x in Take(xs, n) ==> IndexOf(c, x) < IndexOf(c, y)
  {
    var r := Take(xs, n);
    var m :| 0 <= m < |xs| && xs[m] == y;
    forall x | x in r ensures IndexOf(c, x) < IndexOf(c, y) {
      var i :| 0 <= i < |r| && r[i] == x;
      assert xs[i] == x;
    }
  }
}
