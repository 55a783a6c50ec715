/** Failure-carrying datatypes and the sequence vocabulary shared by all components. */
module Wrappers {

  datatype Option<+T> = None | Some(value: T) {
    function GetOr(default: T): T {
      match this
      case None => default
      case Some(v) => v
    }
  }

  datatype Result<+T, +E> = Ok(value: T) | Err(error: E)
}

module Sequences {
  import opened Wrappers

  function Filter<T>(p: T -> bool, xs: seq<T>): (r: seq<T>)
    ensures |r| <= |xs|
    ensures forall x :: x in r ==> x in xs && p(x)
    ensures forall x :: x in xs && p(x) ==> x in r
  {
    if xs == [] then []
    else if p(xs[0]) then [xs[0]] + Filter(p, xs[1..])
    else Filter(p, xs[1..])
  }

  lemma FilterCons<T>(p: T -> bool, x: T, xs: seq<T>)
    ensures Filter(p, [x] + xs) == (if p(x) then [x] else []) + Filter(p, xs)
  {
    assert ([x] + xs)[1..] == xs;
  }

  lemma {:induction false} FilterConcat<T>(p: T -> bool, xs: seq<T>, ys: seq<T>)
    ensures Filter(p, xs + ys) == Filter(p, xs) + Filter(p, ys)
  {
    hide Filter;
    if xs == [] {
      assert xs + ys == ys;
    } else {
      var head, tail := xs[0], xs[1..];
      FilterConcat(p, tail, ys);
      FilterCons(p, head, tail);
      FilterCons(p, head, tail + ys);
      assert xs == [head] + tail && xs + ys == [head] + (tail + ys);
    }
  }

  lemma FilterSnoc<T>(p: T -> bool, xs: seq<T>, x: T)
    ensures Filter(p, xs + [x]) == Filter(p, xs) + (if p(x) then [x] else [])
  {
    FilterConcat(p, xs, [x]);
    assert Filter(p, [x]) == if p(x) then [x] else [];
  }

  lemma {:induction false} FilterPosition<T>(p: T -> bool, xs: seq<T>, k: nat) returns (i: nat)
    requires k < |Filter(p, xs)|
    ensures i < |xs| && p(xs[i]) && xs[i] == Filter(p, xs)[k]
    ensures Filter(p, xs[..i]) == Filter(p, xs)[..k]
  {
    hide Filter;
    var tail := xs[1..];
    FilterCons(p, xs[0], tail);
    assert xs == [xs[0]] + tail;
    if p(xs[0]) && k == 0 {
      i := 0;
    } else {
      var i' := FilterPosition(p, tail, if p(xs[0]) then k - 1 else k);
      i := i' + 1;
      FilterCons(p, xs[0], tail[..i']);
      assert xs[..i] == [xs[0]] + tail[..i'];
    }
  }

  lemma FilterGrows<T>(p: T -> bool, xs: seq<T>, i: nat, j: nat)
    requires i <= j <= |xs|
    ensures |Filter(p, xs[..i])| <= |Filter(p, xs[..j])|
  {
    FilterConcat(p, xs[..i], xs[i..j]);
    assert xs[..j] == xs[..i] + xs[i..j];
  }

  lemma {:induction false} FilterAll<T>(p: T -> bool, xs: seq<T>)
    requires forall x :: x in xs ==> p(x)
    ensures Filter(p, xs) == xs
  {
    if xs != [] {
      FilterAll(p, xs[1..]);
    }
  }

  lemma {:induction false} FilterCongruence<T>(p: T -> bool, q: T -> bool, xs: seq<T>)
    requires forall x :: x in xs ==> p(x) == q(x)
    ensures Filter(p, xs) == Filter(q, xs)
  {
    if xs != [] {
      FilterCongruence(p, q, xs[1..]);
    }
  }

  lemma {:induction false} FilterNone<T>(p: T -> bool, xs: seq<T>)
    requires forall x :: x in xs ==> !p(x)
    ensures Filter(p, xs) == []
  {
    if xs != [] {
      FilterNone(p, xs[1..]);
    }
  }

  lemma {:induction false} FilterFilter<T>(p: T -> bool, q: T -> bool, r: T -> bool, xs: seq<T>)
    requires forall x :: x in xs ==> (r(x) <==> p(x) && q(x))
    ensures Filter(p, Filter(q, xs)) == Filter(r, xs)
  {
    if xs != [] {
      FilterFilter(p, q, r, xs[1..]);
      if q(xs[0]) {
        assert ([xs[0]] + Filter(q, xs[1..]))[1..] == Filter(q, xs[1..]);
      }
    }
  }

  function FindFirst<T>(p: T -> bool, xs: seq<T>): (r: Option<T>)
    ensures r.Some? ==> r.value in xs && p(r.value)
    ensures r.None? ==> forall x :: x in xs ==> !p(x)
  {
    if xs == [] then None
    else if p(xs[0]) then Some(xs[0])
    else FindFirst(p, xs[1..])
  }

  lemma {:induction false} FindFirstConcat<T>(p: T -> bool, xs: seq<T>, ys: seq<T>)
    ensures FindFirst(p, xs + ys) == if FindFirst(p, xs).Some? then FindFirst(p, xs) else FindFirst(p, ys)
  {
    if xs == [] {
      assert xs + ys == ys;
    } else {
      assert (xs + ys)[1..] == xs[1..] + ys;
      FindFirstConcat(p, xs[1..], ys);
    }
  }

  function Map<T, U>(f: T -> U, xs: seq<T>): (r: seq<U>)
    ensures |r| == |xs|
    ensures forall i :: 0 <= i < |xs| ==> r[i] == f(xs[i])
  {
    if xs == [] then [] else [f(xs[0])] + Map(f, xs[1..])
  }

  function Take<T>(n: nat, xs: seq<T>): (r: seq<T>)
  {
    if n <= |xs| then xs[..n] else xs
  }

  /** No two elements share a key. */
  ghost predicate DistinctBy<T, K>(key: T -> K, xs: seq<T>) {
    forall i, j :: 0 <= i < j < |xs| ==> key(xs[i]) != key(xs[j])
  }

  lemma {:induction false} FilterKeepsDistinct<T, K>(key: T -> K, p: T -> bool, xs: seq<T>)
    requires DistinctBy(key, xs)
    ensures DistinctBy(key, Filter(p, xs))
  {
    if xs != [] {
      FilterKeepsDistinct(key, p, xs[1..]);
      forall j | 0 <= j < |Filter(p, xs[1..])|
        ensures key(Filter(p, xs[1..])[j]) != key(xs[0])
      {
        assert Filter(p, xs[1..])[j] in xs[1..];
      }
    }
  }

  lemma {:induction false} DistinctCountsOnce<T, K>(key: T -> K, xs: seq<T>, x: T)
    requires DistinctBy(key, xs)
    ensures multiset(xs)[x] <= 1
  {
    if xs != [] {
      DistinctCountsOnce(key, xs[1..], x);
      assert xs == [xs[0]] + xs[1..];
      assert forall i :: 0 <= i < |xs[1..]| ==> xs[1..][i] == xs[i + 1];
      assert xs[0] == x ==> x !in xs[1..];
    }
  }

  /** Sequences with distinct keys and the same elements are permutations of each other. */
  lemma SameElements<T(!new), K>(key: T -> K, xs: seq<T>, ys: seq<T>)
    requires DistinctBy(key, xs) && DistinctBy(key, ys)
    requires forall x :: x in xs <==> x in ys
    ensures multiset(xs) == multiset(ys)
  {
    forall x
      ensures multiset(xs)[x] == multiset(ys)[x]
    {
      DistinctCountsOnce(key, xs, x);
      DistinctCountsOnce(key, ys, x);
      assert (x in multiset(xs) <==> x in xs) && (x in multiset(ys) <==> x in ys);
    }
  }

  lemma TwoOccurrences<T>(xs: seq<T>, i: nat, j: nat)
    requires i < j < |xs|
    ensures xs[i] == xs[j] ==> multiset(xs)[xs[i]] >= 2
  {
    assert xs == xs[..i] + [xs[i]] + xs[i + 1..j] + [xs[j]] + xs[j + 1..];
  }

  /** Any selection of elements with distinct keys, in any order, has distinct keys. */
  lemma SelectionKeepsDistinct<T, K>(key: T -> K, xs: seq<T>, ys: seq<T>)
    requires DistinctBy(key, xs) && multiset(ys) <= multiset(xs)
    ensures DistinctBy(key, ys)
  {
    forall i, j | 0 <= i < j < |ys|
      ensures key(ys[i]) != key(ys[j])
    {
      assert ys[i] in multiset(ys) && ys[j] in multiset(ys);
      assert ys[i] in xs && ys[j] in xs;
      assert key(ys[i]) == key(ys[j]) ==> ys[i] == ys[j];
      DistinctCountsOnce(key, xs, ys[i]);
      TwoOccurrences(ys, i, j);
    }
  }
}

/** What a stable sort promises, and one that delivers it. Nothing outside this module depends
    on the algorithm: the promise determines the result. */
module Sorting {

  ghost predicate TotalPreorder<T(!new)>(le: (T, T) -> bool)
  {
    && (forall x, y :: le(x, y) || le(y, x))
    && (forall x, y, z :: le(x, y) && le(y, z) ==> le(x, z))
  }

  ghost predicate Sorted<T>(xs: seq<T>, le: (T, T) -> bool)
  {
    forall i, j :: 0 <= i < j < |xs| ==> le(xs[i], xs[j])
  }

  /** The elements that tie with c, in list order. */
  function Ties<T>(xs: seq<T>, c: T, le: (T, T) -> bool): (r: seq<T>)
    ensures forall x :: x in r ==> x in xs && le(x, c) && le(c, x)
  {
    if xs == [] then []
    else if le(xs[0], c) && le(c, xs[0]) then [xs[0]] + Ties(xs[1..], c, le)
    else Ties(xs[1..], c, le)
  }

  ghost predicate IsStableSort<T(!new)>(xs: seq<T>, ys: seq<T>, le: (T, T) -> bool)
  {
    && Sorted(ys, le)
    && multiset(ys) == multiset(xs)
    && forall c :: Ties(ys, c, le) == Ties(xs, c, le)
  }

  function Insert<T>(x: T, ys: seq<T>, le: (T, T) -> bool): seq<T>
  {
    if ys == [] || le(x, ys[0]) then [x] + ys else [ys[0]] + Insert(x, ys[1..], le)
  }

  function StableSort<T>(xs: seq<T>, le: (T, T) -> bool): seq<T>
  {
    if xs == [] then [] else Insert(xs[0], StableSort(xs[1..], le), le)
  }

  lemma {:induction false} InsertPermutes<T>(x: T, ys: seq<T>, le: (T, T) -> bool)
    ensures multiset(Insert(x, ys, le)) == multiset([x] + ys)
  {
    if ys != [] && !le(x, ys[0]) {
      InsertPermutes(x, ys[1..], le);
      assert ys == [ys[0]] + ys[1..];
    }
  }

  lemma {:induction false} InsertSorted<T(!new)>(x: T, ys: seq<T>, le: (T, T) -> bool)
    requires TotalPreorder(le) && Sorted(ys, le)
    ensures Sorted(Insert(x, ys, le), le)
  {
    if ys != [] && !le(x, ys[0]) {
      var rest := Insert(x, ys[1..], le);
      InsertSorted(x, ys[1..], le);
      InsertPermutes(x, ys[1..], le);
      forall j | 0 <= j < |rest|
        ensures le(ys[0], rest[j])
      {
        assert rest[j] in multiset([x] + ys[1..]);
        assert rest[j] == x || rest[j] in ys[1..];
      }
    }
  }

  lemma {:induction false} InsertTies<T(!new)>(x: T, ys: seq<T>, c: T, le: (T, T) -> bool)
    requires TotalPreorder(le)
    ensures Ties(Insert(x, ys, le), c, le) == Ties([x] + ys, c, le)
  {
    assert ([x] + ys)[1..] == ys;
    if ys != [] && !le(x, ys[0]) {
      InsertTies(x, ys[1..], c, le);
      assert ([x] + ys[1..])[1..] == ys[1..];
      assert ([ys[0]] + Insert(x, ys[1..], le))[1..] == Insert(x, ys[1..], le);
      assert !(le(x, c) && le(c, x) && le(ys[0], c) && le(c, ys[0]));
    }
  }

  lemma {:induction false} StableSortCorrect<T(!new)>(xs: seq<T>, le: (T, T) -> bool)
    requires TotalPreorder(le)
    ensures IsStableSort(xs, StableSort(xs, le), le)
  {
    if xs != [] {
      var rest := StableSort(xs[1..], le);
      StableSortCorrect(xs[1..], le);
      InsertSorted(xs[0], rest, le);
      InsertPermutes(xs[0], rest, le);
      assert xs == [xs[0]] + xs[1..];
      forall c
        ensures Ties(StableSort(xs, le), c, le) == Ties(xs, c, le)
      {
        InsertTies(xs[0], rest, c, le);
        assert ([xs[0]] + rest)[1..] == rest;
        assert Ties(rest, c, le) == Ties(xs[1..], c, le);
      }
    }
  }

  lemma SelfTie<T(!new)>(xs: seq<T>, le: (T, T) -> bool)
    requires TotalPreorder(le)
    ensures xs != [] ==> Ties(xs, xs[0], le) != [] && Ties(xs, xs[0], le)[0] == xs[0]
  {
    assert xs != [] ==> le(xs[0], xs[0]);
  }

  /** Two sorted sequences with the same tie groups are equal: a stable sort has one result,
      whatever algorithm computes it. */
  lemma {:induction false} StableSortUnique<T(!new)>(ys: seq<T>, zs: seq<T>, le: (T, T) -> bool)
    requires TotalPreorder(le)
    requires Sorted(ys, le) && Sorted(zs, le)
    requires forall c :: Ties(ys, c, le) == Ties(zs, c, le)
    ensures ys == zs
    decreases |ys| + |zs|
  {
    SelfTie(ys, le);
    SelfTie(zs, le);
    if ys != [] && zs != [] {
      var y, z := ys[0], zs[0];
      assert y in Ties(ys, y, le) && z in Ties(zs, z, le);
      assert y in Ties(zs, y, le) && z in Ties(ys, z, le);
      assert le(y, z) && le(z, y);
      assert Ties(ys, y, le)[0] == y && Ties(zs, y, le)[0] == z;
      forall c
        ensures Ties(ys[1..], c, le) == Ties(zs[1..], c, le)
      {
        assert Ties(ys, c, le) == Ties(zs, c, le);
        assert Ties(ys[1..], c, le) == if le(y, c) && le(c, y) then Ties(ys, c, le)[1..] else Ties(ys, c, le);
        assert Ties(zs[1..], c, le) == if le(z, c) && le(c, z) then Ties(zs, c, le)[1..] else Ties(zs, c, le);
      }
      StableSortUnique(ys[1..], zs[1..], le);
      assert ys == [y] + ys[1..] && zs == [z] + zs[1..];
    }
  }

  /** The head of a stable sort is the first listed element that nothing precedes. */
  lemma StableHead<T(!new)>(xs: seq<T>, ys: seq<T>, le: (T, T) -> bool) returns (i: nat)
    requires TotalPreorder(le) && IsStableSort(xs, ys, le) && xs != []
    ensures ys != [] && i < |xs| && xs[i] == ys[0]
    ensures forall j :: 0 <= j < |xs| ==> le(xs[i], xs[j])
    ensures forall j :: 0 <= j < i ==> !le(xs[j], xs[i])
  {
    assert |multiset(xs)| == |xs| && |multiset(ys)| == |ys|;
    var m := ys[0];
    forall x | x in xs
      ensures le(m, x)
    {
      assert x in multiset(ys);
      var k :| 0 <= k < |ys| && ys[k] == x;
      assert le(m, m);
    }
    assert le(m, m);
    assert Ties(ys, m, le)[0] == m;
    assert Ties(xs, m, le) == Ties(ys, m, le);
    i := FirstTie(xs, m, le);
  }

  lemma {:induction false} FirstTie<T>(xs: seq<T>, c: T, le: (T, T) -> bool) returns (i: nat)
    requires Ties(xs, c, le) != []
    ensures i < |xs| && xs[i] == Ties(xs, c, le)[0]
    ensures forall j :: 0 <= j < i ==> !(le(xs[j], c) && le(c, xs[j]))
  {
    if le(xs[0], c) && le(c, xs[0]) {
      i := 0;
    } else {
      var k := FirstTie(xs[1..], c, le);
      i := k + 1;
    }
  }
}
