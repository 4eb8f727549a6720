/** Sequence helpers shared by the room and registry layers. */
module Seqs {
  import opened Wrappers

  /** The elements of `xs` that satisfy `p`, in their original order. */
  function Filter<T(!new)>(xs: seq<T>, p: T -> bool): (r: seq<T>)
    ensures |r| <= |xs|
    ensures forall x :: x in r <==> x in xs && p(x)
    ensures forall i :: 0 <= i < |r| ==> p(r[i])
  {
    if |xs| == 0 then []
    else (if p(xs[0]) then [xs[0]] else []) + Filter(xs[1..], p)
  }

  /** Position of the first element that satisfies `p`, if any. */
  function FirstIndex<T>(xs: seq<T>, p: T -> bool): (r: Option<nat>)
    ensures r.Some? ==> r.value < |xs| && p(xs[r.value])
    ensures r.Some? ==> forall j :: 0 <= j < r.value ==> !p(xs[j])
    ensures r.None? <==> forall j :: 0 <= j < |xs| ==> !p(xs[j])
  {
    if |xs| == 0 then None
    else if p(xs[0]) then Some(0)
    else
      match FirstIndex(xs[1..], p)
      case None => None
      case Some(i) => Some(i + 1)
  }

  /** The first element `Filter` keeps is the one `FirstIndex` finds. */
  lemma {:induction false} FilterHead<T(!new)>(xs: seq<T>, p: T -> bool)
    ensures |Filter(xs, p)| > 0 <==> FirstIndex(xs, p).Some?
    ensures |Filter(xs, p)| > 0 ==> Filter(xs, p)[0] == xs[FirstIndex(xs, p).value]
  {
    if |xs| > 0 {
      var rest := Filter(xs[1..], p);
      if p(xs[0]) {
        assert Filter(xs, p) == [xs[0]] + rest;
      } else {
        assert Filter(xs, p) == rest;
        FilterHead(xs[1..], p);
        var f := FirstIndex(xs[1..], p);
        assert FirstIndex(xs, p) == if f.Some? then Some(f.value + 1) else None;
        assert f.Some? ==> xs[f.value + 1] == xs[1..][f.value];
      }
    }
  }

  /** Filtering twice by the same test keeps what filtering once keeps. */
  lemma {:induction false} FilterTwice<T(!new)>(xs: seq<T>, p: T -> bool)
    ensures Filter(Filter(xs, p), p) == Filter(xs, p)
  {
    if |xs| > 0 {
      var rest := Filter(xs[1..], p);
      FilterTwice(xs[1..], p);
      if p(xs[0]) {
        var f := Filter(xs, p);
        assert f == [xs[0]] + rest;
        assert f[0] == xs[0] && f[1..] == rest;
        assert Filter(f, p) == [xs[0]] + Filter(rest, p);
      } else {
        assert Filter(xs, p) == rest;
      }
    }
  }

  /** `u` occurs in `xs` before some occurrence of `v`. */
  ghost predicate Precedes<T>(xs: seq<T>, u: T, v: T) {
    exists a, b :: 0 <= a < b < |xs| && xs[a] == u && xs[b] == v
  }

  /** `Filter` keeps the relative order: two kept elements sit in `xs` in the same order. */
  lemma {:induction false} FilterInOrder<T(!new)>(xs: seq<T>, p: T -> bool)
    ensures forall i, j :: 0 <= i < j < |Filter(xs, p)| ==> Precedes(xs, Filter(xs, p)[i], Filter(xs, p)[j])
  {
    if |xs| > 0 {
      var f := Filter(xs, p);
      var rest := Filter(xs[1..], p);
      FilterInOrder(xs[1..], p);
      forall i, j | 0 <= i < j < |f|
        ensures Precedes(xs, f[i], f[j])
      {
        if !p(xs[0]) {
          assert f == rest;
          PrecedesInTail(xs, f[i], f[j]);
        } else if i == 0 {
          assert f == [xs[0]] + rest && f[j] == rest[j - 1];
          PrecedesFromHead(xs, f[j]);
        } else {
          assert f == [xs[0]] + rest && f[i] == rest[i - 1] && f[j] == rest[j - 1];
          PrecedesInTail(xs, f[i], f[j]);
        }
      }
    }
  }

  lemma PrecedesInTail<T>(xs: seq<T>, u: T, v: T)
    requires |xs| > 0 && Precedes(xs[1..], u, v)
    ensures Precedes(xs, u, v)
  {
    var a, b :| 0 <= a < b < |xs[1..]| && xs[1..][a] == u && xs[1..][b] == v;
    assert xs[a + 1] == u && xs[b + 1] == v;
  }

  lemma PrecedesFromHead<T>(xs: seq<T>, v: T)
    requires |xs| > 0 && v in xs[1..]
    ensures Precedes(xs, xs[0], v)
  {
    var b :| 0 <= b < |xs[1..]| && xs[1..][b] == v;
    assert xs[b + 1] == v;
  }

  /** The elements of `xs` that are not in `drop`, in their original order. */
  function Without<T(==,!new)>(xs: seq<T>, drop: set<T>): (r: seq<T>)
    ensures |r| <= |xs|
    ensures forall x :: x in r <==> x in xs && x !in drop
  {
    if |xs| == 0 then []
    else (if xs[0] in drop then [] else [xs[0]]) + Without(xs[1..], drop)
  }

  /** The elements of `xs` that are in `keep`, in their original order (duplicates kept). */
  function Within<T(==,!new)>(xs: seq<T>, keep: set<T>): (r: seq<T>)
    ensures |r| <= |xs|
    ensures forall x :: x in r <==> x in xs && x in keep
  {
    if |xs| == 0 then []
    else (if xs[0] in keep then [xs[0]] else []) + Within(xs[1..], keep)
  }

  /** Python's `if x in xs: xs.remove(x)`: drops the first occurrence of `x`, if any. */
  function RemoveFirst<T(==,!new)>(xs: seq<T>, x: T): (r: seq<T>)
    ensures x in xs ==> |r| == |xs| - 1 && RemovedFirst(xs, x, r)
    ensures x !in xs ==> r == xs
    ensures forall y :: y in r ==> y in xs
  {
    if |xs| == 0 then []
    else if xs[0] == x then
      assert xs[..0] + xs[1..] == xs[1..];
      xs[1..]
    else
      var rest := RemoveFirst(xs[1..], x);
      RemovedFirstCons(xs, x, rest);
      [xs[0]] + rest
  }

  /** Slicing `xs` around position `i + 1` is slicing its tail around `i`. */
  lemma ConsSlices<T>(xs: seq<T>, i: nat)
    requires i + 1 < |xs|
    ensures xs[..i + 1] == [xs[0]] + xs[1..][..i]
    ensures xs[i + 2..] == xs[1..][i + 1..]
    ensures xs[i + 1] == xs[1..][i]
  {
  }

  /**
   * `r` is `xs` with its first occurrence of `x` cut out: the elements before
   * and after it keep their order.
   */
  ghost predicate RemovedFirst<T>(xs: seq<T>, x: T, r: seq<T>) {
    exists i :: 0 <= i < |xs| && xs[i] == x && x !in xs[..i] && r == xs[..i] + xs[i + 1..]
  }

  /** Cutting `x` out of the tail, past a head that is not `x`, cuts it out of the whole. */
  lemma RemovedFirstCons<T>(xs: seq<T>, x: T, rest: seq<T>)
    requires |xs| > 0 && xs[0] != x
    requires x in xs[1..] ==> RemovedFirst(xs[1..], x, rest)
    ensures x in xs[1..] ==> RemovedFirst(xs, x, [xs[0]] + rest)
  {
    if x in xs[1..] {
      var tail := xs[1..];
      var i :| 0 <= i < |tail| && tail[i] == x && x !in tail[..i] && rest == tail[..i] + tail[i + 1..];
      var k := i + 1;
      ConsSlices(xs, i);
      assert x !in xs[..k];
      assert [xs[0]] + rest == xs[..k] + xs[k + 1..];
      assert xs[k] == x;
    }
  }

  /** Removes, one after the other, the first occurrence of each element of `ys`. */
  function RemoveEach<T(==,!new)>(xs: seq<T>, ys: seq<T>): seq<T>
    decreases |ys|
  {
    if |ys| == 0 then xs else RemoveEach(RemoveFirst(xs, ys[0]), ys[1..])
  }

  /** Removing elements that are not `a` leaves a leading `a` in place. */
  lemma {:induction false} RemoveEachKeepsHead<T(!new)>(a: T, xs: seq<T>, ys: seq<T>)
    requires a !in ys
    ensures RemoveEach([a] + xs, ys) == [a] + RemoveEach(xs, ys)
    decreases |ys|
  {
    if |ys| > 0 {
      assert ([a] + xs)[0] == a;
      assert ([a] + xs)[1..] == xs;
      assert RemoveFirst([a] + xs, ys[0]) == [a] + RemoveFirst(xs, ys[0]);
      RemoveEachKeepsHead(a, RemoveFirst(xs, ys[0]), ys[1..]);
    }
  }

  /**
   * Collecting every element of `xs` that lies in `drop` and then removing each
   * collected element once leaves exactly the elements outside `drop`: the
   * two-pass "collect failures, then remove them" pattern is a filter.
   */
  lemma {:induction false} RemoveCollectedIsWithout<T(!new)>(xs: seq<T>, drop: set<T>)
    ensures RemoveEach(xs, Within(xs, drop)) == Without(xs, drop)
    decreases |xs|
  {
    if |xs| > 0 {
      var a, rest := xs[0], xs[1..];
      assert xs == [a] + rest;
      RemoveCollectedIsWithout(rest, drop);
      var kept := Within(rest, drop);
      if a in drop {
        assert Within(xs, drop) == [a] + kept;
        assert ([a] + kept)[0] == a && ([a] + kept)[1..] == kept;
        assert RemoveFirst(xs, a) == rest;
        assert RemoveEach(xs, [a] + kept) == RemoveEach(rest, kept);
        assert Without(xs, drop) == Without(rest, drop);
      } else {
        assert Within(xs, drop) == kept;
        assert a !in kept;
        RemoveEachKeepsHead(a, rest, kept);
        assert Without(xs, drop) == [a] + Without(rest, drop);
      }
    }
  }
}
