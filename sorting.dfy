/**
 * Python's `sorted(xs, key=...)` and `list.sort(key=...)`: a stable sort.
 * The order is given as a "key(a) <= key(b)" relation `le`; the lemmas
 * say that the result is ordered, is a permutation of the input, keeps
 * equal-keyed elements in input order, and is determined by the input's
 * multiset when no two distinct elements tie.
 */
module Sorting {

  ghost predicate TotalPreorder<T(!new)>(le: (T, T) -> bool)
  {
    && (forall a, b :: le(a, b) || le(b, a))
    && (forall a, b, c :: le(a, b) && le(b, c) ==> le(a, c))
  }

  lemma TransitiveContra<T(!new)>(a: T, b: T, c: T, le: (T, T) -> bool)
    requires TotalPreorder(le) && le(a, b) && !le(a, c)
    ensures !le(b, c)
  {
  }

  /** No two distinct elements of `xs` compare equal under `le`. */
  ghost predicate NoTies<T>(xs: seq<T>, le: (T, T) -> bool)
  {
    forall a, b :: a in xs && b in xs && le(a, b) && le(b, a) ==> a == b
  }

  ghost predicate SortedBy<T>(xs: seq<T>, le: (T, T) -> bool)
  {
    forall i, j :: 0 <= i < j < |xs| ==> le(xs[i], xs[j])
  }

  /** `x` and `k` have equal keys. */
  predicate Tie<T>(x: T, k: T, le: (T, T) -> bool)
  {
    le(x, k) && le(k, x)
  }

  /** The elements of `xs` whose key equals `k`'s, in their order in `xs`. */
  function Ties<T>(xs: seq<T>, k: T, le: (T, T) -> bool): seq<T>
  {
    if |xs| == 0 then []
    else (if Tie(xs[0], k, le) then [xs[0]] else []) + Ties(xs[1..], k, le)
  }

  /** Puts `x` in front of the first element whose key is not below its own. */
  function Insert<T>(x: T, ys: seq<T>, le: (T, T) -> bool): (r: seq<T>)
    ensures |r| == |ys| + 1
    ensures multiset(r) == multiset(ys) + multiset{x}
  {
    if |ys| == 0 || le(x, ys[0]) then [x] + ys
    else
      assert ys == [ys[0]] + ys[1..];
      [ys[0]] + Insert(x, ys[1..], le)
  }

  /** Insertion sort from the back: each element goes in front of the equal-keyed ones after it. */
  function Sort<T>(xs: seq<T>, le: (T, T) -> bool): (r: seq<T>)
    ensures |r| == |xs|
    ensures multiset(r) == multiset(xs)
  {
    if |xs| == 0 then []
    else
      assert xs == [xs[0]] + xs[1..];
      Insert(xs[0], Sort(xs[1..], le), le)
  }

  lemma {:induction false} InsertSorted<T(!new)>(x: T, ys: seq<T>, le: (T, T) -> bool)
    requires TotalPreorder(le) && SortedBy(ys, le)
    ensures SortedBy(Insert(x, ys, le), le)
  {
    if |ys| > 0 && !le(x, ys[0]) {
      var tail := Insert(x, ys[1..], le);
      InsertSorted(x, ys[1..], le);
      var r := [ys[0]] + tail;
      assert forall e :: e in multiset(tail) ==> e == x || e in ys[1..];
      forall j | 0 < j < |r| ensures le(r[0], r[j]) {
        assert r[j] in multiset(tail);
        if r[j] != x {
          var k :| 0 <= k < |ys[1..]| && ys[1..][k] == r[j];
          assert ys[k + 1] == r[j];
        }
      }
    }
  }

  /** The sort orders its result by `le`. */
  lemma {:induction false} SortSorted<T(!new)>(xs: seq<T>, le: (T, T) -> bool)
    requires TotalPreorder(le)
    ensures SortedBy(Sort(xs, le), le)
  {
    if |xs| > 0 {
      SortSorted(xs[1..], le);
      InsertSorted(xs[0], Sort(xs[1..], le), le);
    }
  }

  lemma TiesAppend<T>(a: seq<T>, b: seq<T>, k: T, le: (T, T) -> bool)
    ensures Ties(a + b, k, le) == Ties(a, k, le) + Ties(b, k, le)
  {
    if |a| > 0 {
      assert (a + b)[1..] == a[1..] + b;
      TiesAppend(a[1..], b, k, le);
    } else {
      assert a + b == b;
    }
  }

  lemma TiesSingle<T>(x: T, k: T, le: (T, T) -> bool)
    ensures Ties([x], k, le) == if Tie(x, k, le) then [x] else []
  {
    assert [x][1..] == [];
  }

  lemma {:induction false} InsertTies<T(!new)>(x: T, ys: seq<T>, k: T, le: (T, T) -> bool)
    requires TotalPreorder(le)
    ensures Ties(Insert(x, ys, le), k, le) == (if Tie(x, k, le) then [x] else []) + Ties(ys, k, le)
  {
    TiesSingle(x, k, le);
    if |ys| == 0 || le(x, ys[0]) {
      TiesAppend([x], ys, k, le);
    } else {
      var y, rest := ys[0], ys[1..];
      assert ys == [y] + rest;
      assert Insert(x, ys, le) == [y] + Insert(x, rest, le);
      InsertTies(x, rest, k, le);
      TiesAppend([y], Insert(x, rest, le), k, le);
      TiesAppend([y], rest, k, le);
      TiesSingle(y, k, le);
      if Tie(x, k, le) {
        TransitiveContra(x, k, y, le);
      }
    }
  }

  /** Stability: the elements tied with any `k` keep their input order. */
  lemma {:induction false} SortStable<T(!new)>(xs: seq<T>, k: T, le: (T, T) -> bool)
    requires TotalPreorder(le)
    ensures Ties(Sort(xs, le), k, le) == Ties(xs, k, le)
  {
    if |xs| > 0 {
      SortStable(xs[1..], k, le);
      InsertTies(xs[0], Sort(xs[1..], le), k, le);
    }
  }

  lemma {:induction false} SortedHeadIsLeast<T>(xs: seq<T>, x: T, le: (T, T) -> bool)
    requires SortedBy(xs, le) && x in xs
    ensures le(xs[0], x) || xs[0] == x
  {
    var i :| 0 <= i < |xs| && xs[i] == x;
    if i > 0 {
      assert le(xs[0], xs[i]);
    }
  }

  lemma SortedTail<T>(xs: seq<T>, le: (T, T) -> bool)
    requires |xs| > 0 && SortedBy(xs, le)
    ensures SortedBy(xs[1..], le)
  {
    forall i, j | 0 <= i < j < |xs| - 1 ensures le(xs[1..][i], xs[1..][j]) {
      assert xs[1..][i] == xs[i + 1] && xs[1..][j] == xs[j + 1];
    }
  }

  lemma {:induction false} SortedHeadsEqual<T>(a: seq<T>, b: seq<T>, le: (T, T) -> bool)
    requires |a| > 0 && |b| > 0
    requires SortedBy(a, le) && SortedBy(b, le)
    requires multiset(a) == multiset(b)
    requires NoTies(a, le)
    ensures a[0] == b[0]
  {
    assert a[0] in multiset(b);
    assert b[0] in multiset(a);
    SortedHeadIsLeast(a, b[0], le);
    SortedHeadIsLeast(b, a[0], le);
  }

  /** Two ordered permutations of each other are equal when no two distinct elements tie. */
  lemma {:induction false} SortedUnique<T>(a: seq<T>, b: seq<T>, le: (T, T) -> bool)
    requires SortedBy(a, le) && SortedBy(b, le)
    requires multiset(a) == multiset(b)
    requires NoTies(a, le)
    ensures a == b
    decreases |a|
  {
    assert |a| == |multiset(a)| == |multiset(b)| == |b|;
    if |a| > 0 {
      SortedHeadsEqual(a, b, le);
      var a', b' := a[1..], b[1..];
      assert a == [a[0]] + a' && b == [b[0]] + b';
      assert multiset(a') == multiset(a) - multiset{a[0]};
      assert multiset(b') == multiset(b) - multiset{b[0]};
      SortedTail(a, le);
      SortedTail(b, le);
      assert forall e :: e in a' ==> e in a;
      SortedUnique(a', b', le);
    }
  }

  /** Sorting forgets the input order when no two distinct elements tie. */
  lemma SortPermutationInvariant<T(!new)>(xs: seq<T>, ys: seq<T>, le: (T, T) -> bool)
    requires TotalPreorder(le)
    requires multiset(xs) == multiset(ys)
    requires NoTies(xs, le)
    ensures Sort(xs, le) == Sort(ys, le)
  {
    SortSorted(xs, le);
    SortSorted(ys, le);
    var a, b := Sort(xs, le), Sort(ys, le);
    assert forall e :: e in a ==> e in multiset(xs);
    SortedUnique(a, b, le);
  }

  lemma {:induction false} LastTie<T>(xs: seq<T>, k: T, le: (T, T) -> bool)
    requires Ties(xs, k, le) != []
    ensures var t := Ties(xs, k, le);
      exists i :: 0 <= i < |xs| && xs[i] == t[|t| - 1] && Tie(xs[i], k, le) &&
        forall j :: i < j < |xs| ==> !Tie(xs[j], k, le)
  {
    var t := Ties(xs, k, le);
    if Ties(xs[1..], k, le) != [] {
      LastTie(xs[1..], k, le);
      var t' := Ties(xs[1..], k, le);
      var i :| 0 <= i < |xs[1..]| && xs[1..][i] == t'[|t'| - 1] && Tie(xs[1..][i], k, le) &&
        forall j :: i < j < |xs[1..]| ==> !Tie(xs[1..][j], k, le);
      assert t[|t| - 1] == t'[|t'| - 1];
      assert forall j :: i + 1 < j < |xs| ==> xs[j] == xs[1..][j - 1];
      assert xs[i + 1] == xs[1..][i];
    } else {
      assert forall j :: 0 < j < |xs| ==> xs[j] == xs[1..][j - 1];
      NoTiesInTail(xs[1..], k, le);
    }
  }

  lemma {:induction false} NoTiesInTail<T>(xs: seq<T>, k: T, le: (T, T) -> bool)
    requires Ties(xs, k, le) == []
    ensures forall j :: 0 <= j < |xs| ==> !Tie(xs[j], k, le)
  {
    if |xs| > 0 {
      NoTiesInTail(xs[1..], k, le);
      assert forall j :: 0 < j < |xs| ==> xs[j] == xs[1..][j - 1];
    }
  }

  lemma SortedLastIsGreatest<T(!new)>(r: seq<T>, le: (T, T) -> bool)
    requires TotalPreorder(le) && SortedBy(r, le) && |r| > 0
    ensures forall x :: x in r ==> le(x, r[|r| - 1])
  {
    forall x | x in r ensures le(x, r[|r| - 1]) {
      var i :| 0 <= i < |r| && r[i] == x;
      if i == |r| - 1 {
        assert le(x, x) || le(x, x);
      }
    }
  }

  lemma {:induction false} TiesEndWithLast<T(!new)>(r: seq<T>, le: (T, T) -> bool)
    requires TotalPreorder(le) && |r| > 0
    ensures var t := Ties(r, r[|r| - 1], le); t != [] && t[|t| - 1] == r[|r| - 1]
  {
    var n := |r| - 1;
    var m := r[n];
    assert r == r[..n] + [m];
    TiesAppend(r[..n], [m], m, le);
    TiesSingle(m, m, le);
    assert le(m, m) || le(m, m);
  }

  /** `sorted(xs, key=...)[-1]` has the greatest key. */
  lemma SortLastGreatest<T(!new)>(xs: seq<T>, le: (T, T) -> bool)
    requires TotalPreorder(le) && |xs| > 0
    ensures forall x :: x in xs ==> le(x, Sort(xs, le)[|xs| - 1])
  {
    var r := Sort(xs, le);
    SortSorted(xs, le);
    SortedLastIsGreatest(r, le);
    forall x | x in xs ensures x in r {
      assert x in multiset(xs);
    }
  }

  /**
   * `sorted(xs, key=...)[-1]`: of the elements with the greatest key, the
   * one that comes last in `xs`; every later element has a smaller key.
   */
  lemma SortLastLatest<T(!new)>(xs: seq<T>, le: (T, T) -> bool)
    requires TotalPreorder(le) && |xs| > 0
    ensures var m := Sort(xs, le)[|xs| - 1];
      exists i :: 0 <= i < |xs| && xs[i] == m &&
        forall j :: i < j < |xs| ==> !le(m, xs[j])
  {
    var r := Sort(xs, le);
    var m := r[|xs| - 1];
    SortStable(xs, m, le);
    TiesEndWithLast(r, le);
    LastTie(xs, m, le);
    var i :| 0 <= i < |xs| && xs[i] == m && Tie(xs[i], m, le) &&
      forall j :: i < j < |xs| ==> !Tie(xs[j], m, le);
    SortLastGreatest(xs, le);
    forall j | i < j < |xs| ensures !le(m, xs[j]) {
      assert xs[j] in xs;
    }
  }

  /** `[f(x) for x in xs]`. */
  function Map<A, B>(xs: seq<A>, f: A -> B): (r: seq<B>)
    ensures |r| == |xs| && forall i :: 0 <= i < |xs| ==> r[i] == f(xs[i])
  {
    seq(|xs|, i requires 0 <= i < |xs| => f(xs[i]))
  }

  lemma MapAppend<A, B>(a: seq<A>, b: seq<A>, f: A -> B)
    ensures Map(a + b, f) == Map(a, f) + Map(b, f)
  {
  }

  /** Mapping two orderings of the same elements gives two orderings of the same results. */
  lemma {:induction false} MapPermutation<A, B>(xs: seq<A>, ys: seq<A>, f: A -> B)
    requires multiset(xs) == multiset(ys)
    ensures multiset(Map(xs, f)) == multiset(Map(ys, f))
    decreases |xs|
  {
    if |xs| > 0 {
      var x := xs[0];
      assert x in multiset(ys);
      var k :| 0 <= k < |ys| && ys[k] == x;
      var ys' := ys[..k] + ys[k + 1..];
      assert ys == ys[..k] + [x] + ys[k + 1..];
      assert xs == [x] + xs[1..];
      assert multiset(ys') == multiset(ys) - multiset{x};
      assert multiset(xs[1..]) == multiset(xs) - multiset{x};
      MapPermutation(xs[1..], ys', f);
      MapAppend([x], xs[1..], f);
      MapAppend(ys[..k] + [x], ys[k + 1..], f);
      MapAppend(ys[..k], [x], f);
      MapAppend(ys[..k], ys[k + 1..], f);
    } else {
      assert ys == [];
    }
  }

  /** No element occurs twice. */
  predicate Distinct<T(==)>(xs: seq<T>)
  {
    forall i, j :: 0 <= i < j < |xs| ==> xs[i] != xs[j]
  }

  lemma {:induction false} InsertDistinct<T>(x: T, ys: seq<T>, le: (T, T) -> bool)
    requires Distinct(ys) && x !in ys
    ensures Distinct(Insert(x, ys, le))
    decreases |ys|
  {
    if |ys| > 0 && !le(x, ys[0]) {
      var t := ys[1..];
      assert Distinct(t) by {
        forall i, j | 0 <= i < j < |t| ensures t[i] != t[j] {
          assert t[i] == ys[i + 1] && t[j] == ys[j + 1];
        }
      }
      assert x !in t by {
        forall i | 0 <= i < |t| ensures t[i] != x {
          assert t[i] == ys[i + 1];
        }
      }
      InsertDistinct(x, t, le);
      var r := Insert(x, t, le);
      assert ys[0] !in multiset(r) by {
        assert ys[0] != x;
        assert ys[0] !in t by {
          forall i | 0 <= i < |t| ensures t[i] != ys[0] {
            assert t[i] == ys[i + 1];
          }
        }
      }
      assert Insert(x, ys, le) == [ys[0]] + r;
    }
  }

  /** Sorting keeps a sequence free of repeats. */
  lemma {:induction false} SortDistinct<T>(xs: seq<T>, le: (T, T) -> bool)
    requires Distinct(xs)
    ensures Distinct(Sort(xs, le))
    decreases |xs|
  {
    if |xs| > 0 {
      var t := xs[1..];
      assert Distinct(t) by {
        forall i, j | 0 <= i < j < |t| ensures t[i] != t[j] {
          assert t[i] == xs[i + 1] && t[j] == xs[j + 1];
        }
      }
      SortDistinct(t, le);
      assert xs[0] !in multiset(Sort(t, le)) by {
        forall i | 0 <= i < |t| ensures t[i] != xs[0] {
          assert t[i] == xs[i + 1];
        }
      }
      InsertDistinct(xs[0], Sort(t, le), le);
    }
  }
}
