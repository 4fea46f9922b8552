/** Ranking of the candidates: a stable sort by range, longest range first.
    `Ranked` is the reference definition (insertion of each car after every
    car whose range is at least its own); `SortByRange` sorts an array in
    place and is proved to produce exactly `Ranked` of its input. */
module Ranking {
  import opened Cars

  /** Places `x` into `t` just after the last car, counted from the back,
      whose range is not smaller than `x.range`. */
  function Insert(t: seq<Car>, x: Car): seq<Car>
  {
    if t == [] || t[|t| - 1].range >= x.range then t + [x]
    else Insert(t[..|t| - 1], x) + [t[|t| - 1]]
  }

  /** The candidates sorted by range, descending; equal ranges keep their order. */
  function Ranked(s: seq<Car>): seq<Car>
  {
    if s == [] then [] else Insert(Ranked(s[..|s| - 1]), s[|s| - 1])
  }

  /** Non-increasing in range. */
  ghost predicate ByRangeDescending(s: seq<Car>) {
    forall i, j :: 0 <= i < j < |s| ==> s[i].range >= s[j].range
  }

  /** The cars of `s` whose range is exactly `v`, in the order of `s`. */
  function WithRange(s: seq<Car>, v: real): seq<Car>
  {
    if s == [] then []
    else WithRange(s[..|s| - 1], v) + (if s[|s| - 1].range == v then [s[|s| - 1]] else [])
  }

  lemma {:induction false} WithRangeAppend(a: seq<Car>, b: seq<Car>, v: real)
    ensures WithRange(a + b, v) == WithRange(a, v) + WithRange(b, v)
  {
    if b == [] {
      assert a + b == a;
    } else {
      var b' := b[..|b| - 1];
      assert (a + b)[..|a + b| - 1] == a + b';
      assert (a + b)[|a + b| - 1] == b[|b| - 1];
      WithRangeAppend(a, b', v);
    }
  }

  lemma {:induction false} InsertPermutes(t: seq<Car>, x: Car)
    ensures |Insert(t, x)| == |t| + 1
    ensures multiset(Insert(t, x)) == multiset(t) + multiset{x}
  {
    if !(t == [] || t[|t| - 1].range >= x.range) {
      InsertPermutes(t[..|t| - 1], x);
      assert t == t[..|t| - 1] + [t[|t| - 1]];
    }
  }

  lemma {:induction false} InsertKeepsOrder(t: seq<Car>, x: Car)
    requires ByRangeDescending(t)
    ensures ByRangeDescending(Insert(t, x))
    ensures forall i :: 0 <= i < |Insert(t, x)| ==> Insert(t, x)[i] == x || Insert(t, x)[i] in t
  {
    if !(t == [] || t[|t| - 1].range >= x.range) {
      var t' := t[..|t| - 1];
      InsertKeepsOrder(t', x);
      InsertPermutes(t', x);
      var u := Insert(t', x);
      forall i | 0 <= i < |u| ensures u[i].range >= t[|t| - 1].range {
        if u[i] != x {
          var k :| 0 <= k < |t'| && t'[k] == u[i];
        }
      }
    }
  }

  /** `Insert` never moves `x` ahead of a car with the same range: among cars of
      range `v`, `x` comes last exactly when it has that range. */
  lemma {:induction false} InsertStable(t: seq<Car>, x: Car, v: real)
    ensures WithRange(Insert(t, x), v) == WithRange(t, v) + (if x.range == v then [x] else [])
  {
    if t == [] || t[|t| - 1].range >= x.range {
      WithRangeAppend(t, [x], v);
    } else {
      var t', last := t[..|t| - 1], t[|t| - 1];
      InsertStable(t', x, v);
      WithRangeAppend(Insert(t', x), [last], v);
      assert t == t' + [last];
      WithRangeAppend(t', [last], v);
    }
  }

  /** Ranking reorders the candidates and nothing more. */
  lemma {:induction false} RankedPermutes(s: seq<Car>)
    ensures |Ranked(s)| == |s|
    ensures multiset(Ranked(s)) == multiset(s)
  {
    if s != [] {
      RankedPermutes(s[..|s| - 1]);
      InsertPermutes(Ranked(s[..|s| - 1]), s[|s| - 1]);
      assert s == s[..|s| - 1] + [s[|s| - 1]];
    }
  }

  /** The ranked list is non-increasing in range. */
  lemma {:induction false} RankedDescending(s: seq<Car>)
    ensures ByRangeDescending(Ranked(s))
  {
    if s != [] {
      RankedDescending(s[..|s| - 1]);
      InsertKeepsOrder(Ranked(s[..|s| - 1]), s[|s| - 1]);
    }
  }

  /** Stability: for every range value, the cars with that range appear in the
      ranked list in the same relative order as in the input. */
  lemma {:induction false} RankedStable(s: seq<Car>, v: real)
    ensures WithRange(Ranked(s), v) == WithRange(s, v)
  {
    if s != [] {
      RankedStable(s[..|s| - 1], v);
      InsertStable(Ranked(s[..|s| - 1]), s[|s| - 1], v);
    }
  }

  lemma {:induction false} WithRangeNone(s: seq<Car>, v: real)
    requires forall j :: 0 <= j < |s| ==> s[j].range != v
    ensures WithRange(s, v) == []
  {
    if s != [] {
      WithRangeNone(s[..|s| - 1], v);
    }
  }

  /** The first car of range `v` in `s` heads `WithRange(s, v)`. */
  lemma FirstWithRange(s: seq<Car>, v: real, k: int)
    requires 0 <= k < |s| && s[k].range == v
    requires forall j :: 0 <= j < k ==> s[j].range != v
    ensures WithRange(s, v) != [] && WithRange(s, v)[0] == s[k]
  {
    assert s == s[..k] + ([s[k]] + s[k + 1..]);
    WithRangeAppend(s[..k], [s[k]] + s[k + 1..], v);
    WithRangeAppend([s[k]], s[k + 1..], v);
    WithRangeNone(s[..k], v);
    assert WithRange([s[k]], v) == WithRange([], v) + [s[k]] by {
      assert [s[k]][..0] == [];
    }
  }

  /** The earliest position in `s` holding a car of range `v`, given one. */
  lemma {:induction false} EarliestWithRange(s: seq<Car>, v: real, i: int) returns (k: int)
    requires 0 <= i < |s| && s[i].range == v
    ensures 0 <= k <= i && s[k].range == v
    ensures forall j :: 0 <= j < k ==> s[j].range != v
  {
    if s[0].range == v {
      k := 0;
    } else {
      var k' := EarliestWithRange(s[1..], v, i - 1);
      k := k' + 1;
      forall j | 0 < j < k ensures s[j].range != v {
        assert s[1..][j - 1] == s[j];
      }
    }
  }

  /** The head of the ranking has the longest range of all, and among the cars
      of that range it is the one that comes first in the input. */
  lemma RankedHead(s: seq<Car>) returns (k: int)
    requires s != []
    ensures 0 <= k < |s| && Ranked(s)[0] == s[k]
    ensures forall j :: 0 <= j < |s| ==> s[j].range <= s[k].range
    ensures forall j :: 0 <= j < k ==> s[j].range < s[k].range
  {
    var r := Ranked(s);
    RankedPermutes(s);
    RankedDescending(s);
    var v := r[0].range;
    forall j | 0 <= j < |s| ensures s[j].range <= v {
      assert s[j] in multiset(r);
      var m :| 0 <= m < |r| && r[m] == s[j];
      if m > 0 { assert r[0].range >= r[m].range; }
    }
    assert r[0] in multiset(s);
    var i :| 0 <= i < |s| && s[i] == r[0];
    k := EarliestWithRange(s, v, i);
    FirstWithRange(s, v, k);
    FirstWithRange(r, v, 0);
    RankedStable(s, v);
  }

  lemma DropHead(r: seq<Car>)
    requires r != []
    ensures multiset(r[1..]) == multiset(r) - multiset{r[0]}
  {
    assert r == [r[0]] + r[1..];
  }

  lemma SecondBoundsTail(r: seq<Car>)
    requires |r| >= 2 && ByRangeDescending(r)
    ensures forall c :: c in r[1..] ==> c.range <= r[1].range
  {
    forall c | c in r[1..] ensures c.range <= r[1].range {
      var m :| 1 <= m < |r| && r[m] == c;
      if m > 1 { assert r[1].range >= r[m].range; }
    }
  }

  /** The second car of the ranking has the longest range once the head is
      set aside. */
  lemma RankedSecond(s: seq<Car>)
    requires |s| >= 2
    ensures |Ranked(s)| == |s|
    ensures forall c :: c in multiset(s) - multiset{Ranked(s)[0]} ==> c.range <= Ranked(s)[1].range
  {
    var r := Ranked(s);
    RankedPermutes(s);
    RankedDescending(s);
    DropHead(r);
    SecondBoundsTail(r);
    forall c | c in multiset(s) - multiset{r[0]} ensures c.range <= r[1].range {
      assert c in multiset(r[1..]);
    }
  }

  lemma {:induction false} WithRangeMembers(s: seq<Car>, v: real, x: Car)
    requires x in WithRange(s, v)
    ensures x in s && x.range == v
  {
    var s' := s[..|s| - 1];
    if x in WithRange(s', v) {
      WithRangeMembers(s', v, x);
    }
  }

  lemma ByRangeDescendingPrefix(t: seq<Car>)
    requires t != [] && ByRangeDescending(t)
    ensures ByRangeDescending(t[..|t| - 1])
  {
  }

  /** The last car of a non-increasing list has the smallest range in it. */
  lemma LastIsShortest(t: seq<Car>, x: Car)
    requires t != [] && ByRangeDescending(t) && x in t
    ensures t[|t| - 1].range <= x.range
  {
    var i :| 0 <= i < |t| && t[i] == x;
    if i < |t| - 1 { assert t[i].range >= t[|t| - 1].range; }
  }

  lemma LastOfRange(t: seq<Car>)
    requires t != []
    ensures WithRange(t, t[|t| - 1].range) == WithRange(t[..|t| - 1], t[|t| - 1].range) + [t[|t| - 1]]
  {
  }

  lemma OtherRangeDropsLast(t: seq<Car>, w: real)
    requires t != [] && w != t[|t| - 1].range
    ensures WithRange(t[..|t| - 1], w) == WithRange(t, w)
  {
  }

  lemma LastsAgree(t: seq<Car>, u: seq<Car>)
    requires t != [] && u != []
    requires ByRangeDescending(t) && ByRangeDescending(u)
    requires WithRange(t, t[|t| - 1].range) == WithRange(u, t[|t| - 1].range)
    requires WithRange(t, u[|u| - 1].range) == WithRange(u, u[|u| - 1].range)
    ensures t[|t| - 1] == u[|u| - 1]
  {
    var x, y := t[|t| - 1], u[|u| - 1];
    LastOfRange(t);
    LastOfRange(u);
    assert x in WithRange(u, x.range);
    WithRangeMembers(u, x.range, x);
    LastIsShortest(u, x);
    assert y in WithRange(t, y.range);
    WithRangeMembers(t, y.range, y);
    LastIsShortest(t, y);
    var w := WithRange(t, x.range);
    assert w == WithRange(t[..|t| - 1], x.range) + [x];
    assert w == WithRange(u[..|u| - 1], x.range) + [y];
    assert w[|w| - 1] == x && w[|w| - 1] == y;
  }

  /** Two non-increasing lists that agree, range value by range value, on which
      cars they hold and in what order are the same list. */
  lemma {:induction false} DescendingDeterminedByRanges(t: seq<Car>, u: seq<Car>)
    requires ByRangeDescending(t) && ByRangeDescending(u)
    requires forall v :: WithRange(t, v) == WithRange(u, v)
    ensures t == u
    decreases |t| + |u|
  {
    if t == [] && u == [] {
    } else if t == [] {
      LastOfRange(u);
    } else if u == [] {
      LastOfRange(t);
    } else {
      LastsAgree(t, u);
      var x, t', u' := t[|t| - 1], t[..|t| - 1], u[..|u| - 1];
      LastOfRange(t);
      LastOfRange(u);
      forall w ensures WithRange(t', w) == WithRange(u', w) {
        if w == x.range {
          assert WithRange(t', w) == WithRange(t, w)[..|WithRange(t, w)| - 1];
          assert WithRange(u', w) == WithRange(u, w)[..|WithRange(u, w)| - 1];
        } else {
          OtherRangeDropsLast(t, w);
          OtherRangeDropsLast(u, w);
        }
      }
      ByRangeDescendingPrefix(t);
      ByRangeDescendingPrefix(u);
      DescendingDeterminedByRanges(t', u');
      assert t == t' + [x] && u == u' + [x];
    }
  }

  /** `Ranked` is the only stable descending order of the candidates: any list
      that is non-increasing in range and keeps, for every range value, the
      input's cars of that range in the input's order, is `Ranked(s)`. */
  lemma RankedUnique(s: seq<Car>, t: seq<Car>)
    requires ByRangeDescending(t)
    requires forall v :: WithRange(t, v) == WithRange(s, v)
    ensures t == Ranked(s)
  {
    RankedDescending(s);
    forall v ensures WithRange(t, v) == WithRange(Ranked(s), v) {
      RankedStable(s, v);
    }
    DescendingDeterminedByRanges(t, Ranked(s));
  }

  /** Splits the insertion at `j` when every car from `j` on is shorter-ranged
      than `x`: `x` goes into `t[..j]` and `t[j..]` follows it unchanged. */
  lemma {:induction false} InsertSplit(t: seq<Car>, x: Car, j: int)
    requires 0 <= j <= |t|
    requires forall k :: j <= k < |t| ==> t[k].range < x.range
    ensures Insert(t, x) == Insert(t[..j], x) + t[j..]
    decreases |t| - j
  {
    if j < |t| {
      var t' := t[..|t| - 1];
      assert t'[..j] == t[..j];
      InsertSplit(t', x, j);
      assert t[j..] == t'[j..] + [t[|t| - 1]];
    } else {
      assert t[..j] == t;
    }
  }

  /** One insertion step: moves `a[i]` left past every shorter-ranged car of
      the sorted prefix `a[..i]`, leaving `a[i + 1..]` alone. */
  method SinkLast(a: array<Car>, i: int)
    requires 0 <= i < a.Length
    modifies a
    ensures a[..i + 1] == Insert(old(a[..i]), old(a[i]))
    ensures a[i + 1..] == old(a[i + 1..])
  {
    ghost var t := a[..i];
    var x := a[i];
    var j := i;
    while j > 0 && a[j - 1].range < x.range
      invariant 0 <= j <= i
      invariant a[j] == x
      invariant forall k :: 0 <= k < j ==> a[k] == t[k]
      invariant forall k :: j < k <= i ==> a[k] == t[k - 1]
      invariant forall k :: i < k < a.Length ==> a[k] == old(a[k])
      invariant forall k :: j <= k < i ==> t[k].range < x.range
    {
      a[j - 1], a[j] := a[j], a[j - 1];
      j := j - 1;
    }
    InsertSplit(t, x, j);
    assert Insert(t[..j], x) == t[..j] + [x];
    assert a[..i + 1] == t[..j] + [x] + t[j..];
  }

  /** Sorts `a` in place by range, longest first, keeping the input order among
      equal ranges (insertion sort with adjacent swaps). */
  method SortByRange(a: array<Car>)
    modifies a
    ensures a[..] == Ranked(old(a[..]))
  {
    ghost var s := a[..];
    var i := 0;
    while i < a.Length
      invariant 0 <= i <= a.Length
      invariant a[..i] == Ranked(s[..i])
      invariant a[i..] == s[i..]
    {
      assert a[i] == s[i];
      SinkLast(a, i);
      assert s[..i + 1][..i] == s[..i];
      assert a[i + 1..] == s[i + 1..];
      i := i + 1;
    }
    assert a[..] == a[..a.Length] && s == s[..a.Length];
  }
}
