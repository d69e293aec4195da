/**
 * Removal while iterating. Both `control_cars` and `control_pedestrians` (queuing.py) walk a
 * Python list with `for x in xs:` and call `xs.remove(x)` inside the loop. The list iterator
 * keeps an index that advances by one after every step, so the element that slides into the
 * removed one's place is never looked at during that pass. This module models that loop once,
 * as a function of the list, the iterator's index and the set of elements the body removes,
 * and proves what it does: exactly the visited elements that the body removes disappear, the
 * rest keep their order, and the element right after a removed one is skipped.
 */
module Sweep {

  /** No element occurs twice. */
  predicate Distinct<T(==)>(s: seq<T>) {
    forall i, j :: 0 <= i < j < |s| ==> s[i] != s[j]
  }

  /** Python's `xs.remove(x)`: drop the first element equal to `x`. */
  function RemoveFirst<T(==)>(s: seq<T>, x: T): (r: seq<T>)
    requires x in s
    ensures |r| == |s| - 1
  {
    if s[0] == x then s[1..] else [s[0]] + RemoveFirst(s[1..], x)
  }

  /** In a list without repetitions, `remove` drops the element exactly where it stands. */
  lemma {:induction false} RemoveFirstAt<T>(s: seq<T>, i: nat)
    requires Distinct(s) && i < |s|
    ensures RemoveFirst(s, s[i]) == s[..i] + s[i + 1..]
    decreases i
  {
    if i > 0 {
      assert s[0] != s[i];
      assert Distinct(s[1..]) by {
        forall a, b | 0 <= a < b < |s[1..]| ensures s[1..][a] != s[1..][b] {
          assert s[1..][a] == s[a + 1] && s[1..][b] == s[b + 1];
        }
      }
      assert s[1..][i - 1] == s[i];
      RemoveFirstAt(s[1..], i - 1);
      assert s[1..][..i - 1] + s[1..][i..] == s[1..i] + s[i + 1..];
      assert [s[0]] + (s[1..i] + s[i + 1..]) == s[..i] + s[i + 1..];
    }
  }

  /** The list that `for x in xs: if x in doomed: xs.remove(x)` leaves behind, when the
      iterator stands at index `i` of the current list `q`. */
  function SweepFrom<T(==)>(q: seq<T>, i: nat, doomed: set<T>): seq<T>
    decreases |q| - i
  {
    if i >= |q| then q
    else if q[i] in doomed then SweepFrom(q[..i] + q[i + 1..], i + 1, doomed)
    else SweepFrom(q, i + 1, doomed)
  }

  /** The elements the loop body runs on, from index `i` of the current list `q` onwards. */
  function VisitedFrom<T(==)>(q: seq<T>, i: nat, doomed: set<T>): set<T>
    decreases |q| - i
  {
    if i >= |q| then {}
    else if q[i] in doomed then {q[i]} + VisitedFrom(q[..i] + q[i + 1..], i + 1, doomed)
    else {q[i]} + VisitedFrom(q, i + 1, doomed)
  }

  /** A whole pass over `q`. */
  function Swept<T(==)>(q: seq<T>, doomed: set<T>): seq<T> {
    SweepFrom(q, 0, doomed)
  }

  /** The elements a whole pass over `q` runs the loop body on. */
  function Visited<T(==)>(q: seq<T>, doomed: set<T>): set<T> {
    VisitedFrom(q, 0, doomed)
  }

  /** The elements of `q` that are not in `r`, in their order. */
  function Without<T(==)>(q: seq<T>, r: set<T>): seq<T> {
    if q == [] then [] else (if q[0] in r then [] else [q[0]]) + Without(q[1..], r)
  }

  /** The part of the list before the iterator is never touched again. */
  lemma SweepShift<T>(p: seq<T>, r: seq<T>, doomed: set<T>)
    ensures SweepFrom(p + r, |p|, doomed) == p + Swept(r, doomed)
    ensures VisitedFrom(p + r, |p|, doomed) == Visited(r, doomed)
  {
    SweepShiftList(p, r, doomed);
    SweepShiftVisited(p, r, doomed);
  }

  lemma {:induction false} SweepShiftList<T>(p: seq<T>, r: seq<T>, doomed: set<T>)
    ensures SweepFrom(p + r, |p|, doomed) == p + Swept(r, doomed)
    decreases |r|
  {
    if r == [] {
      assert p + r == p;
    } else if r[0] !in doomed {
      var t := r[1..];
      calc {
        SweepFrom(p + r, |p|, doomed);
        { assert (p + r)[|p|] == r[0]; }
        SweepFrom(p + r, |p| + 1, doomed);
        { assert p + r == (p + [r[0]]) + t; SweepShiftList(p + [r[0]], t, doomed); }
        (p + [r[0]]) + Swept(t, doomed);
        p + ([r[0]] + Swept(t, doomed));
        { assert [r[0]] + t == r; SweepShiftList([r[0]], t, doomed); }
        p + SweepFrom(r, 1, doomed);
        p + Swept(r, doomed);
      }
    } else if |r| == 1 {
      calc {
        SweepFrom(p + r, |p|, doomed);
        { assert (p + r)[|p|] == r[0]; assert (p + r)[..|p|] + (p + r)[|p| + 1..] == p; }
        SweepFrom(p, |p| + 1, doomed);
        p;
        { assert r[..0] + r[1..] == []; assert SweepFrom([], 1, doomed) == []; }
        p + Swept(r, doomed);
      }
    } else {
      var t := r[2..];
      calc {
        SweepFrom(p + r, |p|, doomed);
        { assert (p + r)[|p|] == r[0]; assert (p + r)[..|p|] + (p + r)[|p| + 1..] == (p + [r[1]]) + t; }
        SweepFrom((p + [r[1]]) + t, |p| + 1, doomed);
        { SweepShiftList(p + [r[1]], t, doomed); }
        (p + [r[1]]) + Swept(t, doomed);
        p + ([r[1]] + Swept(t, doomed));
        { SweepShiftList([r[1]], t, doomed); }
        p + SweepFrom([r[1]] + t, 1, doomed);
        { assert r[..0] + r[1..] == [r[1]] + t; }
        p + Swept(r, doomed);
      }
    }
  }

  lemma {:induction false} SweepShiftVisited<T>(p: seq<T>, r: seq<T>, doomed: set<T>)
    ensures VisitedFrom(p + r, |p|, doomed) == Visited(r, doomed)
    decreases |r|
  {
    if r == [] {
      assert p + r == p;
    } else if r[0] !in doomed {
      var t := r[1..];
      calc {
        VisitedFrom(p + r, |p|, doomed);
        { assert (p + r)[|p|] == r[0]; }
        ({r[0]}) + VisitedFrom(p + r, |p| + 1, doomed);
        { assert p + r == (p + [r[0]]) + t; SweepShiftVisited(p + [r[0]], t, doomed); }
        ({r[0]}) + Visited(t, doomed);
        { assert [r[0]] + t == r; SweepShiftVisited([r[0]], t, doomed); }
        ({r[0]}) + VisitedFrom(r, 1, doomed);
        Visited(r, doomed);
      }
    } else if |r| == 1 {
      calc {
        VisitedFrom(p + r, |p|, doomed);
        { assert (p + r)[|p|] == r[0]; assert (p + r)[..|p|] + (p + r)[|p| + 1..] == p; }
        ({r[0]}) + VisitedFrom(p, |p| + 1, doomed);
        ({r[0]});
        { assert r[..0] + r[1..] == []; assert VisitedFrom([], 1, doomed) == {}; }
        Visited(r, doomed);
      }
    } else {
      var t := r[2..];
      calc {
        VisitedFrom(p + r, |p|, doomed);
        { assert (p + r)[|p|] == r[0]; assert (p + r)[..|p|] + (p + r)[|p| + 1..] == (p + [r[1]]) + t; }
        ({r[0]}) + VisitedFrom((p + [r[1]]) + t, |p| + 1, doomed);
        { SweepShiftVisited(p + [r[1]], t, doomed); }
        ({r[0]}) + Visited(t, doomed);
        { SweepShiftVisited([r[1]], t, doomed); }
        ({r[0]}) + VisitedFrom([r[1]] + t, 1, doomed);
        { assert r[..0] + r[1..] == [r[1]] + t; }
        Visited(r, doomed);
      }
    }
  }

  /** One step of a pass: the head is looked at; if it is removed, the next element is skipped. */
  lemma {:induction false} SweepStep<T>(q: seq<T>, doomed: set<T>)
    ensures q == [] ==> Swept(q, doomed) == [] && Visited(q, doomed) == {}
    ensures q != [] && q[0] !in doomed ==>
      Swept(q, doomed) == [q[0]] + Swept(q[1..], doomed) &&
      Visited(q, doomed) == {q[0]} + Visited(q[1..], doomed)
    ensures |q| == 1 && q[0] in doomed ==>
      Swept(q, doomed) == [] && Visited(q, doomed) == {q[0]}
    ensures |q| >= 2 && q[0] in doomed ==>
      Swept(q, doomed) == [q[1]] + Swept(q[2..], doomed) &&
      Visited(q, doomed) == {q[0]} + Visited(q[2..], doomed)
  {
    if q != [] {
      if q[0] !in doomed {
        assert q == [q[0]] + q[1..];
        SweepShift([q[0]], q[1..], doomed);
      } else {
        assert q[..0] + q[1..] == q[1..];
        if |q| == 1 {
          assert q[1..] == [];
          assert SweepFrom(q[1..], 1, doomed) == [] && VisitedFrom(q[1..], 1, doomed) == {};
        }
        if |q| >= 2 {
          assert q[1..] == [q[1]] + q[2..];
          SweepShift([q[1]], q[2..], doomed);
        }
      }
    }
  }

  /** The loop body only ever runs on elements of the list. */
  lemma {:induction false} VisitedWithin<T>(q: seq<T>, doomed: set<T>)
    ensures forall x :: x in Visited(q, doomed) ==> x in q
    decreases |q|
  {
    SweepStep(q, doomed);
    if q != [] {
      if q[0] !in doomed {
        VisitedWithin(q[1..], doomed);
      } else if |q| >= 2 {
        VisitedWithin(q[2..], doomed);
      }
    }
  }

  lemma {:induction false} DistinctTail<T>(q: seq<T>, n: nat)
    requires n <= |q|
    ensures Distinct(q) ==> Distinct(q[n..])
    ensures Distinct(q) ==> forall k, x :: 0 <= k < n && x in q[n..] ==> x != q[k]
  {
    if Distinct(q) {
      forall a, b | 0 <= a < b < |q[n..]| ensures q[n..][a] != q[n..][b] {
        assert q[n..][a] == q[n + a] && q[n..][b] == q[n + b];
      }
    }
  }

  /** Which elements a pass visits: the first one, and every later one exactly when its
      predecessor was not both visited and removed. */
  lemma {:induction false} VisitPattern<T>(q: seq<T>, doomed: set<T>)
    requires Distinct(q)
    ensures |q| > 0 ==> q[0] in Visited(q, doomed)
    ensures forall k :: 0 <= k < |q| - 1 ==>
      (q[k + 1] in Visited(q, doomed) <==> !(q[k] in Visited(q, doomed) && q[k] in doomed))
    decreases |q|
  {
    SweepStep(q, doomed);
    var v := Visited(q, doomed);
    if q == [] {
    } else if q[0] !in doomed {
      var t := q[1..];
      DistinctTail(q, 1);
      VisitPattern(t, doomed);
      VisitedWithin(t, doomed);
      forall k | 0 <= k < |q| - 1
        ensures q[k + 1] in v <==> !(q[k] in v && q[k] in doomed)
      {
        assert q[k + 1] == t[k];
        assert q[k + 1] != q[0];
        if k > 0 {
          assert q[k] == t[k - 1];
          assert q[k] != q[0];
        }
      }
    } else if |q| >= 2 {
      var t := q[2..];
      DistinctTail(q, 2);
      VisitPattern(t, doomed);
      VisitedWithin(t, doomed);
      assert q[1] !in t;
      assert q[1] != q[0];
      forall k | 0 <= k < |q| - 1
        ensures q[k + 1] in v <==> !(q[k] in v && q[k] in doomed)
      {
        if k >= 1 {
          assert q[k + 1] == t[k - 1];
          assert q[k + 1] != q[0];
        }
        if k >= 2 {
          assert q[k] == t[k - 2];
          assert q[k] != q[0];
        }
      }
    }
  }

  /** Membership in `Without`. */
  lemma {:induction false} WithoutMembers<T>(q: seq<T>, r: set<T>)
    ensures forall x :: x in Without(q, r) <==> x in q && x !in r
    decreases |q|
  {
    if q != [] {
      WithoutMembers(q[1..], r);
      assert q == [q[0]] + q[1..];
    }
  }

  /** `Without` only looks at the elements of the list. */
  lemma {:induction false} WithoutCongruent<T>(q: seq<T>, r: set<T>, r': set<T>)
    requires forall x :: x in q ==> (x in r <==> x in r')
    ensures Without(q, r) == Without(q, r')
    decreases |q|
  {
    if q != [] {
      assert forall x :: x in q[1..] ==> x in q;
      WithoutCongruent(q[1..], r, r');
    }
  }

  /** A pass removes exactly the visited elements that the body removes, and keeps every other
      element in its original order. */
  lemma {:induction false} SweptKeepsOrder<T>(q: seq<T>, doomed: set<T>)
    requires Distinct(q)
    ensures Swept(q, doomed) == Without(q, Visited(q, doomed) * doomed)
    decreases |q|
  {
    SweepStep(q, doomed);
    var v := Visited(q, doomed);
    if q == [] {
    } else if q[0] !in doomed {
      var t := q[1..];
      DistinctTail(q, 1);
      SweptKeepsOrder(t, doomed);
      WithoutCongruent(t, v * doomed, Visited(t, doomed) * doomed);
      assert Without(q, v * doomed) == [q[0]] + Without(t, v * doomed);
    } else if |q| == 1 {
      assert Without(q, v * doomed) == [] + Without(q[1..], v * doomed);
    } else {
      var t := q[2..];
      DistinctTail(q, 2);
      VisitedWithin(t, doomed);
      SweptKeepsOrder(t, doomed);
      assert q[1] !in t && q[1] != q[0];
      assert q[1] !in v;
      WithoutCongruent(t, v * doomed, Visited(t, doomed) * doomed);
      assert q[1..] == [q[1]] + t;
      assert Without(q, v * doomed) == Without(q[1..], v * doomed);
      assert Without(q[1..], v * doomed) == [q[1]] + Without(t, v * doomed);
    }
  }

  /** The quirk of removing while iterating: the element right after a removed one is not looked
      at in that pass, and so it stays in the list whatever the body would have done with it. */
  lemma {:induction false} SkipAfterRemoval<T>(q: seq<T>, doomed: set<T>, k: nat)
    requires Distinct(q) && k + 1 < |q|
    requires q[k] in Visited(q, doomed) && q[k] in doomed
    ensures q[k + 1] !in Visited(q, doomed)
    ensures q[k + 1] in Swept(q, doomed)
    ensures q[k] !in Swept(q, doomed)
  {
    VisitPattern(q, doomed);
    SweptKeepsOrder(q, doomed);
    WithoutMembers(q, Visited(q, doomed) * doomed);
  }

  /** When the body removes nothing, a pass visits every element and leaves the list as it was. */
  lemma {:induction false} SweepNothingDoomed<T>(q: seq<T>, doomed: set<T>)
    requires forall x :: x in q ==> x !in doomed
    ensures Swept(q, doomed) == q
    ensures forall x :: x in q ==> x in Visited(q, doomed)
    decreases |q|
  {
    SweepStep(q, doomed);
    if q != [] {
      assert forall x :: x in q[1..] ==> x in q;
      SweepNothingDoomed(q[1..], doomed);
      assert q == [q[0]] + q[1..];
    }
  }

  /** An element the body does not remove survives the pass. */
  lemma {:induction false} SweepKeeps<T>(q: seq<T>, doomed: set<T>, x: T)
    requires Distinct(q) && x in q && x !in doomed
    ensures x in Swept(q, doomed)
  {
    SweptKeepsOrder(q, doomed);
    WithoutMembers(q, Visited(q, doomed) * doomed);
  }

  /** Dropping the element at `i` shifts the ones after it down by one and keeps the list
      free of repetitions. */
  lemma {:induction false} DropAt<T>(cur: seq<T>, i: nat)
    requires i < |cur|
    ensures var next := cur[..i] + cur[i + 1..];
      |next| == |cur| - 1 &&
      (forall k :: 0 <= k < i ==> next[k] == cur[k]) &&
      (forall k :: i <= k < |next| ==> next[k] == cur[k + 1]) &&
      (Distinct(cur) ==> Distinct(next))
  {
    var next := cur[..i] + cur[i + 1..];
    if Distinct(cur) {
      forall a, b | 0 <= a < b < |next| ensures next[a] != next[b] {
        var a' := if a < i then a else a + 1;
        var b' := if b < i then b else b + 1;
        assert next[a] == cur[a'] && next[b] == cur[b'];
      }
    }
  }

  /** The invariant of a loop that runs the pass over `q`: the iterator stands at `i` of the
      current list `cur`, which came from `q` by the removals so far, and `seen` holds what the
      body has already run on. */
  predicate Sweeping<T(==)>(q: seq<T>, cur: seq<T>, i: nat, doomed: set<T>, seen: set<T>) {
    Distinct(cur) &&
    SweepFrom(cur, i, doomed) == Swept(q, doomed) &&
    Visited(q, doomed) == seen + VisitedFrom(cur, i, doomed) &&
    (forall x :: x in cur ==> x in q) &&
    (forall x, k :: x in seen && i <= k < |cur| ==> cur[k] != x)
  }

  /** Before the first iteration. */
  lemma SweepStart<T>(q: seq<T>, doomed: set<T>)
    requires Distinct(q)
    ensures Sweeping(q, q, 0, doomed, {})
  {
  }

  /** After the last iteration, the list is the pass's result and the body ran on exactly the
      visited elements. */
  lemma SweepDone<T>(q: seq<T>, cur: seq<T>, i: nat, doomed: set<T>, seen: set<T>)
    requires Sweeping(q, cur, i, doomed, seen) && i >= |cur|
    ensures cur == Swept(q, doomed) && seen == Visited(q, doomed) && Distinct(cur)
    ensures forall x :: x in cur ==> x in q
  {
  }

  /** One iteration: the body runs on `cur[i]`, which it has not run on before, drops it when it
      is doomed, and the index advances. */
  lemma {:induction false} SweepAdvance<T>(q: seq<T>, cur: seq<T>, next: seq<T>, i: nat, doomed: set<T>, seen: set<T>)
    requires Sweeping(q, cur, i, doomed, seen) && i < |cur|
    requires next == if cur[i] in doomed then cur[..i] + cur[i + 1..] else cur
    ensures cur[i] !in seen && cur[i] in q
    ensures Sweeping(q, next, i + 1, doomed, seen + {cur[i]})
  {
    if cur[i] in doomed {
      DropAt(cur, i);
      forall x | x in next ensures x in q {
        var k :| 0 <= k < |next| && next[k] == x;
        if k < i { assert x == cur[k]; } else { assert x == cur[k + 1]; }
      }
      forall x, k | x in seen + {cur[i]} && i + 1 <= k < |next| ensures next[k] != x {
        assert next[k] == cur[k + 1];
      }
    } else {
      DistinctTail(cur, i + 1);
    }
  }
}
