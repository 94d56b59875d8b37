/** Finite runs of a transition system, and the two arguments every protocol here uses:
    an inductive invariant holds along a run, and a decreasing measure bounds its length. */
module Runs {

  ghost predicate IsRun<S(!new)>(init: S -> bool, next: (S, S) -> bool, r: seq<S>) {
    && |r| > 0
    && init(r[0])
    && forall i :: 0 <= i < |r| - 1 ==> next(r[i], r[i + 1])
  }

  function Last<S>(r: seq<S>): S
    requires |r| > 0
  {
    r[|r| - 1]
  }

  lemma PrefixIsRun<S(!new)>(init: S -> bool, next: (S, S) -> bool, r: seq<S>)
    requires IsRun(init, next, r) && |r| > 1
    ensures IsRun(init, next, r[..|r| - 1])
  {
    var p := r[..|r| - 1];
    forall i | 0 <= i < |p| - 1 ensures next(p[i], p[i + 1]) {
      assert next(r[i], r[i + 1]);
    }
  }

  lemma {:induction false} InvariantAlongRun<S(!new)>(
      init: S -> bool, next: (S, S) -> bool, inv: S -> bool, r: seq<S>)
    requires IsRun(init, next, r)
    requires forall s :: init(s) ==> inv(s)
    requires forall s, t :: inv(s) && next(s, t) ==> inv(t)
    ensures forall i :: 0 <= i < |r| ==> inv(r[i])
  {
    if |r| == 1 {
    } else {
      var p := r[..|r| - 1];
      PrefixIsRun(init, next, r);
      InvariantAlongRun(init, next, inv, p);
      assert inv(p[|p| - 1]) && next(r[|r| - 2], r[|r| - 1]);
      forall i | 0 <= i < |r| ensures inv(r[i]) {
        if i < |p| { assert r[i] == p[i]; }
      }
    }
  }

  /** The steps taken and what is left of the measure never exceed the measure at the start. */
  lemma {:induction false} MeasureBoundsRun<S(!new)>(
      init: S -> bool, next: (S, S) -> bool, inv: S -> bool, m: S -> nat, r: seq<S>)
    requires IsRun(init, next, r)
    requires forall i :: 0 <= i < |r| ==> inv(r[i])
    requires forall s, t :: inv(s) && next(s, t) ==> m(t) < m(s)
    ensures |r| - 1 + m(Last(r)) <= m(r[0])
  {
    if |r| == 1 {
    } else {
      var p := r[..|r| - 1];
      PrefixIsRun(init, next, r);
      MeasureBoundsRun(init, next, inv, m, p);
      assert next(r[|r| - 2], r[|r| - 1]);
    }
  }

  ghost predicate Reachable<S(!new)>(init: S -> bool, next: (S, S) -> bool, s: S) {
    exists r :: IsRun(init, next, r) && Last(r) == s
  }

  lemma ReachStart<S(!new)>(init: S -> bool, next: (S, S) -> bool, s: S)
    requires init(s)
    ensures Reachable(init, next, s)
  {
    assert IsRun(init, next, [s]) && Last([s]) == s;
  }

  lemma ReachStep<S(!new)>(init: S -> bool, next: (S, S) -> bool, s: S, t: S)
    requires Reachable(init, next, s) && next(s, t)
    ensures Reachable(init, next, t)
  {
    var r :| IsRun(init, next, r) && Last(r) == s;
    var q := r + [t];
    forall i | 0 <= i < |q| - 1 ensures next(q[i], q[i + 1]) {
      if i < |r| - 1 { assert next(r[i], r[i + 1]); }
    }
    assert IsRun(init, next, q) && Last(q) == t;
  }

  lemma InvariantWhereReached<S(!new)>(init: S -> bool, next: (S, S) -> bool, inv: S -> bool, s: S)
    requires Reachable(init, next, s)
    requires forall s :: init(s) ==> inv(s)
    requires forall s, t :: inv(s) && next(s, t) ==> inv(t)
    ensures inv(s)
  {
    var r :| IsRun(init, next, r) && Last(r) == s;
    InvariantAlongRun(init, next, inv, r);
  }

  // ----- the same function of every thread

  function Mapped<T, U>(f: T -> U, ts: seq<T>): (us: seq<U>)
    ensures |us| == |ts| && forall i :: 0 <= i < |ts| ==> us[i] == f(ts[i])
  {
    seq(|ts|, i requires 0 <= i < |ts| => f(ts[i]))
  }

  // ----- adding up a weight over all threads

  function Total<T>(weight: T -> nat, ts: seq<T>): nat {
    if ts == [] then 0 else weight(ts[0]) + Total(weight, ts[1..])
  }

  /** Only thread i's weight changes. */
  lemma {:induction false} TotalChange<T>(weight: T -> nat, ts: seq<T>, us: seq<T>, i: nat)
    requires i < |ts| == |us|
    requires forall j :: 0 <= j < |ts| && j != i ==> weight(us[j]) == weight(ts[j])
    ensures Total(weight, us) + weight(ts[i]) == Total(weight, ts) + weight(us[i])
  {
    if i == 0 {
      TotalSame(weight, ts[1..], us[1..]);
    } else {
      assert ts[1..][i - 1] == ts[i] && us[1..][i - 1] == us[i];
      TotalChange(weight, ts[1..], us[1..], i - 1);
    }
  }

  lemma {:induction false} TotalSame<T>(weight: T -> nat, ts: seq<T>, us: seq<T>)
    requires |ts| == |us|
    requires forall j :: 0 <= j < |ts| ==> weight(us[j]) == weight(ts[j])
    ensures Total(weight, us) == Total(weight, ts)
  {
    if ts == [] {
    } else {
      TotalSame(weight, ts[1..], us[1..]);
    }
  }

  lemma {:induction false} TotalAtLeast<T>(weight: T -> nat, ts: seq<T>, i: nat)
    requires i < |ts|
    ensures weight(ts[i]) <= Total(weight, ts)
  {
    if i == 0 {
    } else {
      TotalAtLeast(weight, ts[1..], i - 1);
    }
  }

  lemma {:induction false} TotalAtLeastTwo<T>(weight: T -> nat, ts: seq<T>, i: nat, j: nat)
    requires i < j < |ts|
    ensures weight(ts[i]) + weight(ts[j]) <= Total(weight, ts)
  {
    if i == 0 {
      TotalAtLeast(weight, ts[1..], j - 1);
    } else {
      TotalAtLeastTwo(weight, ts[1..], i - 1, j - 1);
    }
  }

  /** A positive total has a positive contributor. */
  lemma {:induction false} TotalPositive<T>(weight: T -> nat, ts: seq<T>)
    requires Total(weight, ts) > 0
    ensures exists i :: 0 <= i < |ts| && weight(ts[i]) > 0
  {
    if weight(ts[0]) > 0 {
    } else {
      TotalPositive(weight, ts[1..]);
      var i :| 0 <= i < |ts[1..]| && weight(ts[1..][i]) > 0;
      assert weight(ts[i + 1]) > 0;
    }
  }

  lemma {:induction false} TotalOfEqual<T>(weight: T -> nat, ts: seq<T>, w: nat)
    requires forall i :: 0 <= i < |ts| ==> weight(ts[i]) == w
    ensures Total(weight, ts) == w * |ts|
  {
    if ts == [] {
    } else {
      TotalOfEqual(weight, ts[1..], w);
      assert w * |ts| == w + w * |ts[1..]| by { assert |ts| == 1 + |ts[1..]|; }
    }
  }
}
