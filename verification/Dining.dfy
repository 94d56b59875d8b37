/** What both dining-philosophers programs promise: who sits next to whom, how dishes are handed
    out, and what it means that all food was served. */
module Dining {
  import opened Wrappers
  import opened Runs

  // Neighbours on a round table of n seats.
  function Left(n: nat, i: nat): (j: nat)
    requires i < n
    ensures j < n
  {
    if i == 0 then n - 1 else i - 1
  }

  function Right(n: nat, i: nat): (j: nat)
    requires i < n
    ensures j < n
  {
    if i + 1 == n then 0 else i + 1
  }

  lemma LeftIsModular(n: nat, i: nat)
    requires i < n
    ensures Left(n, i) == (i + n - 1) % n
    ensures Left(n, Right(n, i)) == i
  {
    ModOnce(if i == 0 then n - 1 else i - 1, n);
  }

  lemma RightIsModular(n: nat, i: nat)
    requires i < n
    ensures Right(n, i) == (i + 1) % n
    ensures Right(n, Left(n, i)) == i
  {
    ModOnce(if i + 1 == n then 0 else i + 1, n);
  }

  lemma ModOnce(a: nat, n: nat)
    requires a < n
    ensures (a + n) % n == a && a % n == a
  {
  }

  // The shared counter: one call takes a dish off it, and the new value is the dish number handed out
  // (0 tells the philosopher to leave).
  function TakeDish(food: nat): nat {
    if food > 0 then food - 1 else food
  }

  /** food_on_table and its static counter. */
  class FoodCounter {
    var food: nat

    constructor (total: nat)
      ensures food == total
    {
      food := total;
    }

    method FoodOnTable() returns (dish: nat)
      modifies this
      ensures dish == food == TakeDish(old(food))
    {
      if food > 0 { food := food - 1; }
      dish := food;
    }
  }

  /** carried[i] is the dish philosopher i has taken and not yet finished (0: none). */
  ghost predicate Accounted(total: nat, food: nat, carried: seq<nat>, finished: multiset<nat>) {
    && food <= total
    && (forall i :: 0 <= i < |carried| && carried[i] != 0 ==> food <= carried[i] < total)
    && (forall i, j :: 0 <= i < j < |carried| && carried[i] == carried[j] ==> carried[i] == 0)
    && (forall d: nat :: finished[d] ==
          if 1 <= d < total && food <= d && d !in carried then 1 else 0)
  }

  /** Every dish from total-1 down to 1 was finished exactly once, and nothing else was. */
  ghost predicate AllServed(total: nat, finished: multiset<nat>) {
    forall d: nat :: finished[d] == if 1 <= d < total then 1 else 0
  }

  lemma TakeKeepsAccount(total: nat, food: nat, carried: seq<nat>, finished: multiset<nat>, i: nat)
    requires Accounted(total, food, carried, finished)
    requires i < |carried| && carried[i] == 0
    ensures Accounted(total, TakeDish(food), carried[i := TakeDish(food)], finished)
  {
    var c := carried[i := TakeDish(food)];
    forall d: nat ensures finished[d] ==
        if 1 <= d < total && TakeDish(food) <= d && d !in c then 1 else 0 {
      if d != 0 && d != TakeDish(food) {
        assert d in c ==> d in carried;
        if d in carried {
          var j :| 0 <= j < |carried| && carried[j] == d;
          assert c[j] == d;
        }
      } else if d != 0 {
        assert c[i] == d;
        assert food > 0 ==> finished[d] == 0;
      }
    }
  }

  lemma FinishKeepsAccount(total: nat, food: nat, carried: seq<nat>, finished: multiset<nat>, i: nat)
    requires Accounted(total, food, carried, finished)
    requires i < |carried| && carried[i] != 0
    ensures Accounted(total, food, carried[i := 0], finished + multiset{carried[i]})
  {
    var c, f := carried[i := 0], finished + multiset{carried[i]};
    forall d: nat ensures f[d] == if 1 <= d < total && food <= d && d !in c then 1 else 0 {
      if d == carried[i] {
        assert d !in c;
        assert d in carried;
      } else if d != 0 {
        assert d in c ==> d in carried;
        if d in carried {
          var j :| 0 <= j < |carried| && carried[j] == d;
          assert c[j] == d;
        }
      }
    }
  }

  // ----- the counter and its lock, as every philosopher uses them between two meals

  datatype Course =
    | NoDish               // outside food_on_table, nothing taken
    | Counting             // holds the counter's lock
    | Dealt(dish: nat)     // holds the lock, dish number read
    | Dish(dish: nat)      // left food_on_table with a dish to eat
    | LeftTable            // was told 0

  datatype Kitchen = Kitchen(food: nat, lock: Option<nat>, courses: seq<Course>, finished: multiset<nat>)

  ghost predicate KitchenStep(k: Kitchen, i: nat, l: Kitchen)
    requires i < |k.courses|
  {
    match k.courses[i]
    case NoDish => k.lock == None && l == k.(lock := Some(i), courses := k.courses[i := Counting])
    case Counting => l == k.(food := TakeDish(k.food), courses := k.courses[i := Dealt(TakeDish(k.food))])
    case Dealt(d) => l == k.(lock := None, courses := k.courses[i := if d == 0 then LeftTable else Dish(d)])
    case Dish(d) => l == k.(finished := k.finished + multiset{d}, courses := k.courses[i := NoDish])
    case LeftTable => false
  }

  function Carried(c: Course): nat {
    match c
    case Dealt(d) => d
    case Dish(d) => d
    case _ => 0
  }

  ghost predicate KitchenInv(total: nat, k: Kitchen) {
    && Accounted(total, k.food, Mapped(Carried, k.courses), k.finished)
    && (k.lock.Some? ==> k.lock.value < |k.courses|)
    && (forall i: nat :: i < |k.courses| ==>
          (k.courses[i].Counting? || k.courses[i].Dealt? <==> k.lock == Some(i)))
    && (forall i: nat :: i < |k.courses| && k.courses[i].Dish? ==> k.courses[i].dish > 0)
    && (forall i: nat :: i < |k.courses| && (k.courses[i].LeftTable? || k.courses[i] == Dealt(0)) ==> k.food == 0)
  }

  lemma KitchenStepKeepsInv(total: nat, k: Kitchen, i: nat, l: Kitchen)
    requires KitchenInv(total, k) && i < |k.courses| && KitchenStep(k, i, l)
    ensures KitchenInv(total, l)
  {
    var ds := Mapped(Carried, k.courses);
    if k.courses[i].Counting? {
      TakeKeepsAccount(total, k.food, ds, k.finished, i);
      assert Mapped(Carried, l.courses) == ds[i := TakeDish(k.food)];
    } else if k.courses[i].Dish? {
      FinishKeepsAccount(total, k.food, ds, k.finished, i);
      assert Mapped(Carried, l.courses) == ds[i := 0];
    } else {
      assert Mapped(Carried, l.courses) == ds;
    }
  }

  /** When everybody has left, every dish was eaten exactly once. */
  lemma EverybodyLeft(total: nat, k: Kitchen)
    requires KitchenInv(total, k) && |k.courses| > 0
    requires forall i: nat :: i < |k.courses| ==> k.courses[i] == LeftTable
    ensures AllServed(total, k.finished)
  {
    assert k.courses[0] == LeftTable;
  }
}
