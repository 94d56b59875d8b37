/** The dining philosophers with one mutex per fork, picked up under an outer lock. The same promise
    as the monitor version, by a different protocol. */
module ForkPhilosophers {
  import opened Wrappers
  import opened Runs
  import opened Dining

  datatype Pc =
    | WantFood    // before lock(foodLock)
    | InFood      // holds foodLock
    | TookFood    // holds foodLock, dish in hand
    | WantOuter   // before lock(lForks)
    | HasOuter    // holds lForks, before lock of the left fork
    | HasLeft     // holds lForks and the left fork, before lock of the right fork
    | HasBoth     // holds lForks and both forks
    | AtTable     // eating with both forks
    | LeftDown    // left fork unlocked, before unlock of the right fork
    | Gone

  datatype Philosopher = Philosopher(pc: Pc, dish: nat)

  datatype Config = Config(n: nat, food: nat)

  datatype State = State(
    food: nat, foodLock: Option<nat>, outer: Option<nat>,
    forks: seq<Option<nat>>, phils: seq<Philosopher>, finished: multiset<nat>)

  // left_fork is (id+1) mod n, right_fork is id mod n.
  function LeftFork(n: nat, i: nat): (f: nat)
    requires i < n
    ensures f < n
  {
    Right(n, i)
  }

  function Start(c: Config): State {
    State(c.food, None, None, seq(c.n, _ => None), seq(c.n, _ => Philosopher(WantFood, 0)), multiset{})
  }

  ghost predicate Shaped(c: Config, s: State) {
    |s.forks| == c.n && |s.phils| == c.n
  }

  // ----- the step relation

  predicate Enabled(s: State, i: nat)
    requires i < |s.phils| == |s.forks|
  {
    match s.phils[i].pc
    case WantFood => s.foodLock == None
    case WantOuter => s.outer == None
    case HasOuter => s.forks[LeftFork(|s.phils|, i)] == None
    case HasLeft => s.forks[i] == None
    case Gone => false
    case _ => true
  }

  function NewPhil(s: State, i: nat): Philosopher
    requires i < |s.phils|
  {
    var p := s.phils[i];
    match p.pc
    case WantFood => p.(pc := InFood)
    case InFood => Philosopher(TookFood, TakeDish(s.food))
    case TookFood => p.(pc := if p.dish == 0 then Gone else WantOuter)
    case WantOuter => p.(pc := HasOuter)
    case HasOuter => p.(pc := HasLeft)
    case HasLeft => p.(pc := HasBoth)
    case HasBoth => p.(pc := AtTable)
    case AtTable => p.(pc := LeftDown)
    case LeftDown => p.(pc := WantFood)
    case Gone => p
  }

  function NewForks(s: State, i: nat): (fs: seq<Option<nat>>)
    requires i < |s.phils| == |s.forks|
    ensures |fs| == |s.forks|
  {
    var l := LeftFork(|s.phils|, i);
    match s.phils[i].pc
    case HasOuter => s.forks[l := Some(i)]
    case HasLeft => s.forks[i := Some(i)]
    case AtTable => s.forks[l := None]
    case LeftDown => s.forks[i := None]
    case _ => s.forks
  }

  function NewOuter(s: State, i: nat): Option<nat>
    requires i < |s.phils|
  {
    match s.phils[i].pc
    case WantOuter => Some(i)
    case HasBoth => None
    case _ => s.outer
  }

  function NewFoodLock(s: State, i: nat): Option<nat>
    requires i < |s.phils|
  {
    match s.phils[i].pc
    case WantFood => Some(i)
    case TookFood => None
    case _ => s.foodLock
  }

  function Do(s: State, i: nat): State
    requires i < |s.phils| == |s.forks|
  {
    State(if s.phils[i].pc == InFood then TakeDish(s.food) else s.food,
          NewFoodLock(s, i), NewOuter(s, i), NewForks(s, i), s.phils[i := NewPhil(s, i)],
          if s.phils[i].pc == LeftDown then s.finished + multiset{s.phils[i].dish} else s.finished)
  }

  ghost predicate Next(c: Config, s: State, t: State) {
    Shaped(c, s) && exists i: nat :: i < c.n && Enabled(s, i) && t == Do(s, i)
  }

  ghost predicate Run(c: Config, r: seq<State>) {
    IsRun(s => s == Start(c), (s, t) => Next(c, s, t), r)
  }

  ghost predicate Reached(c: Config, s: State) {
    Reachable(s => s == Start(c), (s, t) => Next(c, s, t), s)
  }

  // ----- the invariant

  function CourseOf(p: Philosopher): Course {
    match p.pc
    case WantFood => NoDish
    case InFood => Counting
    case TookFood => Dealt(p.dish)
    case Gone => LeftTable
    case _ => Dish(p.dish)
  }

  function KitchenOf(s: State): Kitchen {
    Kitchen(s.food, s.foodLock, Mapped(CourseOf, s.phils), s.finished)
  }

  predicate UnderOuter(pc: Pc) { pc.HasOuter? || pc.HasLeft? || pc.HasBoth? }

  predicate Holds(n: nat, pc: Pc, i: nat, f: nat)
    requires i < n
  {
    match pc
    case HasLeft => f == LeftFork(n, i)
    case HasBoth | AtTable => f == LeftFork(n, i) || f == i
    case LeftDown => f == i
    case _ => false
  }

  ghost predicate ForkInv(c: Config, s: State) {
    && Shaped(c, s)
    && (forall i: nat, f: nat :: i < c.n && f < c.n ==> (s.forks[f] == Some(i) <==> Holds(c.n, s.phils[i].pc, i, f)))
    && (forall f: nat :: f < c.n && s.forks[f].Some? ==> s.forks[f].value < c.n)
    && (forall i: nat :: i < c.n ==> (UnderOuter(s.phils[i].pc) <==> s.outer == Some(i)))
    && (s.outer.Some? ==> s.outer.value < c.n)
    // with a single seat the right fork is never obtained
    && (forall i: nat :: i < c.n && c.n == 1 ==>
          !(s.phils[i].pc.HasBoth? || s.phils[i].pc.AtTable? || s.phils[i].pc.LeftDown?))
  }

  ghost predicate Good(c: Config, s: State) {
    ForkInv(c, s) && KitchenInv(c.food, KitchenOf(s))
  }

  lemma StartIsGood(c: Config)
    ensures Good(c, Start(c))
  {
  }

  lemma StepKeepsForks(c: Config, s: State, i: nat)
    requires ForkInv(c, s) && i < c.n && Enabled(s, i)
    ensures ForkInv(c, Do(s, i))
  {
  }

  lemma StepKeepsKitchen(c: Config, s: State, i: nat)
    requires Shaped(c, s) && KitchenInv(c.food, KitchenOf(s)) && i < c.n && Enabled(s, i)
    ensures KitchenInv(c.food, KitchenOf(Do(s, i)))
  {
    hide KitchenInv;
    var t := Do(s, i);
    assert Mapped(CourseOf, t.phils) == Mapped(CourseOf, s.phils)[i := CourseOf(t.phils[i])];
    if CourseOf(t.phils[i]) == CourseOf(s.phils[i]) {
      assert Mapped(CourseOf, t.phils) == Mapped(CourseOf, s.phils);
    } else {
      KitchenStepKeepsInv(c.food, KitchenOf(s), i, KitchenOf(t));
    }
  }

  lemma NextKeepsGood(c: Config, s: State, t: State)
    requires Good(c, s) && Next(c, s, t)
    ensures Good(c, t)
  {
    var i: nat :| i < c.n && Enabled(s, i) && t == Do(s, i);
    StepKeepsForks(c, s, i);
    StepKeepsKitchen(c, s, i);
  }

  lemma ReachedIsGood(c: Config, s: State)
    requires Reached(c, s)
    ensures Good(c, s)
  {
    StartIsGood(c);
    forall s, t | Good(c, s) && Next(c, s, t) ensures Good(c, t) {
      NextKeepsGood(c, s, t);
    }
    InvariantWhereReached(s => s == Start(c), (s, t) => Next(c, s, t), s => Good(c, s), s);
  }

  /** In every reachable state: at most one philosopher is between its two forks on the way in, every
      fork is owned by the one philosopher whose position says so, and neighbours never eat together. */
  lemma ForkProtocol(c: Config, s: State)
    requires Reached(c, s)
    ensures Shaped(c, s)
    ensures forall i: nat, j: nat :: i < c.n && j < c.n && i != j ==>
              !(s.phils[i].pc == HasLeft && s.phils[j].pc == HasLeft)
    ensures forall f: nat, i: nat, j: nat ::
              f < c.n && i < c.n && j < c.n && Holds(c.n, s.phils[i].pc, i, f) && Holds(c.n, s.phils[j].pc, j, f) ==>
                i == j
    ensures forall i: nat :: i < c.n && Right(c.n, i) != i ==>
              !(s.phils[i].pc == AtTable && s.phils[Right(c.n, i)].pc == AtTable)
  {
    ReachedIsGood(c, s);
    forall f: nat, i: nat, j: nat |
      f < c.n && i < c.n && j < c.n && Holds(c.n, s.phils[i].pc, i, f) && Holds(c.n, s.phils[j].pc, j, f)
      ensures i == j {
      assert s.forks[f] == Some(i) && s.forks[f] == Some(j);
    }
    forall i: nat | i < c.n && Right(c.n, i) != i
      ensures !(s.phils[i].pc == AtTable && s.phils[Right(c.n, i)].pc == AtTable) {
      if s.phils[i].pc == AtTable {
        assert Holds(c.n, AtTable, i, Right(c.n, i));
        assert !Holds(c.n, s.phils[Right(c.n, i)].pc, Right(c.n, i), Right(c.n, i));
      }
    }
  }

  // ----- termination

  function Rank(p: Philosopher): nat {
    match p.pc
    case Gone => 0
    case TookFood => if p.dish == 0 then 1 else 10
    case InFood => 2
    case WantFood => 3
    case LeftDown => 4
    case AtTable => 5
    case HasBoth => 6
    case HasLeft => 7
    case HasOuter => 8
    case WantOuter => 9
  }

  function Measure(s: State): nat {
    9 * s.food + Total(Rank, s.phils)
  }

  lemma StepDecreases(c: Config, s: State, i: nat)
    requires Shaped(c, s) && i < c.n && Enabled(s, i)
    ensures Measure(Do(s, i)) < Measure(s)
  {
    TotalChange(Rank, s.phils, Do(s, i).phils, i);
  }

  // ----- progress

  ghost predicate Stuck(c: Config, s: State) {
    Shaped(c, s) && forall i: nat :: i < c.n ==> !Enabled(s, i)
  }

  ghost predicate AllGone(c: Config, s: State) {
    Shaped(c, s) && forall i: nat :: i < c.n ==> s.phils[i].pc == Gone
  }

  /** A fork somebody waits for is held by a philosopher past the outer lock, who only releases. */
  lemma ForkOwnerCanStep(c: Config, s: State, f: nat)
    requires ForkInv(c, s) && c.n >= 2 && f < c.n && s.forks[f].Some?
    requires s.outer.Some? ==> s.outer != s.forks[f]
    ensures Enabled(s, s.forks[f].value)
  {
    var j := s.forks[f].value;
    assert Holds(c.n, s.phils[j].pc, j, f);
    assert !UnderOuter(s.phils[j].pc);
  }

  lemma SomeoneCanStep(c: Config, s: State)
    requires Good(c, s) && c.n >= 2
    requires !AllGone(c, s)
    ensures exists i: nat :: i < c.n && Enabled(s, i)
  {
    if s.foodLock.Some? {
      assert Mapped(CourseOf, s.phils)[s.foodLock.value] == CourseOf(s.phils[s.foodLock.value]);
      assert Enabled(s, s.foodLock.value);
    } else if s.outer.Some? {
      var i := s.outer.value;
      assert UnderOuter(s.phils[i].pc);
      if !Enabled(s, i) {
        var f := if s.phils[i].pc == HasOuter then LeftFork(c.n, i) else i;
        assert !Holds(c.n, s.phils[i].pc, i, f);
        ForkOwnerCanStep(c, s, f);
      }
    } else {
      var i: nat :| i < c.n && s.phils[i].pc != Gone;
      assert !UnderOuter(s.phils[i].pc);
      assert Enabled(s, i);
    }
  }

  // ----- the theorems

  /** Every run has a bounded length; one that cannot go on has served everything, and with at least two
      philosophers everybody has left. */
  lemma TotalCorrectness(c: Config, r: seq<State>)
    requires c.n >= 2 && Run(c, r)
    ensures |r| - 1 <= 9 * c.food + 3 * c.n
    ensures Stuck(c, Last(r)) ==> AllGone(c, Last(r)) && AllServed(c.food, Last(r).finished)
  {
    var s := Last(r);
    StartIsGood(c);
    forall s, t | Good(c, s) && Next(c, s, t) ensures Good(c, t) && Measure(t) < Measure(s) {
      NextKeepsGood(c, s, t);
      var i: nat :| i < c.n && Enabled(s, i) && t == Do(s, i);
      StepDecreases(c, s, i);
    }
    InvariantAlongRun(s => s == Start(c), (s, t) => Next(c, s, t), s => Good(c, s), r);
    MeasureBoundsRun(s => s == Start(c), (s, t) => Next(c, s, t), s => Good(c, s), Measure, r);
    TotalOfEqual(Rank, Start(c).phils, 3);
    if Stuck(c, s) {
      assert Good(c, s);
      if !AllGone(c, s) { SomeoneCanStep(c, s); }
      EverybodyLeft(c.food, KitchenOf(s));
    }
  }

  lemma ReachedStep(c: Config, s: State, i: nat)
    requires Reached(c, s) && Shaped(c, s) && i < c.n && Enabled(s, i)
    ensures Reached(c, Do(s, i))
  {
    assert Next(c, s, Do(s, i));
    ReachStep(s => s == Start(c), (s, t) => Next(c, s, t), s, Do(s, i));
  }

  /** With one seat both forks are the same mutex, and the philosopher waits for itself. */
  lemma AloneWaitsForItself(c: Config) returns (s: State)
    requires c.n == 1 && c.food >= 2
    ensures Reached(c, s) && Stuck(c, s) && !AllGone(c, s)
  {
    s := Start(c);
    ReachStart(s => s == Start(c), (s, t) => Next(c, s, t), s);
    ReachedStep(c, s, 0); s := Do(s, 0); assert s.phils[0].pc == InFood;
    ReachedStep(c, s, 0); s := Do(s, 0); assert s.phils[0].pc == TookFood;
    ReachedStep(c, s, 0); s := Do(s, 0); assert s.phils[0].pc == WantOuter;
    ReachedStep(c, s, 0); s := Do(s, 0); assert s.phils[0].pc == HasOuter;
    ReachedStep(c, s, 0); s := Do(s, 0); assert s.phils[0].pc == HasLeft;
  }

  /** No reachable state with unfinished philosophers is stuck, exactly when there is not a single
      philosopher with a dish to eat. */
  lemma DeadlockFreeIff(c: Config)
    ensures (forall s :: Reached(c, s) && Stuck(c, s) ==> AllGone(c, s)) <==> (c.n != 1 || c.food <= 1)
  {
    if c.n == 1 && c.food >= 2 {
      var s := AloneWaitsForItself(c);
    } else {
      forall s | Reached(c, s) && Stuck(c, s) ensures AllGone(c, s) {
        ReachedIsGood(c, s);
        if c.n >= 2 {
          if !AllGone(c, s) { SomeoneCanStep(c, s); }
        } else if c.n == 1 {
          var cs := Mapped(CourseOf, s.phils);
          assert Mapped(Carried, cs)[0] == Carried(cs[0]);
          assert Enabled(s, 0) || s.phils[0].pc == Gone;
        }
      }
    }
  }
}
