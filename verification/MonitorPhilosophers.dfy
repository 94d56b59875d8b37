/** The dining philosophers with one monitor: appetites in one array, a condition variable per
    philosopher, and forks handed to hungry neighbours by the philosopher who puts them down.

    Each philosopher is a program counter; a step runs one statement (or one block that only
    touches data its lock protects). */
module MonitorPhilosophers {
  import opened Wrappers
  import opened Runs
  import opened Dining

  datatype Appetite = Thinking | Hungry | Eating

  datatype Pc =
    | WantFood       // before lock(foodlock)
    | InFood         // holds foodlock, before the counter is touched
    | TookFood       // holds foodlock, dish in hand
    | WantForks      // before lock(mutex) in get_forks
    | Entered        // holds mutex
    | SaidHungry     // holds mutex, marked hungry, before test
    | Tested         // holds mutex, before the check of its own appetite
    | Waiting        // inside cond_wait
    | Woken          // cond_wait returned, holds mutex again
    | AtTable        // get_forks returned: eating
    | Leaving        // holds mutex in down_forks
    | Cleared        // holds mutex, marked thinking, before test(LEFT)
    | LeftTested     // holds mutex, before test(RIGHT)
    | RightTested    // holds mutex, before unlock
    | Gone           // left the loop

  datatype Philosopher = Philosopher(pc: Pc, dish: nat, signalled: bool)

  // spurious says whether cond_wait may also return without a signal.
  datatype Config = Config(n: nat, food: nat, spurious: bool)

  datatype State = State(
    food: nat, foodLock: Option<nat>, mutex: Option<nat>,
    appetite: seq<Appetite>, phils: seq<Philosopher>, finished: multiset<nat>)

  // ----- the procedures that run inside the monitor

  predicate CanEat(a: seq<Appetite>, i: nat)
    requires i < |a|
  {
    a[i] == Hungry && a[Left(|a|, i)] != Eating && a[Right(|a|, i)] != Eating
  }

  function Test(a: seq<Appetite>, i: nat): (b: seq<Appetite>)
    requires i < |a|
    ensures |b| == |a|
  {
    if CanEat(a, i) then a[i := Eating] else a
  }

  /** The monitor's array, updated in place the way the program does it. A signal is reported to the
      caller, who owns the wait queues. */
  class Monitor {
    var appetite: array<Appetite>

    constructor (n: nat)
      ensures fresh(appetite) && appetite[..] == seq(n, _ => Thinking)
    {
      appetite := new Appetite[n](_ => Thinking);
      new;
      assert appetite[..] == seq(n, _ => Thinking);
    }

    method TestSeat(i: nat) returns (signal: bool)
      requires i < appetite.Length
      modifies appetite
      ensures appetite[..] == Test(old(appetite[..]), i)
      ensures signal == CanEat(old(appetite[..]), i)
    {
      var n := appetite.Length;
      signal := false;
      if appetite[i] == Hungry && appetite[Left(n, i)] != Eating && appetite[Right(n, i)] != Eating {
        appetite[i] := Eating;
        signal := true;
      }
    }

    /** The part of get_forks up to the wait: the caller waits exactly when a neighbour is eating. */
    method AskForks(i: nat) returns (wait: bool)
      requires i < appetite.Length
      modifies appetite
      ensures appetite[..] == Test(old(appetite[..])[i := Hungry], i)
      ensures var n := appetite.Length;
              n > 1 ==> (wait <==> Eating in {old(appetite[Left(n, i)]), old(appetite[Right(n, i)])})
      ensures appetite.Length == 1 ==> !wait
    {
      appetite[i] := Hungry;
      assert appetite[..] == old(appetite[..])[i := Hungry];
      var _ := TestSeat(i);
      assert appetite[..][i] == appetite[i];
      wait := appetite[i] != Eating;
    }

    /** down_forks: at most the two neighbours change, and each only from hungry to eating. */
    method DownForks(i: nat) returns (left: bool, right: bool)
      requires i < appetite.Length
      modifies appetite
      ensures var n := appetite.Length;
              var a1 := Test(old(appetite[..])[i := Thinking], Left(n, i));
              && appetite[..] == Test(a1, Right(n, i))
              && left == CanEat(old(appetite[..])[i := Thinking], Left(n, i))
              && right == CanEat(a1, Right(n, i))
    {
      appetite[i] := Thinking;
      assert appetite[..] == old(appetite[..])[i := Thinking];
      left := TestSeat(Left(appetite.Length, i));
      right := TestSeat(Right(appetite.Length, i));
    }
  }

  // ----- the step relation

  function Start(c: Config): State {
    State(c.food, None, None, seq(c.n, _ => Thinking), seq(c.n, _ => Philosopher(WantFood, 0, false)), multiset{})
  }

  ghost predicate Shaped(c: Config, s: State) {
    |s.appetite| == c.n && |s.phils| == c.n
  }

  predicate Enabled(c: Config, s: State, i: nat)
    requires i < |s.phils|
  {
    match s.phils[i].pc
    case WantFood => s.foodLock == None
    case WantForks => s.mutex == None
    case Waiting => (s.phils[i].signalled || c.spurious) && s.mutex == None
    case AtTable => s.mutex == None
    case Gone => false
    case _ => true
  }

  // cond_signal(cv[j]): only philosopher j ever waits on cv[j]; with no waiter the signal is lost.
  function Signal(ps: seq<Philosopher>, j: nat): seq<Philosopher>
    requires j < |ps|
  {
    if ps[j].pc == Waiting then ps[j := ps[j].(signalled := true)] else ps
  }

  // The seat this step calls test on, if any.
  function TestedSeat(s: State, i: nat): (j: Option<nat>)
    requires i < |s.phils|
    ensures j.Some? ==> j.value < |s.phils|
  {
    match s.phils[i].pc
    case SaidHungry => Some(i)
    case Cleared => Some(Left(|s.phils|, i))
    case LeftTested => Some(Right(|s.phils|, i))
    case _ => None
  }

  function NewPc(s: State, i: nat): Pc
    requires i < |s.phils| == |s.appetite|
  {
    match s.phils[i].pc
    case WantFood => InFood
    case InFood => TookFood
    case TookFood => if s.phils[i].dish == 0 then Gone else WantForks
    case WantForks => Entered
    case Entered => SaidHungry
    case SaidHungry => Tested
    case Tested => if s.appetite[i] != Eating then Waiting else AtTable
    case Waiting => Woken
    case Woken => AtTable
    case AtTable => Leaving
    case Leaving => Cleared
    case Cleared => LeftTested
    case LeftTested => RightTested
    case RightTested => WantFood
    case Gone => Gone
  }

  function NewPhils(s: State, i: nat): (ps: seq<Philosopher>)
    requires i < |s.phils| == |s.appetite|
    ensures |ps| == |s.phils|
  {
    var p := s.phils[i];
    var q := Philosopher(NewPc(s, i),
                         if p.pc == InFood then TakeDish(s.food) else p.dish,
                         if p.pc == Tested then false else p.signalled);
    var ps := s.phils[i := q];
    var j := TestedSeat(s, i);
    if j.Some? && CanEat(s.appetite, j.value) then Signal(ps, j.value) else ps
  }

  function NewAppetite(s: State, i: nat): (a: seq<Appetite>)
    requires i < |s.phils| == |s.appetite|
    ensures |a| == |s.appetite|
  {
    var j := TestedSeat(s, i);
    if j.Some? then Test(s.appetite, j.value)
    else if s.phils[i].pc == Entered then s.appetite[i := Hungry]
    else if s.phils[i].pc == Leaving then s.appetite[i := Thinking]
    else s.appetite
  }

  function NewMutex(s: State, i: nat): Option<nat>
    requires i < |s.phils|
  {
    match s.phils[i].pc
    case WantForks | Waiting | AtTable => Some(i)    // lock, or cond_wait returning
    case Tested | Woken | RightTested => None        // unlock, or cond_wait starting
    case _ => s.mutex
  }

  function NewFoodLock(s: State, i: nat): Option<nat>
    requires i < |s.phils|
  {
    match s.phils[i].pc
    case WantFood => Some(i)
    case TookFood => None
    case _ => s.foodLock
  }

  function Do(s: State, i: nat): State
    requires i < |s.phils| == |s.appetite|
  {
    State(if s.phils[i].pc == InFood then TakeDish(s.food) else s.food,
          NewFoodLock(s, i), NewMutex(s, i), NewAppetite(s, i), NewPhils(s, i),
          if s.phils[i].pc == RightTested then s.finished + multiset{s.phils[i].dish} else s.finished)
  }

  ghost predicate Next(c: Config, s: State, t: State) {
    Shaped(c, s) && exists i: nat :: i < c.n && Enabled(c, s, i) && t == Do(s, i)
  }

  ghost predicate Run(c: Config, r: seq<State>) {
    IsRun(s => s == Start(c), (s, t) => Next(c, s, t), r)
  }

  // ----- invariants that hold whether or not waits return spuriously

  function CourseOf(p: Philosopher): Course {
    match p.pc
    case WantFood => NoDish
    case InFood => Counting
    case TookFood => Dealt(p.dish)
    case Gone => LeftTable
    case _ => Dish(p.dish)
  }

  function KitchenOf(s: State): Kitchen {
    Kitchen(s.food, s.foodLock, Mapped(CourseOf, s.phils), s.finished)
  }

  predicate InMonitor(pc: Pc) {
    || pc.Entered? || pc.SaidHungry? || pc.Tested? || pc.Woken?
    || pc.Leaving? || pc.Cleared? || pc.LeftTested? || pc.RightTested?
  }

  ghost predicate FoodInv(c: Config, s: State) {
    Shaped(c, s) && KitchenInv(c.food, KitchenOf(s))
  }

  ghost predicate MutexInv(c: Config, s: State) {
    && Shaped(c, s)
    && (forall i: nat :: i < c.n ==> (InMonitor(s.phils[i].pc) <==> s.mutex == Some(i)))
    && (s.mutex.Some? ==> s.mutex.value < c.n)
  }

  // ----- the monitor invariant

  // After a spurious return a philosopher may sit at the table and still be marked hungry.
  predicate Fits(spurious: bool, p: Philosopher, a: Appetite) {
    match p.pc
    case WantFood | InFood | TookFood | WantForks | Entered | Gone => a == Thinking
    case SaidHungry => a == Hungry
    case Tested => a != Thinking
    case Waiting => a == if p.signalled then Eating else Hungry
    case Woken | AtTable | Leaving => if spurious then a != Thinking else a == Eating
    case Cleared | LeftTested | RightTested => a == Thinking
  }

  // j has put its forks down and its test of i is still to come
  predicate TestPending(s: State, j: nat, i: nat)
    requires i < |s.phils| && j < |s.phils|
  {
    || (s.phils[j].pc == Cleared && (i == Left(|s.phils|, j) || i == Right(|s.phils|, j)))
    || (s.phils[j].pc == LeftTested && i == Right(|s.phils|, j))
  }

  predicate HeldUp(s: State, i: nat)
    requires i < |s.phils| == |s.appetite|
  {
    var n := |s.phils|;
    || s.appetite[Left(n, i)] == Eating
    || s.appetite[Right(n, i)] == Eating
    || TestPending(s, Left(n, i), i)
    || TestPending(s, Right(n, i), i)
  }

  predicate NeedsFork(s: State, i: nat)
    requires i < |s.phils| == |s.appetite|
  {
    s.appetite[i] == Hungry && (s.phils[i].pc == Tested || s.phils[i].pc == Waiting)
  }

  ghost predicate MonitorInv(c: Config, s: State) {
    && Shaped(c, s)
    && (forall i: nat :: i < c.n ==> Fits(c.spurious, s.phils[i], s.appetite[i]))
    && (forall i: nat :: i < c.n && s.appetite[i] == Eating && Right(c.n, i) != i ==>
          s.appetite[Right(c.n, i)] != Eating)
    && (forall i: nat :: i < c.n && NeedsFork(s, i) ==> HeldUp(s, i))
  }

  lemma StartIsGood(c: Config)
    ensures Good(c, Start(c))
  {
  }

  // What a step does to the philosophers, seen one at a time.
  ghost predicate Moved(s: State, i: nat, t: State) {
    && i < |s.phils| == |s.appetite| == |t.phils| == |t.appetite|
    && t.phils[i].pc == NewPc(s, i)
    && t.phils[i].dish == (if s.phils[i].pc == InFood then TakeDish(s.food) else s.phils[i].dish)
    && (forall j :: 0 <= j < |s.phils| && j != i ==>
          t.phils[j].pc == s.phils[j].pc && t.phils[j].dish == s.phils[j].dish)
  }

  lemma StepMoves(s: State, i: nat)
    requires i < |s.phils| == |s.appetite|
    ensures Moved(s, i, Do(s, i))
  {
  }

  lemma StepIsKitchenStep(c: Config, s: State, i: nat, t: State)
    requires Shaped(c, s) && Moved(s, i, t) && Enabled(c, s, i)
    requires t.food == (if s.phils[i].pc == InFood then TakeDish(s.food) else s.food)
    requires t.foodLock == NewFoodLock(s, i)
    requires t.finished == (if s.phils[i].pc == RightTested then s.finished + multiset{s.phils[i].dish} else s.finished)
    ensures KitchenOf(t) == KitchenOf(s) || KitchenStep(KitchenOf(s), i, KitchenOf(t))
  {
    assert Mapped(CourseOf, t.phils) == Mapped(CourseOf, s.phils)[i := CourseOf(t.phils[i])];
    if CourseOf(t.phils[i]) == CourseOf(s.phils[i]) {
      assert Mapped(CourseOf, t.phils) == Mapped(CourseOf, s.phils);
    }
  }

  lemma StepKeepsMutex(c: Config, s: State, i: nat, t: State)
    requires MutexInv(c, s) && i < c.n && Enabled(c, s, i) && Moved(s, i, t)
    requires t.mutex == NewMutex(s, i)
    ensures MutexInv(c, t)
  {
  }

  lemma StepKeepsCommon(c: Config, s: State, i: nat)
    requires FoodInv(c, s) && MutexInv(c, s) && i < c.n && Enabled(c, s, i)
    ensures FoodInv(c, Do(s, i)) && MutexInv(c, Do(s, i))
  {
    StepMoves(s, i);
    StepKeepsMutex(c, s, i, Do(s, i));
    StepIsKitchenStep(c, s, i, Do(s, i));
    if KitchenOf(Do(s, i)) != KitchenOf(s) {
      KitchenStepKeepsInv(c.food, KitchenOf(s), i, KitchenOf(Do(s, i)));
    }
  }

  lemma NeighboursInverse(n: nat)
    ensures forall i: nat :: i < n ==> Left(n, Right(n, i)) == i && Right(n, Left(n, i)) == i
  {
  }

  // Which appetites and signals a step changes.
  ghost predicate Told(s: State, i: nat, t: State) {
    && i < |s.phils| == |s.appetite| == |t.phils| == |t.appetite|
    && t.appetite == NewAppetite(s, i)
    && (var j := TestedSeat(s, i);
        var fed := j.Some? && CanEat(s.appetite, j.value);
        forall k :: 0 <= k < |s.phils| && k != i ==>
          t.phils[k].signalled == (s.phils[k].signalled || (fed && j.value == k && s.phils[k].pc == Waiting)))
    && (s.phils[i].pc == Tested ==> !t.phils[i].signalled)
  }

  lemma StepTells(s: State, i: nat)
    requires i < |s.phils| == |s.appetite|
    ensures Told(s, i, Do(s, i))
  {
  }

  lemma StepKeepsFits(c: Config, s: State, i: nat, t: State)
    requires MutexInv(c, s) && MonitorInv(c, s) && Moved(s, i, t) && Told(s, i, t) && Enabled(c, s, i)
    ensures forall j: nat :: j < c.n ==> Fits(c.spurious, t.phils[j], t.appetite[j])
  {
  }

  lemma StepKeepsExclusion(c: Config, s: State, i: nat)
    requires MonitorInv(c, s) && i < c.n
    ensures var a := NewAppetite(s, i);
            forall j: nat :: j < c.n && a[j] == Eating && Right(c.n, j) != j ==> a[Right(c.n, j)] != Eating
  {
    NeighboursInverse(c.n);
  }

  /** No hand-over is missed: whoever still needs a fork after a step has an eating neighbour or a
      neighbour about to test it. */
  lemma StepKeepsHeldUp(c: Config, s: State, i: nat, t: State, w: nat)
    requires MutexInv(c, s) && MonitorInv(c, s) && Moved(s, i, t) && Told(s, i, t) && Enabled(c, s, i)
    requires w < c.n && NeedsFork(t, w)
    ensures HeldUp(t, w)
  {
    NeighboursInverse(c.n);
    if NeedsFork(s, w) {
      StaysHeldUp(c, s, i, t, w);
    }
  }

  lemma StaysHeldUp(c: Config, s: State, i: nat, t: State, w: nat)
    requires MutexInv(c, s) && MonitorInv(c, s) && Moved(s, i, t) && Told(s, i, t) && Enabled(c, s, i)
    requires w < c.n && NeedsFork(t, w) && NeedsFork(s, w)
    ensures HeldUp(t, w)
  {
    var n := c.n;
    NeighboursInverse(n);
    assert HeldUp(s, w);
    if s.phils[i].pc == Cleared {
      if w == Left(n, i) {
        assert !CanEat(s.appetite, w);
      } else if TestPending(s, i, w) {
        assert TestPending(t, i, w);
      } else {
        assert s.appetite[Left(n, w)] == Eating || s.appetite[Right(n, w)] == Eating;
      }
    } else if s.phils[i].pc == LeftTested {
      if w == Right(n, i) {
        assert !CanEat(s.appetite, w);
      }
    }
  }

  lemma StepKeepsMonitor(c: Config, s: State, i: nat)
    requires MutexInv(c, s) && MonitorInv(c, s) && i < c.n && Enabled(c, s, i)
    ensures MonitorInv(c, Do(s, i))
  {
    var t := Do(s, i);
    StepMoves(s, i);
    StepTells(s, i);
    StepKeepsFits(c, s, i, t);
    StepKeepsExclusion(c, s, i);
    forall w: nat | w < c.n && NeedsFork(t, w) ensures HeldUp(t, w) {
      StepKeepsHeldUp(c, s, i, t, w);
    }
  }

  // ----- termination: a step uses up food or moves one philosopher closer to leaving

  function Rank(p: Philosopher): nat {
    match p.pc
    case Gone => 0
    case TookFood => if p.dish == 0 then 1 else 15
    case InFood => 2
    case WantFood => 3
    case RightTested => 4
    case LeftTested => 5
    case Cleared => 6
    case Leaving => 7
    case AtTable => 8
    case Woken => 9
    case Waiting => 10
    case Tested => 11
    case SaidHungry => 12
    case Entered => 13
    case WantForks => 14
  }

  function Measure(s: State): nat {
    14 * s.food + Total(Rank, s.phils)
  }

  lemma StepDecreases(c: Config, s: State, i: nat, t: State)
    requires Shaped(c, s) && Moved(s, i, t) && Enabled(c, s, i)
    requires t.food == (if s.phils[i].pc == InFood then TakeDish(s.food) else s.food)
    ensures Measure(t) < Measure(s)
  {
    TotalChange(Rank, s.phils, t.phils, i);
  }

  lemma NextDecreases(c: Config, s: State, t: State)
    requires Next(c, s, t)
    ensures Measure(t) < Measure(s)
  {
    var i: nat :| i < c.n && Enabled(c, s, i) && t == Do(s, i);
    StepMoves(s, i);
    StepDecreases(c, s, i, t);
  }

  // ----- progress: as long as somebody is at dinner, somebody can step

  lemma LockHolderCanStep(c: Config, s: State)
    requires FoodInv(c, s) && MutexInv(c, s)
    requires s.foodLock != None || s.mutex != None
    ensures exists i: nat :: i < c.n && Enabled(c, s, i)
  {
    if s.foodLock != None {
      assert Mapped(CourseOf, s.phils)[s.foodLock.value] == CourseOf(s.phils[s.foodLock.value]);
      assert Enabled(c, s, s.foodLock.value);
    } else {
      assert InMonitor(s.phils[s.mutex.value].pc);
      assert Enabled(c, s, s.mutex.value);
    }
  }

  // The same program, with nobody relying on a return without a signal.
  function Unaided(c: Config): Config {
    c.(spurious := false)
  }

  lemma SomeoneCanStep(c: Config, s: State)
    requires FoodInv(c, s) && MutexInv(c, s) && MonitorInv(c, s)
    requires exists i: nat :: i < c.n && s.phils[i].pc != Gone
    ensures exists i: nat :: i < c.n && Enabled(Unaided(c), s, i)
  {
    var d := Unaided(c);
    if s.foodLock != None || s.mutex != None {
      LockHolderCanStep(d, s);
    } else {
      var i: nat :| i < c.n && s.phils[i].pc != Gone;
      if !Enabled(d, s, i) {
        // i waits unsignalled; the neighbour that keeps it waiting is eating, hence can step
        assert s.phils[i].pc == Waiting && NeedsFork(s, i) && HeldUp(s, i);
        var l, r := Left(c.n, i), Right(c.n, i);
        assert !InMonitor(s.phils[l].pc) && !InMonitor(s.phils[r].pc);
        var j := if s.appetite[l] == Eating then l else r;
        assert s.appetite[j] == Eating && Fits(c.spurious, s.phils[j], s.appetite[j]);
        assert Enabled(d, s, j);
      }
    }
  }

  // ----- the theorems

  ghost predicate Reached(c: Config, s: State) {
    Reachable(s => s == Start(c), (s, t) => Next(c, s, t), s)
  }

  ghost predicate Good(c: Config, s: State) {
    FoodInv(c, s) && MutexInv(c, s) && MonitorInv(c, s)
  }

  lemma NextKeepsGood(c: Config, s: State, t: State)
    requires Good(c, s) && Next(c, s, t)
    ensures Good(c, t)
  {
    var i: nat :| i < c.n && Enabled(c, s, i) && t == Do(s, i);
    StepKeepsCommon(c, s, i);
    StepKeepsMonitor(c, s, i);
  }

  lemma ReachedIsGood(c: Config, s: State)
    requires Reached(c, s)
    ensures Good(c, s)
  {
    StartIsGood(c);
    forall s, t | Good(c, s) && Next(c, s, t) ensures Good(c, t) {
      NextKeepsGood(c, s, t);
    }
    InvariantWhereReached(s => s == Start(c), (s, t) => Next(c, s, t), s => Good(c, s), s);
  }

  ghost predicate Exclusive(c: Config, s: State) {
    Shaped(c, s) && forall i: nat :: i < c.n && Right(c.n, i) != i ==>
      !(s.phils[i].pc == AtTable && s.phils[Right(c.n, i)].pc == AtTable)
  }

  /** The wait protocol in every reachable state. Returns without a signal cost one thing: that whoever eats
      is marked EATING. */
  lemma MonitorProtocol(c: Config, s: State, i: nat)
    requires Reached(c, s) && i < c.n
    ensures Shaped(c, s)
    // an unsignalled waiter is hungry and does not hold the mutex; without spurious returns, nobody else is so
    ensures s.phils[i].pc == Waiting && !s.phils[i].signalled ==> s.appetite[i] == Hungry && s.mutex != Some(i)
    ensures !c.spurious && s.appetite[i] == Hungry && s.mutex != Some(i) ==>
              s.phils[i].pc == Waiting && !s.phils[i].signalled
    // a signalled waiter has been given its forks
    ensures s.phils[i].pc == Waiting && s.phils[i].signalled ==> s.appetite[i] == Eating
    // outside the monitor, a philosopher kept waiting has a neighbour who is eating
    ensures s.phils[i].pc == Waiting && !s.phils[i].signalled && s.mutex == None ==>
              s.appetite[Left(c.n, i)] == Eating || s.appetite[Right(c.n, i)] == Eating
    // neighbours never both have their forks, and without spurious returns never both eat
    ensures s.appetite[i] == Eating && Right(c.n, i) != i ==> s.appetite[Right(c.n, i)] != Eating
    ensures !c.spurious ==> Exclusive(c, s)
  {
    ReachedIsGood(c, s);
    forall j: nat | !c.spurious && j < c.n && Right(c.n, j) != j
      ensures !(s.phils[j].pc == AtTable && s.phils[Right(c.n, j)].pc == AtTable) {
      assert Fits(false, s.phils[j], s.appetite[j]);
      assert Fits(false, s.phils[Right(c.n, j)], s.appetite[Right(c.n, j)]);
    }
    assert Fits(c.spurious, s.phils[i], s.appetite[i]);
    if s.phils[i].pc == Waiting && !s.phils[i].signalled && s.mutex == None {
      assert NeedsFork(s, i) && HeldUp(s, i);
      assert !InMonitor(s.phils[Left(c.n, i)].pc) && !InMonitor(s.phils[Right(c.n, i)].pc);
    }
  }

  // Nobody can step, unless a wait returned without a signal.
  ghost predicate Stuck(c: Config, s: State) {
    Shaped(c, s) && forall i: nat :: i < c.n ==> !Enabled(Unaided(c), s, i)
  }

  ghost predicate AllGone(c: Config, s: State) {
    Shaped(c, s) && forall i: nat :: i < c.n ==> s.phils[i].pc == Gone
  }

  /** Spurious returns or not: every run is finite with a bound known in advance, and a run that cannot go on
      by itself has seated nobody and served every dish exactly once. */
  lemma TotalCorrectness(c: Config, r: seq<State>)
    requires c.n > 0 && Run(c, r)
    ensures |r| - 1 <= 14 * c.food + 3 * c.n
    ensures Stuck(c, Last(r)) ==> AllGone(c, Last(r)) && AllServed(c.food, Last(r).finished)
  {
    hide Good;
    var s := Last(r);
    StartIsGood(c);
    forall s, t | Good(c, s) && Next(c, s, t) ensures Good(c, t) && Measure(t) < Measure(s) {
      NextKeepsGood(c, s, t);
      NextDecreases(c, s, t);
    }
    InvariantAlongRun(s => s == Start(c), (s, t) => Next(c, s, t), s => Good(c, s), r);
    MeasureBoundsRun(s => s == Start(c), (s, t) => Next(c, s, t), s => Good(c, s), Measure, r);
    TotalOfEqual(Rank, Start(c).phils, 3);
    assert Good(c, s);
    if Stuck(c, s) { StuckMeansServed(c, s); }
  }

  lemma StuckMeansServed(c: Config, s: State)
    requires c.n > 0 && Good(c, s) && Stuck(c, s)
    ensures AllGone(c, s) && AllServed(c.food, s.finished)
  {
    if !AllGone(c, s) { SomeoneCanStep(c, s); }
    EverybodyLeft(c.food, KitchenOf(s));
  }

  // ----- what a spurious return of cond_wait breaks, and exactly when

  lemma ReachedStep(c: Config, s: State, i: nat)
    requires Reached(c, s) && Shaped(c, s) && i < c.n && Enabled(c, s, i)
    ensures Reached(c, Do(s, i))
  {
    assert Next(c, s, Do(s, i));
    ReachStep(s => s == Start(c), (s, t) => Next(c, s, t), s, Do(s, i));
  }

  lemma FirstDish(c: Config) returns (s: State)
    requires c.n >= 2 && c.food >= 2
    ensures Shaped(c, s) && Reached(c, s) && s.foodLock == None && s.mutex == None && s.food == c.food - 1
    ensures s.phils[0].pc == WantForks && s.phils[1] == Philosopher(WantFood, 0, false)
    ensures s.appetite == Start(c).appetite
  {
    s := Start(c);
    ReachStart(s => s == Start(c), (s, t) => Next(c, s, t), s);
    ReachedStep(c, s, 0); s := Do(s, 0); assert s.phils[0].pc == InFood;
    ReachedStep(c, s, 0); s := Do(s, 0); assert s.phils[0].pc == TookFood;
    ReachedStep(c, s, 0); s := Do(s, 0);
  }

  /** Philosopher 0, alone in wanting forks, gets to eat. */
  lemma FirstToEat(c: Config) returns (s: State)
    requires c.n >= 2 && c.food >= 2
    ensures Shaped(c, s) && Reached(c, s) && s.foodLock == None && s.mutex == None && s.food == c.food - 1
    ensures s.phils[0].pc == AtTable && s.appetite[0] == Eating
    ensures s.phils[1] == Philosopher(WantFood, 0, false) && s.appetite[1] == Thinking
  {
    s := FirstDish(c);
    assert s.appetite[0] == Thinking && s.appetite[1] == Thinking && s.appetite[c.n - 1] == Thinking;
    ReachedStep(c, s, 0); s := Do(s, 0); assert s.phils[0].pc == Entered;
    ReachedStep(c, s, 0); s := Do(s, 0); assert s.phils[0].pc == SaidHungry;
    ReachedStep(c, s, 0); s := Do(s, 0); assert s.phils[0].pc == Tested;
    ReachedStep(c, s, 0); s := Do(s, 0);
  }

  /** A waiter that returns without a signal sits down beside an eating neighbour. */
  lemma SpuriousReturnSeatsNeighbours(c: Config) returns (s: State)
    requires c.spurious && c.n >= 2 && c.food >= 3
    ensures Shaped(c, s) && Reached(c, s) && s.phils[0].pc == AtTable && s.phils[1].pc == AtTable
  {
    s := FirstToEat(c);
    ReachedStep(c, s, 1); s := Do(s, 1); assert s.phils[1].pc == InFood;
    ReachedStep(c, s, 1); s := Do(s, 1); assert s.phils[1].pc == TookFood;
    ReachedStep(c, s, 1); s := Do(s, 1); assert s.phils[1].pc == WantForks;
    ReachedStep(c, s, 1); s := Do(s, 1); assert s.phils[1].pc == Entered;
    ReachedStep(c, s, 1); s := Do(s, 1); assert s.phils[1].pc == SaidHungry;
    ReachedStep(c, s, 1); s := Do(s, 1); assert s.phils[1].pc == Tested;
    ReachedStep(c, s, 1); s := Do(s, 1); assert s.phils[1].pc == Waiting;
    ReachedStep(c, s, 1); s := Do(s, 1); assert s.phils[1].pc == Woken;
    ReachedStep(c, s, 1); s := Do(s, 1);
  }

  /** Neighbours never eat together in any reachable state, if and only if waits do not return
      spuriously, or there are no two seats, or no two dishes to eat at once. */
  lemma ExclusionIff(c: Config)
    ensures (forall s :: Reached(c, s) ==> Exclusive(c, s)) <==> (!c.spurious || c.n <= 1 || c.food <= 2)
  {
    if c.spurious && c.n >= 2 && c.food >= 3 {
      var s := SpuriousReturnSeatsNeighbours(c);
      assert Right(c.n, 0) == 1;
      assert !Exclusive(c, s);
    } else {
      forall s | Reached(c, s) ensures Exclusive(c, s) {
        ReachedIsGood(c, s);
        if !c.spurious {
          if c.n > 0 { MonitorProtocol(c, s, 0); }
        } else {
          forall i: nat | i < c.n && Right(c.n, i) != i
            ensures !(s.phils[i].pc == AtTable && s.phils[Right(c.n, i)].pc == AtTable) {
            var cs, j := Mapped(CourseOf, s.phils), Right(c.n, i);
            assert Mapped(Carried, cs)[i] == Carried(cs[i]) && Mapped(Carried, cs)[j] == Carried(cs[j]);
          }
        }
      }
    }
  }
}
