/** Two threads rotating over three error-checking mutexes. Each iteration locks one mutex and unlocks
    another; a line is printed after the unlock, when no lock orders it directly, and still the two
    threads' lines alternate. The iteration count is a parameter. */
module HandOff {
  import opened Wrappers
  import opened Runs

  datatype Who = Parent | Child

  datatype Pc =
    | Spin         // Parent only: yields until ready is set
    | ReadReady    // before the test of ready in print_message
    | LockFirst    // found ready unset, before lock of mutex 1
    | SetReady     // holds mutex 1, before ready is set
    | AtLock       // loop body, before lock of mutex k
    | AtUnlock     // k advanced, before unlock of mutex k
    | AtPrint      // after the unlock, before the test k == 2
    | FinalUnlock  // after the loop, before unlock of mutex 2
    | Ended

  // finalOk: what the unlock after the loop returned.
  datatype Thread = Thread(pc: Pc, i: nat, k: nat, finalOk: bool)

  // errors counts the calls in the loops that returned an error.
  datatype State = State(
    owner: seq<Option<Who>>, ready: bool, parent: Thread, child: Thread, lines: seq<Who>, errors: nat)

  // The parent has locked mutex 2 before it creates the child.
  function Start(): State {
    State([None, None, Some(Parent)], false, Thread(Spin, 0, 0, false), Thread(ReadReady, 0, 0, false), [], 0)
  }

  function Get(s: State, w: Who): Thread {
    if w == Parent then s.parent else s.child
  }

  // ----- the step relation

  ghost predicate Shaped(s: State) {
    |s.owner| == 3 && s.parent.k < 3 && s.child.k < 3
  }

  // A lock of a mutex the caller already owns does not block: it returns an error.
  ghost predicate Enabled(s: State, w: Who)
    requires Shaped(s)
  {
    match Get(s, w).pc
    case Spin => s.ready
    case LockFirst => s.owner[1] == None || s.owner[1] == Some(w)
    case AtLock => s.owner[Get(s, w).k] == None || s.owner[Get(s, w).k] == Some(w)
    case Ended => false
    case _ => true
  }

  function Head(n: nat, th: Thread): Thread {
    th.(pc := if th.i < n then AtLock else FinalUnlock)
  }

  function NewThread(n: nat, ready: bool, owns2: bool, th: Thread): (u: Thread)
    requires th.k < 3
    ensures u.k < 3
  {
    match th.pc
    case Spin => th.(pc := ReadReady)
    case ReadReady => if ready then Head(n, th.(k := 1)) else th.(pc := LockFirst)
    case LockFirst => th.(pc := SetReady)
    case SetReady => Head(n, th.(k := 0))
    case AtLock => th.(pc := AtUnlock, k := (th.k + 1) % 3)
    case AtUnlock => th.(pc := AtPrint)
    case AtPrint => Head(n, th.(i := th.i + 1, k := (th.k + 1) % 3))
    case FinalUnlock => th.(pc := Ended, finalOk := owns2)
    case Ended => th
  }

  function NewOwner(owner: seq<Option<Who>>, w: Who, th: Thread): (o: seq<Option<Who>>)
    requires |owner| == 3 && th.k < 3
    ensures |o| == 3
  {
    match th.pc
    case LockFirst => owner[1 := Some(w)]
    case AtLock => owner[th.k := Some(w)]
    case AtUnlock => if owner[th.k] == Some(w) then owner[th.k := None] else owner
    case FinalUnlock => if owner[2] == Some(w) then owner[2 := None] else owner
    case _ => owner
  }

  // A loop's lock fails if the caller owns the mutex, its unlock fails if it does not.
  predicate Fails(owner: seq<Option<Who>>, w: Who, th: Thread)
    requires |owner| == 3 && th.k < 3
  {
    || (th.pc == AtLock && owner[th.k] == Some(w))
    || (th.pc == AtUnlock && owner[th.k] != Some(w))
  }

  function Do(n: nat, s: State, w: Who): State
    requires |s.owner| == 3 && Get(s, w).k < 3
  {
    var th := Get(s, w);
    var u := NewThread(n, s.ready, s.owner[2] == Some(w), th);
    State(NewOwner(s.owner, w, th), s.ready || th.pc == SetReady,
          if w == Parent then u else s.parent, if w == Child then u else s.child,
          if th.pc == AtPrint && th.k == 2 then s.lines + [w] else s.lines,
          if Fails(s.owner, w, th) then s.errors + 1 else s.errors)
  }

  ghost predicate Next(n: nat, s: State, t: State) {
    Shaped(s) && exists w :: Enabled(s, w) && t == Do(n, s, w)
  }

  ghost predicate Run(n: nat, r: seq<State>) {
    IsRun(s => s == Start(), (s, t) => Next(n, s, t), r)
  }

  ghost predicate Reached(n: nat, s: State) {
    Reachable(s => s == Start(), (s, t) => Next(n, s, t), s)
  }

  // ----- the invariant: two positions in lockstep

  // Three ticks per iteration: before the lock, before the unlock, after the unlock.
  function Ticks(th: Thread): nat {
    3 * th.i + if th.pc == AtUnlock then 1 else if th.pc == AtPrint then 2 else 0
  }

  // The mutex locked in iteration i, and the one unlocked in it (held since the iteration before).
  function Locks(w: Who, i: nat): nat {
    if w == Parent then (if i % 3 == 0 then 1 else if i % 3 == 1 then 0 else 2)
    else (if i % 3 == 0 then 0 else if i % 3 == 1 then 2 else 1)
  }

  function Unlocks(w: Who, i: nat): nat {
    if w == Parent then (if i % 3 == 0 then 2 else if i % 3 == 1 then 1 else 0)
    else (if i % 3 == 0 then 1 else if i % 3 == 1 then 0 else 2)
  }

  predicate Holds(w: Who, th: Thread, m: nat) {
    match th.pc
    case ReadReady | LockFirst => w == Parent && m == 2
    case Spin | SetReady | AtLock | FinalUnlock => m == Unlocks(w, th.i)
    case AtUnlock => m == Unlocks(w, th.i) || m == Locks(w, th.i)
    case AtPrint => m == Locks(w, th.i)
    case Ended => m == Unlocks(w, th.i) && m != 2
  }

  predicate InLoop(pc: Pc) { pc.AtLock? || pc.AtUnlock? || pc.AtPrint? }

  predicate PastStart(pc: Pc) { InLoop(pc) || pc.FinalUnlock? || pc.Ended? }

  ghost predicate ThreadInv(n: nat, w: Who, ready: bool, th: Thread) {
    && th.i <= n && th.k < 3
    && (InLoop(th.pc) ==> th.i < n)
    && (th.pc.FinalUnlock? || th.pc.Ended? ==> th.i == n)
    && (PastStart(th.pc) ==> ready)
    && (!PastStart(th.pc) ==> th.i == 0)
    && (th.pc == AtLock ==> th.k == Locks(w, th.i))
    && (th.pc == AtUnlock || th.pc == AtPrint ==> th.k == Unlocks(w, th.i))
    && (th.pc == Spin ==> w == Parent)
    && (th.pc == LockFirst || th.pc == SetReady ==> w == Child)
    && (w == Parent && th.pc == ReadReady ==> ready)
    && (w == Child && ready ==> PastStart(th.pc))
    && (th.pc == Ended ==> (th.finalOk <==> Unlocks(w, n) == 2))
  }

  ghost predicate Owners(owner: seq<Option<Who>>, parent: Thread, child: Thread) {
    |owner| == 3 &&
    forall m: nat :: m < 3 ==>
      && (owner[m] == Some(Parent) <==> Holds(Parent, parent, m))
      && (owner[m] == Some(Child) <==> Holds(Child, child, m))
  }

  // Iteration i of the parent locks what the child unlocked in its iteration i; iteration i of the child
  // locks what the parent unlocked in its iteration i-1.
  ghost predicate Lockstep(parent: Thread, child: Thread) {
    var p, c := Ticks(parent), Ticks(child);
    && (p > 3 * parent.i ==> c >= 3 * parent.i + 2)
    && (parent.i > 0 ==> c >= 3 * parent.i - 1)
    && (c > 3 * child.i ==> p >= 3 * child.i - 1)
    && (child.i > 0 ==> p >= 3 * child.i - 4)
  }

  ghost predicate Alternates(lines: seq<Who>, parent: Thread, child: Thread) {
    && |lines| == (parent.i + 2) / 3 + child.i / 3
    && LinesAlternate(lines)
  }

  ghost predicate Good(n: nat, s: State) {
    && ThreadInv(n, Parent, s.ready, s.parent) && ThreadInv(n, Child, s.ready, s.child)
    && Owners(s.owner, s.parent, s.child) && Lockstep(s.parent, s.child)
    && Alternates(s.lines, s.parent, s.child) && s.errors == 0
  }

  lemma StartIsGood(n: nat)
    ensures Good(n, Start())
  {
  }

  // Whether w's next call succeeds at once: the mutex it wants is free.
  ghost predicate Granted(owner: seq<Option<Who>>, w: Who, th: Thread)
    requires |owner| == 3 && th.k < 3
  {
    && (th.pc == LockFirst ==> owner[1] == None)
    && (th.pc == AtLock ==> owner[th.k] == None)
  }

  lemma EnabledIsGranted(n: nat, s: State, w: Who)
    requires Good(n, s) && Enabled(s, w)
    ensures Granted(s.owner, w, Get(s, w)) && !Fails(s.owner, w, Get(s, w))
  {
  }

  lemma StepKeepsThread(n: nat, w: Who, ready: bool, owner: seq<Option<Who>>, parent: Thread, child: Thread)
    requires ThreadInv(n, Parent, ready, parent) && ThreadInv(n, Child, ready, child)
    requires Owners(owner, parent, child)
    requires var th := if w == Parent then parent else child; th.pc == Spin ==> ready
    ensures var th := if w == Parent then parent else child;
            ThreadInv(n, w, ready || th.pc == SetReady, NewThread(n, ready, owner[2] == Some(w), th))
  {
  }

  lemma ParentKeepsOwners(n: nat, ready: bool, owner: seq<Option<Who>>, parent: Thread, child: Thread)
    requires ThreadInv(n, Parent, ready, parent) && Owners(owner, parent, child)
    requires Granted(owner, Parent, parent)
    ensures Owners(NewOwner(owner, Parent, parent), NewThread(n, ready, owner[2] == Some(Parent), parent), child)
  {
  }

  lemma ChildKeepsOwners(n: nat, ready: bool, owner: seq<Option<Who>>, parent: Thread, child: Thread)
    requires ThreadInv(n, Child, ready, child) && Owners(owner, parent, child)
    requires Granted(owner, Child, child)
    ensures Owners(NewOwner(owner, Child, child), parent, NewThread(n, ready, owner[2] == Some(Child), child))
  {
  }

  /** A mutex found free shows how far the other thread has come. */
  lemma FreeForParent(n: nat, ready: bool, parent: Thread, child: Thread)
    requires ThreadInv(n, Parent, ready, parent) && ThreadInv(n, Child, ready, child) && Lockstep(parent, child)
    requires parent.pc == AtLock && !Holds(Child, child, parent.k)
    ensures Ticks(child) >= 3 * parent.i + 2
  {
  }

  lemma FreeForChild(n: nat, ready: bool, parent: Thread, child: Thread)
    requires ThreadInv(n, Parent, ready, parent) && ThreadInv(n, Child, ready, child) && Lockstep(parent, child)
    requires child.pc == AtLock && !Holds(Parent, parent, child.k)
    ensures Ticks(parent) >= 3 * child.i - 1
  {
  }

  lemma ParentKeepsLockstep(n: nat, ready: bool, owns2: bool, parent: Thread, child: Thread)
    requires ThreadInv(n, Parent, ready, parent) && ThreadInv(n, Child, ready, child) && Lockstep(parent, child)
    requires parent.pc == AtLock ==> !Holds(Child, child, parent.k)
    ensures Lockstep(NewThread(n, ready, owns2, parent), child)
  {
    if parent.pc == AtLock { FreeForParent(n, ready, parent, child); }
  }

  lemma ChildKeepsLockstep(n: nat, ready: bool, owns2: bool, parent: Thread, child: Thread)
    requires ThreadInv(n, Parent, ready, parent) && ThreadInv(n, Child, ready, child) && Lockstep(parent, child)
    requires child.pc == AtLock ==> !Holds(Parent, parent, child.k)
    ensures Lockstep(parent, NewThread(n, ready, owns2, child))
  {
    if child.pc == AtLock { FreeForChild(n, ready, parent, child); }
  }

  /** The thread that prints is the one whose turn it is. */
  lemma ParentsTurn(n: nat, ready: bool, parent: Thread, child: Thread)
    requires ThreadInv(n, Parent, ready, parent) && Lockstep(parent, child) && parent.pc == AtPrint
    ensures parent.k == 2 <==> parent.i % 3 == 0
    ensures parent.k == 2 ==> child.i / 3 == parent.i / 3 == (parent.i + 2) / 3
    ensures (parent.i + 1 + 2) / 3 == (parent.i + 2) / 3 + if parent.k == 2 then 1 else 0
  {
  }

  lemma ChildsTurn(n: nat, ready: bool, parent: Thread, child: Thread)
    requires ThreadInv(n, Child, ready, child) && Lockstep(parent, child) && child.pc == AtPrint
    ensures child.k == 2 <==> child.i % 3 == 2
    ensures child.k == 2 ==> (parent.i + 2) / 3 == child.i / 3 + 1
    ensures (child.i + 1) / 3 == child.i / 3 + if child.k == 2 then 1 else 0
  {
  }

  ghost predicate LinesAlternate(lines: seq<Who>) {
    forall j :: 0 <= j < |lines| ==> lines[j] == if j % 2 == 0 then Parent else Child
  }

  lemma ParentKeepsAlternation(n: nat, ready: bool, owns2: bool, parent: Thread, child: Thread, lines: seq<Who>)
    requires ThreadInv(n, Parent, ready, parent) && Lockstep(parent, child) && Alternates(lines, parent, child)
    ensures Alternates(if parent.pc == AtPrint && parent.k == 2 then lines + [Parent] else lines,
                       NewThread(n, ready, owns2, parent), child)
  {
    hide LinesAlternate, Lockstep;
    if parent.pc == AtPrint {
      ParentsTurn(n, ready, parent, child);
      if parent.k == 2 { NextLine(lines, child.i / 3, Parent); }
    }
  }

  // The line after a whole number of pairs is the parent's, the one after it the child's.
  lemma NextLine(lines: seq<Who>, pairs: nat, w: Who)
    requires LinesAlternate(lines) && |lines| == 2 * pairs + if w == Parent then 0 else 1
    ensures LinesAlternate(lines + [w])
  {
  }

  lemma ChildKeepsAlternation(n: nat, ready: bool, owns2: bool, parent: Thread, child: Thread, lines: seq<Who>)
    requires ThreadInv(n, Child, ready, child) && Lockstep(parent, child) && Alternates(lines, parent, child)
    ensures Alternates(if child.pc == AtPrint && child.k == 2 then lines + [Child] else lines,
                       parent, NewThread(n, ready, owns2, child))
  {
    hide LinesAlternate, Lockstep;
    if child.pc == AtPrint {
      ChildsTurn(n, ready, parent, child);
      if child.k == 2 { NextLine(lines, child.i / 3, Child); }
    }
  }

  lemma ParentKeepsGood(n: nat, s: State)
    requires Good(n, s) && Enabled(s, Parent)
    ensures Good(n, Do(n, s, Parent))
  {
    var owns2 := s.owner[2] == Some(Parent);
    EnabledIsGranted(n, s, Parent);
    StepKeepsThread(n, Parent, s.ready, s.owner, s.parent, s.child);
    ParentKeepsOwners(n, s.ready, s.owner, s.parent, s.child);
    assert s.parent.pc == AtLock ==> !Holds(Child, s.child, s.parent.k);
    ParentKeepsLockstep(n, s.ready, owns2, s.parent, s.child);
    ParentKeepsAlternation(n, s.ready, owns2, s.parent, s.child, s.lines);
  }

  lemma ChildKeepsGood(n: nat, s: State)
    requires Good(n, s) && Enabled(s, Child)
    ensures Good(n, Do(n, s, Child))
  {
    var owns2 := s.owner[2] == Some(Child);
    EnabledIsGranted(n, s, Child);
    StepKeepsThread(n, Child, s.ready, s.owner, s.parent, s.child);
    ChildKeepsOwners(n, s.ready, s.owner, s.parent, s.child);
    assert s.child.pc == AtLock ==> !Holds(Parent, s.parent, s.child.k);
    ChildKeepsLockstep(n, s.ready, owns2, s.parent, s.child);
    ChildKeepsAlternation(n, s.ready, owns2, s.parent, s.child, s.lines);
  }

  lemma NextKeepsGood(n: nat, s: State, t: State)
    requires Good(n, s) && Next(n, s, t)
    ensures Good(n, t)
  {
    var w :| Enabled(s, w) && t == Do(n, s, w);
    if w == Parent { ParentKeepsGood(n, s); } else { ChildKeepsGood(n, s); }
  }

  lemma ReachedIsGood(n: nat, s: State)
    requires Reached(n, s)
    ensures Good(n, s)
  {
    hide Good;
    StartIsGood(n);
    forall s, t | Good(n, s) && Next(n, s, t) ensures Good(n, t) {
      NextKeepsGood(n, s, t);
    }
    InvariantWhereReached(s => s == Start(), (s, t) => Next(n, s, t), s => Good(n, s), s);
  }

  // ----- termination and progress

  function Rank(n: nat, th: Thread): nat {
    var left := if th.i < n then n - th.i else 0;
    match th.pc
    case Spin => 3 * n + 5
    case ReadReady => 3 * n + 4
    case LockFirst => 3 * n + 3
    case SetReady => 3 * n + 2
    case AtLock => 3 * left + 1
    case AtUnlock => 3 * left
    case AtPrint => if left == 0 then 0 else 3 * left - 1
    case FinalUnlock => 1
    case Ended => 0
  }

  function Measure(n: nat, s: State): nat {
    Rank(n, s.parent) + Rank(n, s.child)
  }

  lemma ThreadDecreases(n: nat, w: Who, ready: bool, owns2: bool, th: Thread)
    requires ThreadInv(n, w, ready, th) && th.pc != Ended
    ensures Rank(n, NewThread(n, ready, owns2, th)) < Rank(n, th)
  {
  }

  lemma NextDecreases(n: nat, s: State, t: State)
    requires ThreadInv(n, Parent, s.ready, s.parent) && ThreadInv(n, Child, s.ready, s.child)
    requires Next(n, s, t)
    ensures Measure(n, t) < Measure(n, s)
  {
    hide ThreadInv, NewThread, NewOwner, Fails, Rank;
    var w :| Enabled(s, w) && t == Do(n, s, w);
    assert Get(s, w).pc != Ended;
    ThreadDecreases(n, w, s.ready, s.owner[2] == Some(w), Get(s, w));
  }

  lemma OwnerCases(o: Option<Who>)
    ensures o == None || o == Some(Parent) || o == Some(Child)
  {
    match o
    case None =>
    case Some(w) => assert w == Parent || w == Child;
  }

  // Who blocks whom: an owner other than the caller is the other thread.
  lemma BlockedByOther(n: nat, s: State, w: Who)
    requires Good(n, s) && Get(s, w).pc == AtLock && !Enabled(s, w)
    ensures var other := if w == Parent then Child else Parent;
            Holds(other, Get(s, other), Locks(w, Get(s, w).i))
  {
    OwnerCases(s.owner[Get(s, w).k]);
  }

  lemma SomeoneCanStep(n: nat, s: State)
    requires Good(n, s) && !(s.parent.pc == Ended && s.child.pc == Ended)
    ensures Enabled(s, Parent) || Enabled(s, Child)
  {
    if !Enabled(s, Parent) && !Enabled(s, Child) {
      if s.parent.pc == AtLock { BlockedByOther(n, s, Parent); }
      if s.child.pc == AtLock { BlockedByOther(n, s, Child); }
      OwnerCases(s.owner[1]);
    }
  }

  // ----- the theorems

  /** In every interleaving the lines read Parent, Child, Parent, ... although each is printed after the
      mutex was released. */
  lemma StrictAlternation(n: nat, s: State)
    requires Reached(n, s)
    ensures LinesAlternate(s.lines)
    ensures |s.lines| == (s.parent.i + 2) / 3 + s.child.i / 3
  {
    ReachedIsGood(n, s);
  }

  // Iterations in which the unlock has happened.
  function Unlocked(th: Thread): nat { th.i + if th.pc == AtPrint then 1 else 0 }

  /** The threads keep in step, each holds the mutexes its iteration count says, and no lock or unlock in
      a loop returns an error. */
  lemma LockstepRotation(n: nat, s: State, w: Who, m: nat)
    requires Reached(n, s) && m < 3
    ensures Unlocked(s.parent) <= Unlocked(s.child) <= Unlocked(s.parent) + 1
    ensures |s.owner| == 3 && (s.owner[m] == Some(w) <==> Holds(w, Get(s, w), m))
    ensures s.errors == 0
  {
    ReachedIsGood(n, s);
  }

  /** No call fails: a lock is granted only while nobody owns the mutex, and an unlock in the loop finds its
      caller owning it. */
  lemma CallsSucceed(n: nat, s: State, w: Who)
    requires Reached(n, s)
    ensures Shaped(s)
    ensures Enabled(s, w) && Get(s, w).pc == AtLock ==> s.owner[Get(s, w).k] == None
    ensures Enabled(s, w) && Get(s, w).pc == LockFirst ==> s.owner[1] == None
    ensures Get(s, w).pc == AtUnlock ==> s.owner[Get(s, w).k] == Some(w)
  {
    hide Good, ThreadInv, Owners, Enabled;
    ReachedIsGood(n, s);
    GoodThreads(n, s);
    if Enabled(s, w) { EnabledIsGranted(n, s, w); }
    if Get(s, w).pc == AtUnlock { UnlocksOwned(n, s, w); }
  }

  lemma UnlocksOwned(n: nat, s: State, w: Who)
    requires Good(n, s) && Get(s, w).pc == AtUnlock
    ensures s.owner[Get(s, w).k] == Some(w)
  {
  }

  /** The table form of the rotation agrees with counting mutexes modulo 3. */
  lemma RotationIsModular(i: nat)
    ensures Locks(Parent, i) == (1 + 2 * i) % 3 && Unlocks(Parent, i) == (2 + 2 * i) % 3
    ensures Locks(Child, i) == (2 * i) % 3 && Unlocks(Child, i) == (1 + 2 * i) % 3
    ensures forall w :: (Locks(w, i) + 1) % 3 == Unlocks(w, i) && Locks(w, i) == Unlocks(w, i + 1)
  {
    NextThird(i);
    TwiceThird(i, 0);
    TwiceThird(i, 1);
    TwiceThird(i, 2);
  }

  lemma NextThird(i: nat)
    ensures (i + 1) % 3 == if i % 3 == 2 then 0 else i % 3 + 1
  {
  }

  lemma TwiceThird(i: nat, k: nat)
    ensures (k + 2 * i) % 3 == (k + 2 * (i % 3)) % 3
  {
    ThirdsOf(2 * (i / 3), k + 2 * (i % 3));
  }

  lemma ThirdsOf(q: nat, r: nat)
    ensures (3 * q + r) % 3 == r % 3
  {
  }

  lemma GoodThreads(n: nat, s: State)
    requires Good(n, s)
    ensures Shaped(s) && ThreadInv(n, Parent, s.ready, s.parent) && ThreadInv(n, Child, s.ready, s.child)
  {
  }

  lemma RestsWhenEnded(n: nat, s: State)
    requires Good(n, s) && !Enabled(s, Parent) && !Enabled(s, Child)
    ensures s.parent.pc == Ended && s.child.pc == Ended
    ensures |s.lines| == (n + 2) / 3 + n / 3
    ensures (s.parent.finalOk <==> n % 3 == 0) && (s.child.finalOk <==> n % 3 == 2)
  {
    if !(s.parent.pc == Ended && s.child.pc == Ended) { SomeoneCanStep(n, s); }
  }

  /** Some thread can step until both have ended, and every run has a bounded length. A finished run
      printed every line, and exactly when n is a multiple of 3 (the parent) or leaves remainder 2 (the
      child) does the unlock after the loop succeed. */
  lemma HandOffEnds(n: nat, r: seq<State>)
    requires Run(n, r)
    ensures |r| - 1 <= 6 * n + 9
    ensures var s := Last(r);
            && Shaped(s)
            && (!Enabled(s, Parent) && !Enabled(s, Child) ==>
                 && s.parent.pc == Ended && s.child.pc == Ended
                 && |s.lines| == (n + 2) / 3 + n / 3
                 && (s.parent.finalOk <==> n % 3 == 0)
                 && (s.child.finalOk <==> n % 3 == 2))
  {
    hide Good;
    StartIsGood(n);
    forall s, t | Good(n, s) && Next(n, s, t) ensures Good(n, t) && Measure(n, t) < Measure(n, s) {
      NextKeepsGood(n, s, t);
      GoodThreads(n, s);
      NextDecreases(n, s, t);
    }
    InvariantAlongRun(s => s == Start(), (s, t) => Next(n, s, t), s => Good(n, s), r);
    MeasureBoundsRun(s => s == Start(), (s, t) => Next(n, s, t), s => Good(n, s), s => Measure(n, s), r);
    var s := Last(r);
    assert Good(n, s);
    GoodThreads(n, s);
    if !Enabled(s, Parent) && !Enabled(s, Child) { RestsWhenEnded(n, s); }
  }

  /** With the program's 30 iterations the child's last unlock fails, and it ends still owning mutex 1. */
  lemma ChildEndsOwningMutexOne(s: State)
    requires Reached(30, s) && s.parent.pc == Ended && s.child.pc == Ended
    ensures s.owner == [None, Some(Child), None] && !s.child.finalOk && s.parent.finalOk
  {
    ReachedIsGood(30, s);
    forall m: nat | m < 3 ensures s.owner[m] == if m == 1 then Some(Child) else None {
      OwnerCases(s.owner[m]);
    }
  }
}
