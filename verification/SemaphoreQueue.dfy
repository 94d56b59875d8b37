/** The message queue with three semaphores: isEmpty counts free places, isFull counts messages, global
    guards the list. Dropping the queue posts one extra token on each counting semaphore, and every
    refused caller passes the token on. */
module SemaphoreQueue {
  import opened Wrappers
  import opened Runs
  import opened BoundedFifo

  datatype Pc =
    | Idle         // before the wait on its own semaphore (isEmpty to put, isFull to get)
    | Token        // has taken a token, before wait(global)
    | Inside       // holds global, before the check of isDroped
    | Worked       // holds global, list changed
    | WorkedOut    // global posted, before the post on the other side's semaphore
    | Refused      // holds global, queue found dropped
    | RefusedOut   // global posted, before its own token is posted back
    | Exited

  datatype Thread = Thread(role: Role, pc: Pc)

  datatype DropPc = Before | Holding | Flagged | PostedEmpty | PostedFull | Finished

  datatype Config = Config(cap: nat, roles: seq<Role>)

  datatype State = State(
    empty: nat, full: nat, global: nat,
    queue: seq<string>, dropped: bool,
    dropper: DropPc, threads: seq<Thread>,
    trace: seq<Event>)

  function Start(c: Config): State {
    State(c.cap, 0, 1, [], false, Before, seq(|c.roles|, i requires 0 <= i < |c.roles| => Thread(c.roles[i], Idle)), [])
  }

  // ----- the step relation

  predicate Enabled(s: State, i: nat)
    requires i < |s.threads|
  {
    var th := s.threads[i];
    match th.pc
    case Idle => if th.role.Consumer? then s.full > 0 else th.role.script == [] || s.empty > 0
    case Token => s.global > 0
    case Exited => false
    case _ => true
  }

  predicate Takes(th: Thread) {
    th.pc.Idle? && (th.role.Consumer? || th.role.script != [])
  }

  // mymsgput returns min(80, length): a put of an empty message looks refused to its caller.
  function AfterWork(r: Role): Thread {
    match r
    case Consumer => Thread(r, Idle)
    case Producer(script) =>
      if script == [] then Thread(r, Exited)
      else Thread(Producer(script[1..]), if script[0] == "" then Exited else Idle)
  }

  function NewThread(s: State, i: nat): Thread
    requires i < |s.threads|
  {
    var th := s.threads[i];
    match th.pc
    case Idle => th.(pc := if Takes(th) then Token else Exited)
    case Token => th.(pc := Inside)
    case Inside => th.(pc := if s.dropped then Refused else Worked)
    case Worked => th.(pc := WorkedOut)
    case WorkedOut => AfterWork(th.role)
    case Refused => th.(pc := RefusedOut)
    case RefusedOut => th.(pc := Exited)
    case Exited => th
  }

  function NewEmpty(s: State, i: nat): int
    requires i < |s.threads|
  {
    var th := s.threads[i];
    if Takes(th) && th.role.Producer? then s.empty - 1
    else if th.pc == WorkedOut && th.role.Consumer? then s.empty + 1
    else if th.pc == RefusedOut && th.role.Producer? then s.empty + 1
    else s.empty
  }

  function NewFull(s: State, i: nat): int
    requires i < |s.threads|
  {
    var th := s.threads[i];
    if Takes(th) && th.role.Consumer? then s.full - 1
    else if th.pc == WorkedOut && th.role.Producer? then s.full + 1
    else if th.pc == RefusedOut && th.role.Consumer? then s.full + 1
    else s.full
  }

  function NewGlobal(s: State, i: nat): int
    requires i < |s.threads|
  {
    match s.threads[i].pc
    case Token => s.global - 1
    case Worked | Refused => s.global + 1
    case _ => s.global
  }

  // The operation of the critical section.
  function EventOf(s: State, i: nat): Event
    requires i < |s.threads|
  {
    match s.threads[i].role
    case Producer(script) =>
      if s.dropped then PutRefused(i) else Put(i, if script == [] then "" else script[0])
    case Consumer =>
      if s.dropped || s.queue == [] then GetRefused(i) else Got(i, s.queue[0])
  }

  // A get of an undropped queue reads the tail without checking it, so the step is only defined when the
  // tail exists.
  function NewQueue(s: State, i: nat): seq<string>
    requires i < |s.threads|
    requires s.threads[i].pc == Inside && s.threads[i].role.Consumer? && !s.dropped ==> |s.queue| > 0
  {
    if s.threads[i].pc != Inside || s.dropped then s.queue
    else match s.threads[i].role
         case Producer(script) => s.queue + [Cut(if script == [] then "" else script[0])]
         case Consumer => s.queue[1..]
  }

  // A thread about to run the code below finds what that code relies on: tokens to take, a tail to read.
  predicate Safe(s: State, i: nat)
    requires i < |s.threads|
  {
    && (s.threads[i].pc == Inside && s.threads[i].role.Consumer? && !s.dropped ==> |s.queue| > 0)
    && NewEmpty(s, i) >= 0 && NewFull(s, i) >= 0 && NewGlobal(s, i) >= 0
  }

  function Do(s: State, i: nat): State
    requires i < |s.threads| && Safe(s, i)
  {
    State(NewEmpty(s, i), NewFull(s, i), NewGlobal(s, i), NewQueue(s, i), s.dropped, s.dropper,
          s.threads[i := NewThread(s, i)],
          if s.threads[i].pc == Inside then s.trace + [EventOf(s, i)] else s.trace)
  }

  predicate DropEnabled(s: State) {
    match s.dropper
    case Before => s.global > 0
    case Finished => false
    case _ => true
  }

  function DoDrop(s: State): State
    requires s.dropper == Before ==> s.global > 0
  {
    match s.dropper
    case Before => s.(global := s.global - 1, dropper := Holding)
    case Holding => s.(dropped := true, trace := s.trace + [Drop], dropper := Flagged)
    case Flagged => s.(empty := s.empty + 1, dropper := PostedEmpty)
    case PostedEmpty => s.(full := s.full + 1, dropper := PostedFull)
    case PostedFull => s.(global := s.global + 1, dropper := Finished)
    case Finished => s
  }

  ghost predicate Next(c: Config, s: State, t: State) {
    || (DropEnabled(s) && t == DoDrop(s))
    || (exists i: nat :: i < |s.threads| && Enabled(s, i) && Safe(s, i) && t == Do(s, i))
  }

  ghost predicate Run(c: Config, r: seq<State>) {
    IsRun(s => s == Start(c), (s, t) => Next(c, s, t), r)
  }

  ghost predicate Reached(c: Config, s: State) {
    Reachable(s => s == Start(c), (s, t) => Next(c, s, t), s)
  }

  // ----- token accounting

  // A place of the queue this thread has reserved or has yet to give back.
  function HoldsEmpty(th: Thread): nat {
    match th.pc
    case Token | Inside | Refused | RefusedOut => if th.role.Producer? then 1 else 0
    case Worked | WorkedOut => if th.role.Consumer? then 1 else 0
    case _ => 0
  }

  // A message this thread has claimed or has yet to announce.
  function HoldsFull(th: Thread): nat {
    match th.pc
    case Token | Inside | Refused | RefusedOut => if th.role.Consumer? then 1 else 0
    case Worked | WorkedOut => if th.role.Producer? then 1 else 0
    case _ => 0
  }

  function HoldsGlobal(th: Thread): nat {
    match th.pc
    case Inside | Worked | Refused => 1
    case _ => 0
  }

  function DropHolds(d: DropPc): nat { if d.Before? || d.Finished? then 0 else 1 }

  function ExtraEmpty(d: DropPc): nat { if d.Before? || d.Holding? || d.Flagged? then 0 else 1 }

  function ExtraFull(d: DropPc): nat { if d.PostedFull? || d.Finished? then 1 else 0 }

  ghost predicate Accounts(c: Config, s: State) {
    && s.empty + Total(HoldsEmpty, s.threads) + |s.queue| == c.cap + ExtraEmpty(s.dropper)
    && s.full + Total(HoldsFull, s.threads) == |s.queue| + ExtraFull(s.dropper)
    && s.global + Total(HoldsGlobal, s.threads) + DropHolds(s.dropper) == 1
  }

  predicate ThreadOk(th: Thread, dropped: bool) {
    && (th.role.Producer? && !th.pc.Idle? && !th.pc.Exited? ==> th.role.script != [])
    && (th.pc.Refused? || th.pc.RefusedOut? ==> dropped)
    && (th.pc.Exited? && th.role.Consumer? ==> dropped)
  }

  ghost predicate Good(c: Config, s: State) {
    && |s.threads| == |c.roles|
    && Accounts(c, s)
    && (s.dropped <==> !s.dropper.Before? && !s.dropper.Holding?)
    && (forall i :: 0 <= i < |s.threads| ==> ThreadOk(s.threads[i], s.dropped))
    && (forall i :: 0 <= i < |s.threads| ==> (s.threads[i].role.Consumer? <==> c.roles[i].Consumer?))
    && Replay(c.cap, s.trace) == Some(Fifo(s.queue, s.dropped))
  }

  // What the thread still has to put.
  function Remaining(th: Thread): seq<string> {
    match th.role
    case Consumer => []
    case Producer(script) =>
      if (th.pc.Worked? || th.pc.WorkedOut?) && script != [] then script[1..] else script
  }

  ghost predicate ScriptsFollowed(c: Config, s: State) {
    |s.threads| == |c.roles| &&
    forall i: nat :: i < |s.threads| ==> PutBy(i, s.trace) + Remaining(s.threads[i]) == Script(c.roles[i])
  }

  lemma ThreadFollowsScript(s: State, i: nat)
    requires i < |s.threads| && ThreadOk(s.threads[i], s.dropped)
    ensures var e := EventOf(s, i);
            if s.threads[i].pc == Inside && e.Put?
            then e.who == i && [e.msg] + Remaining(NewThread(s, i)) == Remaining(s.threads[i])
            else Remaining(NewThread(s, i)) == Remaining(s.threads[i])
  {
  }

  // What a step does to the threads and the trace.
  lemma DoParts(s: State, i: nat)
    requires i < |s.threads| && Safe(s, i)
    ensures var t := Do(s, i);
            && t.threads == s.threads[i := NewThread(s, i)] && t.dropped == s.dropped
            && t.trace == if s.threads[i].pc == Inside then s.trace + [EventOf(s, i)] else s.trace
  {
  }

  lemma StepFollowsScripts(c: Config, s: State, i: nat)
    requires ScriptsFollowed(c, s) && i < |s.threads| && Safe(s, i) && ThreadOk(s.threads[i], s.dropped)
    ensures ScriptsFollowed(c, Do(s, i))
  {
    hide NewThread, EventOf, Remaining, Script, PutBy, ThreadOk, Safe, Do;
    var e, t := EventOf(s, i), Do(s, i);
    DoParts(s, i);
    ThreadFollowsScript(s, i);
    forall j: nat | j < |s.threads|
      ensures PutBy(j, t.trace) + Remaining(t.threads[j]) == Script(c.roles[j]) {
      assert PutBy(j, s.trace) + Remaining(s.threads[j]) == Script(c.roles[j]);
      if s.threads[i].pc == Inside {
        PutFollowsScript(j, s.trace, e, Remaining(s.threads[j]), Remaining(t.threads[j]), Script(c.roles[j]));
      }
    }
  }

  lemma DropFollowsScripts(c: Config, s: State)
    requires ScriptsFollowed(c, s) && DropEnabled(s)
    ensures ScriptsFollowed(c, DoDrop(s))
  {
    forall j: nat | j < |s.threads|
      ensures PutBy(j, DoDrop(s).trace) + Remaining(s.threads[j]) == Script(c.roles[j]) {
      PutByOne(j, s.trace, Drop);
    }
  }

  lemma StartIsGood(c: Config)
    ensures Good(c, Start(c))
  {
    TotalOfEqual(HoldsEmpty, Start(c).threads, 0);
    TotalOfEqual(HoldsFull, Start(c).threads, 0);
    TotalOfEqual(HoldsGlobal, Start(c).threads, 0);
  }

  /** An undropped get that reached the list finds a tail, an undropped put finds room. */
  lemma InsideFindsWhatItNeeds(c: Config, s: State, i: nat)
    requires Good(c, s) && i < |s.threads| && Enabled(s, i)
    ensures Safe(s, i)
    ensures s.threads[i].pc == Inside && !s.dropped ==>
              if s.threads[i].role.Consumer? then |s.queue| > 0 else |s.queue| < c.cap
  {
    TotalAtLeast(HoldsEmpty, s.threads, i);
    TotalAtLeast(HoldsFull, s.threads, i);
  }

  lemma StepKeepsAccounts(c: Config, s: State, i: nat)
    requires Good(c, s) && i < |s.threads| && Enabled(s, i) && Safe(s, i)
    ensures Accounts(c, Do(s, i))
  {
    var t := Do(s, i);
    TotalChange(HoldsEmpty, s.threads, t.threads, i);
    TotalChange(HoldsFull, s.threads, t.threads, i);
    TotalChange(HoldsGlobal, s.threads, t.threads, i);
  }

  /** A thread step changes the abstract queue as the one event it adds to the trace says. */
  lemma StepRefines(c: Config, s: State, i: nat)
    requires Good(c, s) && i < |s.threads| && Enabled(s, i) && Safe(s, i)
    ensures var t := Do(s, i);
            Replay(c.cap, t.trace) == Some(Fifo(t.queue, t.dropped))
  {
    InsideFindsWhatItNeeds(c, s, i);
    if s.threads[i].pc == Inside {
      ReplayOne(c.cap, s.trace, EventOf(s, i));
    }
  }

  lemma StepKeepsThreads(s: State, i: nat)
    requires i < |s.threads| && ThreadOk(s.threads[i], s.dropped)
    ensures ThreadOk(NewThread(s, i), s.dropped)
    ensures NewThread(s, i).role.Consumer? <==> s.threads[i].role.Consumer?
  {
  }

  lemma StepKeepsGood(c: Config, s: State, i: nat)
    requires Good(c, s) && i < |s.threads| && Enabled(s, i) && Safe(s, i)
    ensures Good(c, Do(s, i))
  {
    StepKeepsAccounts(c, s, i);
    StepKeepsThreads(s, i);
    StepRefines(c, s, i);
  }

  lemma DropKeepsGood(c: Config, s: State)
    requires Good(c, s) && DropEnabled(s)
    ensures Good(c, DoDrop(s))
  {
    ReplayOne(c.cap, s.trace, Drop);
  }

  lemma NextKeepsGood(c: Config, s: State, t: State)
    requires Good(c, s) && Next(c, s, t)
    ensures Good(c, t)
  {
    if DropEnabled(s) && t == DoDrop(s) {
      DropKeepsGood(c, s);
    } else {
      var i: nat :| i < |s.threads| && Enabled(s, i) && Safe(s, i) && t == Do(s, i);
      StepKeepsGood(c, s, i);
    }
  }

  lemma ReachedIsGood(c: Config, s: State)
    requires Reached(c, s)
    ensures Good(c, s)
  {
    StartIsGood(c);
    forall s, t | Good(c, s) && Next(c, s, t) ensures Good(c, t) {
      NextKeepsGood(c, s, t);
    }
    InvariantWhereReached(s => s == Start(c), (s, t) => Next(c, s, t), s => Good(c, s), s);
  }

  // ----- termination

  function Rank(th: Thread): nat {
    match th.role
    case Producer(script) =>
      10 * |script| + (match th.pc
                       case Idle => 12
                       case Token => 11
                       case Inside => 10
                       case Worked => 4
                       case WorkedOut => 3
                       case Refused => 2
                       case RefusedOut => 1
                       case Exited => 0)
    case Consumer =>
      match th.pc
      case Worked => 9
      case WorkedOut => 8
      case Idle => 7
      case Token => 6
      case Inside => 5
      case Refused => 2
      case RefusedOut => 1
      case Exited => 0
  }

  function DropRank(d: DropPc): nat {
    match d
    case Before => 5
    case Holding => 4
    case Flagged => 3
    case PostedEmpty => 2
    case PostedFull => 1
    case Finished => 0
  }

  function Measure(s: State): nat {
    Total(Rank, s.threads) + 5 * |s.queue| + DropRank(s.dropper)
  }

  lemma ThreadDecreases(s: State, i: nat)
    requires i < |s.threads| && Enabled(s, i) && Safe(s, i) && ThreadOk(s.threads[i], s.dropped)
    ensures Rank(NewThread(s, i)) + 5 * |NewQueue(s, i)| < Rank(s.threads[i]) + 5 * |s.queue|
  {
  }

  lemma StepDecreases(c: Config, s: State, t: State)
    requires Good(c, s) && Next(c, s, t)
    ensures Measure(t) < Measure(s)
  {
    if DropEnabled(s) && t == DoDrop(s) {
    } else {
      var i: nat :| i < |s.threads| && Enabled(s, i) && Safe(s, i) && t == Do(s, i);
      ThreadDecreases(s, i);
      TotalChange(Rank, s.threads, t.threads, i);
    }
  }

  // ----- progress

  ghost predicate WorkerCanStep(s: State) {
    exists i: nat :: i < |s.threads| && Enabled(s, i)
  }

  ghost predicate AllExited(s: State) {
    forall i :: 0 <= i < |s.threads| ==> s.threads[i].pc == Exited
  }

  lemma GlobalHolderCanStep(c: Config, s: State)
    requires Good(c, s) && s.global == 0 && DropHolds(s.dropper) == 0
    ensures WorkerCanStep(s)
  {
    TotalPositive(HoldsGlobal, s.threads);
    var i :| 0 <= i < |s.threads| && HoldsGlobal(s.threads[i]) > 0;
    assert Enabled(s, i);
  }

  lemma OnlyIdleHoldNothing(s: State)
    requires forall i :: 0 <= i < |s.threads| ==> s.threads[i].pc == Idle || s.threads[i].pc == Exited
    ensures Total(HoldsEmpty, s.threads) == 0 && Total(HoldsFull, s.threads) == 0
  {
    TotalOfEqual(HoldsEmpty, s.threads, 0);
    TotalOfEqual(HoldsFull, s.threads, 0);
  }

  /** When no worker can step and global is free, the workers are idle or gone. */
  lemma StuckIsIdle(s: State)
    requires !WorkerCanStep(s) && s.global > 0
    ensures forall i :: 0 <= i < |s.threads| ==> s.threads[i].pc == Idle || s.threads[i].pc == Exited
  {
    forall i | 0 <= i < |s.threads| ensures s.threads[i].pc == Idle || s.threads[i].pc == Exited {
      assert !Enabled(s, i);
    }
  }

  /** The cascade cannot stall: after the drop some worker can step until all have exited. */
  lemma DroppedWorkersMove(c: Config, s: State)
    requires Good(c, s) && s.dropper == Finished && !AllExited(s)
    ensures WorkerCanStep(s)
  {
    if s.global == 0 {
      GlobalHolderCanStep(c, s);
    } else if !WorkerCanStep(s) {
      StuckIsIdle(s);
      OnlyIdleHoldNothing(s);
      ExactlyOnceInOrder(c.cap, s.trace);
      var i :| 0 <= i < |s.threads| && s.threads[i].pc != Exited;
      assert Enabled(s, i);
    }
  }

  /** All producers are done, the queue is empty and every consumer waits for a message. */
  ghost predicate Drained(s: State) {
    && s.queue == []
    && forall i :: 0 <= i < |s.threads| ==>
         if s.threads[i].role.Consumer? then s.threads[i].pc == Idle && s.full == 0 else s.threads[i].pc == Exited
  }

  // ----- the theorems

  /** The semaphores in every reachable state, and what they guarantee to a thread in its critical
      section. */
  lemma SemaphoreAccounting(c: Config, s: State)
    requires Reached(c, s)
    ensures s.empty + Total(HoldsEmpty, s.threads) == c.cap - |s.queue| + ExtraEmpty(s.dropper)
    ensures s.full + Total(HoldsFull, s.threads) == |s.queue| + ExtraFull(s.dropper)
    ensures |s.queue| <= c.cap
    ensures forall i :: 0 <= i < |s.threads| && s.threads[i].pc == Inside && !s.dropped ==>
              if s.threads[i].role.Consumer? then |s.queue| > 0 else |s.queue| < c.cap
    ensures forall i, j :: 0 <= i < j < |s.threads| ==>
              HoldsGlobal(s.threads[i]) + HoldsGlobal(s.threads[j]) <= 1
    ensures forall i :: 0 <= i < |s.threads| ==> HoldsGlobal(s.threads[i]) + DropHolds(s.dropper) <= 1
  {
    ReachedIsGood(c, s);
    ExactlyOnceInOrder(c.cap, s.trace);
    forall i | 0 <= i < |s.threads| ensures HoldsGlobal(s.threads[i]) + DropHolds(s.dropper) <= 1 {
      TotalAtLeast(HoldsGlobal, s.threads, i);
    }
    forall i | 0 <= i < |s.threads| && s.threads[i].pc == Inside && !s.dropped
      ensures if s.threads[i].role.Consumer? then |s.queue| > 0 else |s.queue| < c.cap {
      InsideFindsWhatItNeeds(c, s, i);
    }
    forall i, j | 0 <= i < j < |s.threads|
      ensures HoldsGlobal(s.threads[i]) + HoldsGlobal(s.threads[j]) <= 1 {
      TotalAtLeastTwo(HoldsGlobal, s.threads, i, j);
    }
  }

  /** Every run maps to a run of the abstract queue: its trace replays to the concrete contents. */
  lemma RefinesFifo(c: Config, s: State)
    requires Reached(c, s)
    ensures Replay(c.cap, s.trace) == Some(Fifo(s.queue, s.dropped))
    ensures Stored(s.trace) == Delivered(s.trace) + s.queue
  {
    ReachedIsGood(c, s);
    ExactlyOnceInOrder(c.cap, s.trace);
  }

  /** Every producer's messages are put in its own order, none skipped or repeated. */
  lemma ProducersKeepOrder(c: Config, s: State, i: nat)
    requires Reached(c, s) && i < |c.roles| && c.roles[i].Producer?
    ensures |s.threads| == |c.roles| && PutBy(i, s.trace) + Remaining(s.threads[i]) == c.roles[i].script
  {
    hide Accounts, Safe, Enabled, Do, DoDrop, Replay;
    StartIsGood(c);
    forall s, t | Good(c, s) && ScriptsFollowed(c, s) && Next(c, s, t) ensures Good(c, t) && ScriptsFollowed(c, t) {
      NextKeepsGood(c, s, t);
      if DropEnabled(s) && t == DoDrop(s) {
        DropFollowsScripts(c, s);
      } else {
        var k: nat :| k < |s.threads| && Enabled(s, k) && Safe(s, k) && t == Do(s, k);
        StepFollowsScripts(c, s, k);
      }
    }
    InvariantWhereReached(s => s == Start(c), (s, t) => Next(c, s, t),
                          s => Good(c, s) && ScriptsFollowed(c, s), s);
  }

  /** Steps only ever append one event, and only a thread inside its critical section or the dropper does. */
  lemma LinearisedAtCriticalSection(c: Config, s: State, t: State)
    requires Next(c, s, t)
    ensures s.trace <= t.trace && |t.trace| <= |s.trace| + 1
    ensures t.trace == s.trace ==> t.queue == s.queue && t.dropped == s.dropped
    ensures t.trace != s.trace && t.trace[|s.trace|] != Drop ==>
              exists i: nat :: i < |s.threads| && s.threads[i].pc == Inside && t.trace[|s.trace|] == EventOf(s, i)
                               && (t.threads[i].pc == Refused <==> s.dropped)
  {
  }

  /** Once the queue is flagged dropped, no operation changes it any more. */
  lemma NothingSucceedsAfterDrop(c: Config, s: State, t: State)
    requires s.dropped && Next(c, s, t)
    ensures t.dropped && t.queue == s.queue
    ensures Stored(t.trace) == Stored(s.trace) && Delivered(t.trace) == Delivered(s.trace)
  {
    if t.trace != s.trace {
      assert t.trace[..|t.trace| - 1] == s.trace;
    }
  }

  /** Without a drop, the workers come to rest exactly when the queue is drained. */
  lemma RestsIffDrained(c: Config, s: State)
    requires Reached(c, s) && s.dropper == Before
    requires c.cap > 0 && exists i :: 0 <= i < |c.roles| && c.roles[i].Consumer?
    ensures !WorkerCanStep(s) <==> Drained(s)
  {
    ReachedIsGood(c, s);
    if !WorkerCanStep(s) {
      if s.global == 0 { GlobalHolderCanStep(c, s); }
      StuckIsIdle(s);
      OnlyIdleHoldNothing(s);
      var k :| 0 <= k < |c.roles| && c.roles[k].Consumer?;
      assert ThreadOk(s.threads[k], s.dropped) && !Enabled(s, k);
      forall i | 0 <= i < |s.threads| && s.threads[i].role.Producer? ensures s.threads[i].pc == Exited {
        assert !Enabled(s, i);
      }
    }
  }

  /** Dropping ends everything: every run is bounded, and where nothing can step any more the drop is
      complete and every thread has exited. */
  lemma DropCascade(c: Config, r: seq<State>)
    requires Run(c, r)
    ensures |r| - 1 <= Measure(Start(c))
    ensures !DropEnabled(Last(r)) && !WorkerCanStep(Last(r)) ==> Last(r).dropper == Finished && AllExited(Last(r))
  {
    StartIsGood(c);
    forall s, t | Good(c, s) && Next(c, s, t) ensures Good(c, t) && Measure(t) < Measure(s) {
      NextKeepsGood(c, s, t);
      StepDecreases(c, s, t);
    }
    InvariantAlongRun(s => s == Start(c), (s, t) => Next(c, s, t), s => Good(c, s), r);
    MeasureBoundsRun(s => s == Start(c), (s, t) => Next(c, s, t), s => Good(c, s), Measure, r);
    var s := Last(r);
    assert Good(c, s);
    if !DropEnabled(s) && !WorkerCanStep(s) {
      if s.dropper == Before { GlobalHolderCanStep(c, s); }
      if !AllExited(s) { DroppedWorkersMove(c, s); }
    }
  }

  // ----- what an empty message costs: its put returns 0, and the producer stops as if refused

  // The script up to its first empty message.
  function Handed(script: seq<string>): seq<string> {
    if script == [] then []
    else if script[0] == "" then [""]
    else [script[0]] + Handed(script[1..])
  }

  lemma {:induction false} HandedWholeIff(script: seq<string>)
    ensures Handed(script) == script <==> forall k :: 0 <= k < |script| - 1 ==> script[k] != ""
  {
    if script == [] {
    } else {
      var rest := script[1..];
      assert script == [script[0]] + rest;
      assert forall k :: 0 <= k < |rest| ==> rest[k] == script[k + 1];
      HandedWholeIff(rest);
      if script[0] != "" {
        assert Handed(script)[1..] == Handed(rest);
        assert forall k :: 1 <= k < |script| ==> script[k] == rest[k - 1];
      }
    }
  }

  // What an undropped thread is still going to put.
  function WillPut(th: Thread): seq<string> {
    match th.role
    case Consumer => []
    case Producer(script) =>
      match th.pc
      case Exited => []
      case Worked | WorkedOut => if script == [] || script[0] == "" then [] else Handed(script[1..])
      case _ => Handed(script)
  }

  ghost predicate HandedOver(c: Config, s: State) {
    !s.dropped ==>
      && |s.threads| == |c.roles|
      && forall i: nat :: i < |s.threads| ==> PutBy(i, s.trace) + WillPut(s.threads[i]) == Handed(Script(c.roles[i]))
  }

  lemma ThreadHandsOver(s: State, i: nat)
    requires i < |s.threads| && !s.dropped && ThreadOk(s.threads[i], s.dropped) && Enabled(s, i)
    ensures var e := EventOf(s, i);
            if s.threads[i].pc == Inside && e.Put?
            then e.who == i && [e.msg] + WillPut(NewThread(s, i)) == WillPut(s.threads[i])
            else WillPut(NewThread(s, i)) == WillPut(s.threads[i])
  {
  }

  lemma StepHandsOver(c: Config, s: State, i: nat)
    requires HandedOver(c, s) && i < |s.threads| && Enabled(s, i) && Safe(s, i) && ThreadOk(s.threads[i], s.dropped)
    ensures HandedOver(c, Do(s, i))
  {
    hide NewThread, EventOf, WillPut, Handed, Script, PutBy, ThreadOk, Enabled, Safe, Do;
    var e, t := EventOf(s, i), Do(s, i);
    DoParts(s, i);
    if !s.dropped {
      ThreadHandsOver(s, i);
      forall j: nat | j < |s.threads|
        ensures PutBy(j, t.trace) + WillPut(t.threads[j]) == Handed(Script(c.roles[j])) {
        assert PutBy(j, s.trace) + WillPut(s.threads[j]) == Handed(Script(c.roles[j]));
        if s.threads[i].pc == Inside {
          PutFollowsScript(j, s.trace, e, WillPut(s.threads[j]), WillPut(t.threads[j]), Handed(Script(c.roles[j])));
        }
      }
    }
  }

  lemma NextHandsOver(c: Config, s: State, t: State)
    requires Good(c, s) && HandedOver(c, s) && Next(c, s, t)
    ensures HandedOver(c, t)
  {
    hide Accounts, Safe, Enabled, Do, Replay, HandedOver;
    if DropEnabled(s) && t == DoDrop(s) {
      DropHandsOver(c, s);
    } else {
      var k: nat :| k < |s.threads| && Enabled(s, k) && Safe(s, k) && t == Do(s, k);
      StepHandsOver(c, s, k);
    }
  }

  lemma DropHandsOver(c: Config, s: State)
    requires HandedOver(c, s) && DropEnabled(s)
    ensures HandedOver(c, DoDrop(s))
  {
    hide PutBy, WillPut, Handed;
  }

  lemma StartHandsOver(c: Config)
    ensures HandedOver(c, Start(c))
  {
  }

  lemma ReachedHandsOver(c: Config, s: State)
    requires Reached(c, s)
    ensures Good(c, s) && HandedOver(c, s)
  {
    hide Good, HandedOver, Next;
    StartIsGood(c);
    StartHandsOver(c);
    forall s, t | Good(c, s) && HandedOver(c, s) && Next(c, s, t) ensures Good(c, t) && HandedOver(c, t) {
      NextKeepsGood(c, s, t);
      NextHandsOver(c, s, t);
    }
    InvariantWhereReached(s => s == Start(c), (s, t) => Next(c, s, t), s => Good(c, s) && HandedOver(c, s), s);
  }

  ghost predicate HasConsumer(c: Config) {
    exists i :: 0 <= i < |c.roles| && c.roles[i].Consumer?
  }

  /** At rest without a drop everything put was delivered, and every producer has put its script up to its
      first empty message. */
  lemma RestDeliversAll(c: Config, s: State)
    requires Reached(c, s) && s.dropper == Before && !WorkerCanStep(s) && c.cap > 0 && HasConsumer(c)
    ensures Stored(s.trace) == Delivered(s.trace)
    ensures forall i: nat :: i < |c.roles| && c.roles[i].Producer? ==> PutBy(i, s.trace) == Handed(c.roles[i].script)
  {
    hide Reached, WorkerCanStep, PutBy, Handed, Accounts;
    RestsIffDrained(c, s);
    RefinesFifo(c, s);
    ReachedHandsOver(c, s);
    forall i: nat | i < |c.roles| && c.roles[i].Producer?
      ensures PutBy(i, s.trace) == Handed(c.roles[i].script) {
      assert PutBy(i, s.trace) + WillPut(s.threads[i]) == Handed(Script(c.roles[i]));
      assert WillPut(s.threads[i]) == [];
    }
  }

  lemma {:induction false} RunToRest(c: Config, s: State) returns (t: State)
    requires Reached(c, s) && s.dropper == Before
    ensures Reached(c, t) && t.dropper == Before && !WorkerCanStep(t)
    decreases Measure(s)
  {
    hide Reached, Good, Measure, Enabled, Safe;
    if i: nat :| i < |s.threads| && Enabled(s, i) {
      ReachedIsGood(c, s);
      InsideFindsWhatItNeeds(c, s, i);
      var u := Do(s, i);
      assert Next(c, s, u);
      StepDecreases(c, s, u);
      ReachedNext(c, s, u);
      t := RunToRest(c, u);
    } else {
      t := s;
    }
  }

  lemma ReachedNext(c: Config, s: State, t: State)
    requires Reached(c, s) && Next(c, s, t)
    ensures Reached(c, t)
  {
    ReachStep(s => s == Start(c), (s, t) => Next(c, s, t), s, t);
  }

  ghost predicate PutsWhole(c: Config, s: State) {
    forall i: nat :: i < |c.roles| && c.roles[i].Producer? ==> PutBy(i, s.trace) == c.roles[i].script
  }

  ghost predicate EmptyOnlyLast(c: Config) {
    forall i: nat :: i < |c.roles| && c.roles[i].Producer? ==>
      forall k :: 0 <= k < |c.roles[i].script| - 1 ==> c.roles[i].script[k] != ""
  }

  lemma PutsWholeIff(c: Config, s: State)
    requires Reached(c, s) && s.dropper == Before && !WorkerCanStep(s) && c.cap > 0 && HasConsumer(c)
    ensures PutsWhole(c, s) <==> EmptyOnlyLast(c)
  {
    hide Reached, WorkerCanStep, PutBy, Handed, HasConsumer;
    RestDeliversAll(c, s);
    forall i: nat | i < |c.roles| && c.roles[i].Producer?
      ensures Handed(c.roles[i].script) == c.roles[i].script
              <==> forall k :: 0 <= k < |c.roles[i].script| - 1 ==> c.roles[i].script[k] != "" {
      HandedWholeIff(c.roles[i].script);
    }
  }

  /** With an empty message before the last one of a script, a rest is reached in which something was never
      put. */
  lemma EmptyMessageStopsProducer(c: Config) returns (s: State)
    requires c.cap > 0 && HasConsumer(c) && !EmptyOnlyLast(c)
    ensures Reached(c, s) && s.dropper == Before && !WorkerCanStep(s) && !PutsWhole(c, s)
  {
    hide Reached, WorkerCanStep, HasConsumer, EmptyOnlyLast, PutsWhole;
    StartIsReached(c);
    s := RunToRest(c, Start(c));
    PutsWholeIff(c, s);
  }

  /** Every undropped rest has all scripts put whole, if and only if no script holds an empty message before
      its last one. */
  lemma RestPutsAllIff(c: Config)
    requires c.cap > 0 && HasConsumer(c)
    ensures (forall s :: Reached(c, s) && s.dropper == Before && !WorkerCanStep(s) ==> PutsWhole(c, s))
            <==> EmptyOnlyLast(c)
  {
    hide Reached, WorkerCanStep, HasConsumer, EmptyOnlyLast, PutsWhole;
    if EmptyOnlyLast(c) {
      forall s | Reached(c, s) && s.dropper == Before && !WorkerCanStep(s) ensures PutsWhole(c, s) {
        PutsWholeIff(c, s);
      }
    } else {
      var s := EmptyMessageStopsProducer(c);
    }
  }

  lemma StartIsReached(c: Config)
    ensures Reached(c, Start(c)) && Start(c).dropper == Before
  {
    ReachStart(s => s == Start(c), (s, t) => Next(c, s, t), Start(c));
  }
}
