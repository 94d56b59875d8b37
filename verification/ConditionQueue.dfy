/** The message queue with one mutex and one condition variable shared by producers and consumers. A put
    into an empty queue and a get from a full one broadcast; so does the drop. */
module ConditionQueue {
  import opened Wrappers
  import opened Runs
  import opened BoundedFifo

  datatype Pc =
    | Outside                   // before lock(mutex)
    | Checking                  // holds mutex, before the test of the wait loop
    | Waiting(notified: bool)   // inside cond_wait
    | Inside                    // holds mutex, past the wait loop
    | Leaving(ok: bool)         // holds mutex, before unlock; ok: the call returns 1
    | Exited

  datatype Thread = Thread(role: Role, pc: Pc)

  datatype DropPc = Before | Holding | Flagged | Announced | Finished

  // Who holds the mutex.
  datatype Owner = Nobody | Worker(i: nat) | Dropper

  // spurious says whether cond_wait may also return without a broadcast.
  datatype Config = Config(cap: nat, roles: seq<Role>, spurious: bool)

  datatype State = State(
    mutex: Owner, queue: seq<string>, mesCount: int, dropped: bool,
    dropper: DropPc, threads: seq<Thread>,
    trace: seq<Event>)

  function Start(c: Config): State {
    State(Nobody, [], 0, false, Before,
          seq(|c.roles|, i requires 0 <= i < |c.roles| => Thread(c.roles[i], Outside)), [])
  }

  // ----- the step relation

  predicate Enabled(spurious: bool, s: State, i: nat)
    requires i < |s.threads|
  {
    var th := s.threads[i];
    match th.pc
    case Outside => th.role == Producer([]) || s.mutex == Nobody
    case Waiting(notified) => (notified || spurious) && s.mutex == Nobody
    case Exited => false
    case _ => true
  }

  predicate MustWait(cap: nat, s: State, r: Role) {
    !s.dropped && if r.Consumer? then s.mesCount == 0 else s.mesCount >= cap
  }

  function NewThread(cap: nat, s: State, i: nat): Thread
    requires i < |s.threads|
  {
    var th := s.threads[i];
    match th.pc
    case Outside => th.(pc := if th.role == Producer([]) then Exited else Checking)
    case Checking => th.(pc := if MustWait(cap, s, th.role) then Waiting(false) else Inside)
    case Waiting(_) => th.(pc := Checking)
    case Inside =>
      if s.dropped then th.(pc := Leaving(false))
      else
        var rest := if th.role.Producer? && th.role.script != [] then Producer(th.role.script[1..]) else th.role;
        Thread(rest, Leaving(true))
    case Leaving(ok) => th.(pc := if ok then Outside else Exited)
    case Exited => th
  }

  function NewMutex(cap: nat, s: State, i: nat): Owner
    requires i < |s.threads|
  {
    var th := s.threads[i];
    match th.pc
    case Outside => if th.role == Producer([]) then s.mutex else Worker(i)
    case Waiting(_) => Worker(i)
    case Checking => if MustWait(cap, s, th.role) then Nobody else s.mutex
    case Leaving(_) => Nobody
    case _ => s.mutex
  }

  // The operation of the critical section.
  function EventOf(s: State, i: nat): Event
    requires i < |s.threads|
  {
    match s.threads[i].role
    case Producer(script) =>
      if s.dropped then PutRefused(i) else Put(i, if script == [] then "" else script[0])
    case Consumer =>
      if s.dropped || s.queue == [] then GetRefused(i) else Got(i, s.queue[0])
  }

  predicate Works(s: State, i: nat)
    requires i < |s.threads|
  {
    s.threads[i].pc == Inside && !s.dropped
  }

  function NewQueue(s: State, i: nat): seq<string>
    requires i < |s.threads|
    requires Works(s, i) && s.threads[i].role.Consumer? ==> |s.queue| > 0
  {
    if !Works(s, i) then s.queue
    else match s.threads[i].role
         case Producer(script) => s.queue + [Cut(if script == [] then "" else script[0])]
         case Consumer => s.queue[1..]
  }

  function NewCount(s: State, i: nat): int
    requires i < |s.threads|
  {
    if !Works(s, i) then s.mesCount
    else if s.threads[i].role.Consumer? then s.mesCount - 1 else s.mesCount + 1
  }

  predicate Broadcasts(cap: nat, s: State, i: nat)
    requires i < |s.threads|
  {
    Works(s, i) && s.mesCount == if s.threads[i].role.Consumer? then cap else 0
  }

  function WakeOne(th: Thread): Thread {
    if th.pc.Waiting? then th.(pc := Waiting(true)) else th
  }

  // A get that found no message would dereference a null tail.
  predicate Safe(s: State, i: nat)
    requires i < |s.threads|
  {
    Works(s, i) && s.threads[i].role.Consumer? ==> |s.queue| > 0
  }

  function Do(cap: nat, s: State, i: nat): State
    requires i < |s.threads| && Safe(s, i)
  {
    var ts := s.threads[i := NewThread(cap, s, i)];
    State(NewMutex(cap, s, i), NewQueue(s, i), NewCount(s, i), s.dropped, s.dropper,
          if Broadcasts(cap, s, i) then Mapped(WakeOne, ts) else ts,
          if s.threads[i].pc == Inside then s.trace + [EventOf(s, i)] else s.trace)
  }

  predicate DropEnabled(s: State) {
    match s.dropper
    case Before => s.mutex == Nobody
    case Finished => false
    case _ => true
  }

  function DoDrop(s: State): State {
    match s.dropper
    case Before => s.(mutex := Dropper, dropper := Holding)
    case Holding => s.(dropped := true, trace := s.trace + [Drop], dropper := Flagged)
    case Flagged => s.(threads := Mapped(WakeOne, s.threads), dropper := Announced)
    case Announced => s.(mutex := Nobody, dropper := Finished)
    case Finished => s
  }

  ghost predicate Next(c: Config, s: State, t: State) {
    || (DropEnabled(s) && t == DoDrop(s))
    || (exists i: nat :: i < |s.threads| && Enabled(c.spurious, s, i) && Safe(s, i) && t == Do(c.cap, s, i))
  }

  ghost predicate Run(c: Config, r: seq<State>) {
    IsRun(s => s == Start(c), (s, t) => Next(c, s, t), r)
  }

  ghost predicate Reached(c: Config, s: State) {
    Reachable(s => s == Start(c), (s, t) => Next(c, s, t), s)
  }

  // ----- invariants

  predicate HoldsMutex(pc: Pc) { pc.Checking? || pc.Inside? || pc.Leaving? }

  predicate DropHolds(d: DropPc) { !d.Before? && !d.Finished? }

  ghost predicate MutexInv(s: State) {
    && (forall i: nat :: i < |s.threads| ==> (HoldsMutex(s.threads[i].pc) <==> s.mutex == Worker(i)))
    && (DropHolds(s.dropper) <==> s.mutex == Dropper)
    && (s.mutex.Worker? ==> s.mutex.i < |s.threads|)
    && (s.dropped <==> !s.dropper.Before? && !s.dropper.Holding?)
  }

  // Why an unnotified waiter is right to be asleep.
  predicate RightToSleep(cap: nat, s: State, r: Role) {
    (!s.dropped || s.dropper == Flagged) && s.mesCount == if r.Consumer? then 0 else cap
  }

  ghost predicate SleepInv(cap: nat, s: State) {
    forall i :: 0 <= i < |s.threads| && s.threads[i].pc == Waiting(false) ==> RightToSleep(cap, s, s.threads[i].role)
  }

  predicate ThreadOk(cap: nat, s: State, th: Thread) {
    && (th.role == Producer([]) ==> th.pc.Outside? || th.pc.Leaving? || th.pc.Exited?)
    && (th.pc == Inside ==> !MustWait(cap, s, th.role))
    && (th.pc == Leaving(false) ==> s.dropped)
    && (th.pc == Exited && th.role != Producer([]) ==> s.dropped)
  }

  ghost predicate ThreadsOk(c: Config, s: State) {
    && |s.threads| == |c.roles|
    && (forall i :: 0 <= i < |s.threads| ==> ThreadOk(c.cap, s, s.threads[i]))
    && (forall i :: 0 <= i < |s.threads| ==> (s.threads[i].role.Consumer? <==> c.roles[i].Consumer?))
  }

  ghost predicate Good(c: Config, s: State) {
    && MutexInv(s) && SleepInv(c.cap, s) && ThreadsOk(c, s)
    && s.mesCount == |s.queue|
    && Replay(c.cap, s.trace) == Some(Fifo(s.queue, s.dropped))
  }

  lemma StartIsGood(c: Config)
    ensures Good(c, Start(c))
  {
  }

  // What a step does to the threads, one at a time.
  ghost predicate Moved(cap: nat, s: State, i: nat, t: State) {
    && i < |s.threads| == |t.threads|
    && t.threads[i] == NewThread(cap, s, i)
    && (forall j :: 0 <= j < |s.threads| && j != i ==>
          t.threads[j] == if Broadcasts(cap, s, i) then WakeOne(s.threads[j]) else s.threads[j])
    && t.dropped == s.dropped && t.dropper == s.dropper && t.mesCount == NewCount(s, i)
  }

  lemma StepMoves(cap: nat, s: State, i: nat)
    requires i < |s.threads| && Safe(s, i)
    ensures Moved(cap, s, i, Do(cap, s, i))
  {
  }

  lemma StepKeepsMutex(c: Config, s: State, i: nat, t: State)
    requires MutexInv(s) && Moved(c.cap, s, i, t) && Enabled(c.spurious, s, i)
    requires t.mutex == NewMutex(c.cap, s, i)
    ensures MutexInv(t)
  {
  }

  /** No wake-up is lost: an operation that ends a reason to sleep broadcasts. */
  lemma StepKeepsSleep(c: Config, s: State, i: nat, t: State)
    requires c.cap > 0 && MutexInv(s) && SleepInv(c.cap, s) && ThreadsOk(c, s)
    requires 0 <= s.mesCount <= c.cap && Moved(c.cap, s, i, t) && Enabled(c.spurious, s, i)
    ensures SleepInv(c.cap, t)
  {
  }

  lemma StepKeepsThreads(c: Config, s: State, i: nat, t: State)
    requires MutexInv(s) && ThreadsOk(c, s) && Moved(c.cap, s, i, t) && Enabled(c.spurious, s, i)
    ensures ThreadsOk(c, t)
  {
  }

  lemma InsideFindsWhatItNeeds(c: Config, s: State, i: nat)
    requires Good(c, s) && i < |s.threads|
    ensures Safe(s, i)
    ensures Works(s, i) && s.threads[i].role.Producer? ==> |s.queue| < c.cap
  {
    assert ThreadOk(c.cap, s, s.threads[i]);
  }

  lemma StepRefines(c: Config, s: State, i: nat)
    requires Good(c, s) && i < |s.threads| && Safe(s, i)
    ensures var t := Do(c.cap, s, i);
            t.mesCount == |t.queue| && Replay(c.cap, t.trace) == Some(Fifo(t.queue, t.dropped))
  {
    InsideFindsWhatItNeeds(c, s, i);
    if s.threads[i].pc == Inside {
      ReplayOne(c.cap, s.trace, EventOf(s, i));
    }
  }

  lemma StepKeepsGood(c: Config, s: State, i: nat)
    requires c.cap > 0 && Good(c, s) && i < |s.threads| && Enabled(c.spurious, s, i) && Safe(s, i)
    ensures Good(c, Do(c.cap, s, i))
  {
    var t := Do(c.cap, s, i);
    StepMoves(c.cap, s, i);
    ExactlyOnceInOrder(c.cap, s.trace);
    StepKeepsMutex(c, s, i, t);
    StepKeepsSleep(c, s, i, t);
    StepKeepsThreads(c, s, i, t);
    StepRefines(c, s, i);
  }

  lemma DropKeepsGood(c: Config, s: State)
    requires Good(c, s) && DropEnabled(s)
    ensures Good(c, DoDrop(s))
  {
    ReplayOne(c.cap, s.trace, Drop);
  }

  lemma NextKeepsGood(c: Config, s: State, t: State)
    requires c.cap > 0 && Good(c, s) && Next(c, s, t)
    ensures Good(c, t)
  {
    if DropEnabled(s) && t == DoDrop(s) {
      DropKeepsGood(c, s);
    } else {
      var i: nat :| i < |s.threads| && Enabled(c.spurious, s, i) && Safe(s, i) && t == Do(c.cap, s, i);
      StepKeepsGood(c, s, i);
    }
  }

  lemma ReachedIsGood(c: Config, s: State)
    requires c.cap > 0 && Reached(c, s)
    ensures Good(c, s)
  {
    StartIsGood(c);
    forall s, t | Good(c, s) && Next(c, s, t) ensures Good(c, t) {
      NextKeepsGood(c, s, t);
    }
    InvariantWhereReached(s => s == Start(c), (s, t) => Next(c, s, t), s => Good(c, s), s);
  }

  // ----- the producers' scripts

  ghost predicate ScriptsFollowed(c: Config, s: State) {
    |s.threads| == |c.roles| &&
    forall i: nat :: i < |s.threads| ==> PutBy(i, s.trace) + Script(s.threads[i].role) == Script(c.roles[i])
  }

  lemma ThreadFollowsScript(cap: nat, s: State, i: nat)
    requires i < |s.threads| && ThreadOk(cap, s, s.threads[i])
    ensures var e := EventOf(s, i);
            if s.threads[i].pc == Inside && e.Put?
            then e.who == i && [e.msg] + Script(NewThread(cap, s, i).role) == Script(s.threads[i].role)
            else Script(NewThread(cap, s, i).role) == Script(s.threads[i].role)
  {
  }

  lemma StepFollowsScripts(c: Config, s: State, i: nat)
    requires ScriptsFollowed(c, s) && i < |s.threads| && Safe(s, i) && ThreadOk(c.cap, s, s.threads[i])
    ensures ScriptsFollowed(c, Do(c.cap, s, i))
  {
    hide NewThread, EventOf, Script, PutBy, ThreadOk, Broadcasts;
    var e, t := EventOf(s, i), Do(c.cap, s, i);
    ThreadFollowsScript(c.cap, s, i);
    StepMoves(c.cap, s, i);
    assert t.trace == if s.threads[i].pc == Inside then s.trace + [e] else s.trace;
    forall j: nat | j < |s.threads|
      ensures PutBy(j, t.trace) + Script(t.threads[j].role) == Script(c.roles[j]) {
      assert PutBy(j, s.trace) + Script(s.threads[j].role) == Script(c.roles[j]);
      if j != i { assert t.threads[j].role == s.threads[j].role; }
      if s.threads[i].pc == Inside {
        var before, after := Script(s.threads[j].role), Script(t.threads[j].role);
        PutFollowsScript(j, s.trace, e, before, after, Script(c.roles[j]));
      }
    }
  }

  lemma DropFollowsScripts(c: Config, s: State)
    requires ScriptsFollowed(c, s) && DropEnabled(s)
    ensures ScriptsFollowed(c, DoDrop(s))
  {
    hide PutBy, Script;
    var t := DoDrop(s);
    assert |t.threads| == |s.threads| && forall j :: 0 <= j < |s.threads| ==> t.threads[j].role == s.threads[j].role;
    assert t.trace == s.trace || t.trace == s.trace + [Drop];
    forall j: nat | j < |s.threads| ensures PutBy(j, t.trace) + Script(t.threads[j].role) == Script(c.roles[j]) {
      assert PutBy(j, s.trace) + Script(s.threads[j].role) == Script(c.roles[j]);
      PutByOne(j, s.trace, Drop);
    }
  }

  // ----- termination: with n threads a broadcast raises the measure by at most 2n

  function Rank(n: nat, th: Thread): nat {
    (4 * n + 10) * |Script(th.role)| +
    match th.pc
    case Leaving(ok) => if ok then 6 else 1
    case Outside => 5
    case Waiting(notified) => if notified then 5 else 3
    case Checking => 4
    case Inside => 2
    case Exited => 0
  }

  function DropRank(n: nat, d: DropPc): nat {
    match d
    case Before => 2 * n + 4
    case Holding => 2 * n + 3
    case Flagged => 2 * n + 2
    case Announced => 1
    case Finished => 0
  }

  function Ranks(n: nat, ts: seq<Thread>): nat {
    Total((th: Thread) => Rank(n, th), ts)
  }

  function Measure(s: State): nat {
    var n := |s.threads|;
    Ranks(n, s.threads) + (2 * n + 5) * |s.queue| + DropRank(n, s.dropper)
  }

  lemma {:induction false} WakingCosts(n: nat, ts: seq<Thread>)
    ensures Ranks(n, ts) <= Ranks(n, Mapped(WakeOne, ts)) <= Ranks(n, ts) + 2 * |ts|
  {
    if ts == [] {
    } else {
      assert Mapped(WakeOne, ts)[1..] == Mapped(WakeOne, ts[1..]);
      WakingCosts(n, ts[1..]);
    }
  }

  lemma OneMore(a: nat, b: nat)
    ensures a * (b + 1) == a * b + a
  {
  }

  // The stepping thread's own rank and the queue's weight pay for a broadcast.
  lemma ThreadDecreases(n: nat, cap: nat, s: State, i: nat)
    requires i < |s.threads| && Enabled(false, s, i) && Safe(s, i) && ThreadOk(cap, s, s.threads[i])
    ensures Rank(n, NewThread(cap, s, i)) + (2 * n + 5) * |NewQueue(s, i)| + (if Works(s, i) then 2 * n else 0)
            < Rank(n, s.threads[i]) + (2 * n + 5) * |s.queue|
  {
    if Works(s, i) {
      if s.threads[i].role.Producer? {
        OneMore(2 * n + 5, |s.queue|);
        OneMore(4 * n + 10, |s.threads[i].role.script| - 1);
      } else {
        OneMore(2 * n + 5, |s.queue| - 1);
      }
    }
  }

  lemma StepDecreases(c: Config, s: State, i: nat)
    requires i < |s.threads| && Enabled(false, s, i) && Safe(s, i) && ThreadOk(c.cap, s, s.threads[i])
    ensures Measure(Do(c.cap, s, i)) < Measure(s)
  {
    hide Rank, NewThread, NewQueue, ThreadOk, Safe, Enabled;
    var n := |s.threads|;
    var ts := s.threads[i := NewThread(c.cap, s, i)];
    ThreadDecreases(n, c.cap, s, i);
    TotalChange((th: Thread) => Rank(n, th), s.threads, ts, i);
    WakingCosts(n, ts);
  }

  lemma DropDecreases(s: State)
    requires DropEnabled(s)
    ensures Measure(DoDrop(s)) < Measure(s)
  {
    WakingCosts(|s.threads|, s.threads);
  }

  /** Only a spurious return before the drop can set the program back. */
  lemma NextDecreases(c: Config, s: State, t: State)
    requires Good(c, s) && Next(c, s, t) && (!c.spurious || s.dropped)
    ensures Measure(t) < Measure(s)
  {
    if DropEnabled(s) && t == DoDrop(s) {
      DropDecreases(s);
    } else {
      var i: nat :| i < |s.threads| && Enabled(c.spurious, s, i) && Safe(s, i) && t == Do(c.cap, s, i);
      assert s.threads[i].pc != Waiting(false) || !s.dropped || s.dropper == Flagged;
      StepDecreases(c, s, i);
    }
  }

  // ----- progress, counting on no spurious return

  ghost predicate WorkerCanStep(s: State) {
    exists i: nat :: i < |s.threads| && Enabled(false, s, i)
  }

  ghost predicate AllExited(s: State) {
    forall i :: 0 <= i < |s.threads| ==> s.threads[i].pc == Exited
  }

  lemma MutexHolderCanStep(s: State)
    requires MutexInv(s) && s.mutex.Worker?
    ensures WorkerCanStep(s)
  {
    assert HoldsMutex(s.threads[s.mutex.i].pc);
    assert Enabled(false, s, s.mutex.i);
  }

  lemma StuckIsAsleep(s: State)
    requires MutexInv(s) && !WorkerCanStep(s) && s.mutex != Dropper
    ensures s.mutex == Nobody
    ensures forall i :: 0 <= i < |s.threads| ==> s.threads[i].pc == Waiting(false) || s.threads[i].pc == Exited
  {
    if s.mutex.Worker? { MutexHolderCanStep(s); }
    forall i | 0 <= i < |s.threads| ensures s.threads[i].pc == Waiting(false) || s.threads[i].pc == Exited {
      assert !Enabled(false, s, i);
    }
  }

  /** All producers are done, the queue is empty and every consumer sleeps unnotified. */
  ghost predicate Drained(s: State) {
    && s.queue == []
    && forall i :: 0 <= i < |s.threads| ==>
         s.threads[i].pc == if s.threads[i].role.Consumer? then Waiting(false) else Exited
  }

  // ----- the theorems

  /** In every reachable state, spurious returns or not: whoever sleeps unnotified has a reason to, unless
      the dropper is on its way to wake it; producers and consumers never sleep at the same time. */
  lemma NoLostWakeUp(c: Config, s: State, i: nat, j: nat)
    requires c.cap > 0 && Reached(c, s) && i < |s.threads| && j < |s.threads|
    ensures s.threads[i] == Thread(Consumer, Waiting(false)) ==>
              s.mesCount == 0 && (s.dropped ==> s.mutex == Dropper)
    ensures s.threads[i].role.Producer? && s.threads[i].pc == Waiting(false) ==>
              s.mesCount == c.cap && (s.dropped ==> s.mutex == Dropper)
    ensures s.threads[i].pc == Waiting(false) && s.threads[j].pc == Waiting(false) ==>
              (s.threads[i].role.Consumer? <==> s.threads[j].role.Consumer?)
  {
    ReachedIsGood(c, s);
  }

  /** Sleepers are notified exactly when the queue gets its first message, when it is no longer full, and when
      the drop announces itself. */
  lemma NotifiedIff(c: Config, s: State, t: State, j: nat)
    requires c.cap > 0 && Reached(c, s) && Next(c, s, t) && j < |s.threads| && s.threads[j].pc == Waiting(false)
    ensures j < |t.threads|
    ensures t.threads[j].pc == Waiting(true)
            <==> || (s.mesCount == 0 && t.mesCount == 1)
                 || (s.mesCount == c.cap && t.mesCount == c.cap - 1)
                 || (s.dropper == Flagged && t.dropper == Announced)
  {
    hide SleepInv, Replay;
    ReachedIsGood(c, s);
    ExactlyOnceInOrder(c.cap, s.trace);
    if i: nat :| i < |s.threads| && Enabled(c.spurious, s, i) && Safe(s, i) && t == Do(c.cap, s, i) {
      StepMoves(c.cap, s, i);
      InsideFindsWhatItNeeds(c, s, i);
    }
  }

  /** Every run maps to a run of the abstract queue: its trace replays to the concrete contents. */
  lemma RefinesFifo(c: Config, s: State)
    requires c.cap > 0 && Reached(c, s)
    ensures Replay(c.cap, s.trace) == Some(Fifo(s.queue, s.dropped))
    ensures Stored(s.trace) == Delivered(s.trace) + s.queue
    ensures s.mesCount == |s.queue| <= c.cap
  {
    ReachedIsGood(c, s);
    ExactlyOnceInOrder(c.cap, s.trace);
  }

  /** Every producer's messages are put in its own order, none skipped or repeated. */
  lemma ProducersKeepOrder(c: Config, s: State, i: nat)
    requires c.cap > 0 && Reached(c, s) && i < |c.roles| && c.roles[i].Producer?
    ensures |s.threads| == |c.roles| && s.threads[i].role.Producer?
    ensures PutBy(i, s.trace) + s.threads[i].role.script == c.roles[i].script
  {
    StartIsGood(c);
    forall s, t | Good(c, s) && ScriptsFollowed(c, s) && Next(c, s, t) ensures Good(c, t) && ScriptsFollowed(c, t) {
      NextKeepsGood(c, s, t);
      if DropEnabled(s) && t == DoDrop(s) {
        DropFollowsScripts(c, s);
      } else {
        var k: nat :| k < |s.threads| && Enabled(c.spurious, s, k) && Safe(s, k) && t == Do(c.cap, s, k);
        StepFollowsScripts(c, s, k);
      }
    }
    InvariantWhereReached(s => s == Start(c), (s, t) => Next(c, s, t),
                          s => Good(c, s) && ScriptsFollowed(c, s), s);
  }

  /** Steps append at most one event, inside the critical section, and the call's result agrees with it. */
  lemma LinearisedAtCriticalSection(c: Config, s: State, t: State)
    requires Next(c, s, t)
    ensures s.trace <= t.trace && |t.trace| <= |s.trace| + 1
    ensures t.trace == s.trace ==> t.queue == s.queue && t.dropped == s.dropped
    ensures t.trace != s.trace && t.trace[|s.trace|] != Drop ==>
              exists i: nat :: i < |s.threads| && s.threads[i].pc == Inside && t.trace[|s.trace|] == EventOf(s, i)
                               && t.threads[i].pc == Leaving(!s.dropped)
  {
  }

  /** Without a drop, the workers come to rest exactly when the queue is drained. */
  lemma RestsIffDrained(c: Config, s: State)
    requires c.cap > 0 && Reached(c, s) && s.dropper == Before
    requires exists i :: 0 <= i < |c.roles| && c.roles[i].Consumer?
    ensures !WorkerCanStep(s) <==> Drained(s)
  {
    ReachedIsGood(c, s);
    if !WorkerCanStep(s) {
      StuckIsAsleep(s);
      var k :| 0 <= k < |c.roles| && c.roles[k].Consumer?;
      assert ThreadOk(c.cap, s, s.threads[k]) && s.threads[k].pc == Waiting(false);
      forall i | 0 <= i < |s.threads|
        ensures s.threads[i].pc == if s.threads[i].role.Consumer? then Waiting(false) else Exited {
        assert ThreadOk(c.cap, s, s.threads[i]);
      }
    }
  }

  /** Dropping ends everything. Without spurious returns every run is bounded from the start; with them it
      is bounded from the drop on; and where nothing can step any more every thread has exited. */
  lemma DropEndsEverything(c: Config, r: seq<State>, k: nat)
    requires c.cap > 0 && Run(c, r) && k < |r|
    ensures !c.spurious ==> |r| - 1 <= Measure(Start(c))
    ensures r[k].dropped ==> |r| - 1 <= k + Measure(r[k])
    ensures !DropEnabled(Last(r)) && !WorkerCanStep(Last(r)) ==> Last(r).dropper == Finished && AllExited(Last(r))
  {
    StartIsGood(c);
    forall s, t | Good(c, s) && Next(c, s, t) ensures Good(c, t) {
      NextKeepsGood(c, s, t);
    }
    InvariantAlongRun(s => s == Start(c), (s, t) => Next(c, s, t), s => Good(c, s), r);
    forall s, t | Good(c, s) && (!c.spurious || s.dropped) && Next(c, s, t) ensures Measure(t) < Measure(s) {
      NextDecreases(c, s, t);
    }
    if !c.spurious {
      MeasureBoundsRun(s => s == Start(c), (s, t) => Next(c, s, t), s => Good(c, s), Measure, r);
    }
    if r[k].dropped {
      BoundedAfterDrop(c, r, k);
    }
    var s := Last(r);
    assert Good(c, s);
    if !DropEnabled(s) && !WorkerCanStep(s) {
      StuckIsAsleep(s);
    }
  }

  lemma BoundedAfterDrop(c: Config, r: seq<State>, k: nat)
    requires forall i :: 0 <= i < |r| - 1 ==> Next(c, r[i], r[i + 1])
    requires forall i :: 0 <= i < |r| ==> Good(c, r[i])
    requires k < |r| && r[k].dropped
    ensures |r| - 1 <= k + Measure(r[k])
  {
    var q := r[k..];
    var init := s => s == r[k];
    forall i | 0 <= i < |q| - 1 ensures Next(c, q[i], q[i + 1]) {
      assert Next(c, r[k + i], r[k + i + 1]);
    }
    assert IsRun(init, (s, t) => Next(c, s, t), q);
    InvariantAlongRun(init, (s, t) => Next(c, s, t), (s: State) => s.dropped, q);
    forall s, t | (Good(c, s) && s.dropped) && Next(c, s, t) ensures Measure(t) < Measure(s) {
      NextDecreases(c, s, t);
    }
    MeasureBoundsRun(init, (s, t) => Next(c, s, t), s => Good(c, s) && s.dropped, Measure, q);
  }

  /** Nothing is lost: at rest without a drop every producer has put its whole script, and everything put was
      delivered. */
  lemma RestDeliversAll(c: Config, s: State)
    requires c.cap > 0 && Reached(c, s) && s.dropper == Before && !WorkerCanStep(s)
    requires exists i :: 0 <= i < |c.roles| && c.roles[i].Consumer?
    ensures Stored(s.trace) == Delivered(s.trace)
    ensures forall i: nat :: i < |c.roles| && c.roles[i].Producer? ==> PutBy(i, s.trace) == c.roles[i].script
  {
    hide Reached, WorkerCanStep, PutBy;
    RestsIffDrained(c, s);
    RefinesFifo(c, s);
    forall i: nat | i < |c.roles| && c.roles[i].Producer? ensures PutBy(i, s.trace) == c.roles[i].script {
      ProducersKeepOrder(c, s, i);
      ExitedHasPutAll(c, s, i);
    }
  }

  lemma ExitedHasPutAll(c: Config, s: State, i: nat)
    requires c.cap > 0 && Reached(c, s) && s.dropper == Before && i < |s.threads|
    requires s.threads[i].role.Producer? && s.threads[i].pc == Exited
    ensures s.threads[i].role.script == []
  {
    ReachedIsGood(c, s);
    assert ThreadOk(c.cap, s, s.threads[i]);
  }
}
