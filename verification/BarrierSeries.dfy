/** The series summed until interrupted. Threads work in blocks; once the flag is up each finishes its
    block, offers its count to a shared maximum, meets the others at a barrier and then catches up to the
    maximum. */
module BarrierSeries {
  import opened Wrappers
  import opened Runs
  import opened Series

  datatype Pc =
    | Running     // in the block loop
    | WantMutex   // block finished with the flag up, before lock
    | InMutex     // before the comparison with max_iter
    | Updated     // before unlock
    | Arriving    // before barrier_wait
    | AtBarrier   // inside barrier_wait
    | CatchUp     // in the catch-up loop
    | Done

  // i: the loop's index; comIter: terms counted; stop: comIter when the block loop was left.
  datatype Thread = Thread(pc: Pc, i: nat, iterations: nat, comIter: nat, pi: real, stop: nat)

  // block is the number of iterations between two looks at the flag.
  datatype Config = Config(threads: nat, block: nat)

  datatype State = State(flag: bool, maxIter: nat, mutex: Option<nat>, arrived: nat, ts: seq<Thread>)

  function Start(c: Config): State {
    State(false, 0, None, 0, seq(c.threads, i requires 0 <= i < c.threads => Thread(Running, i, 0, 0, 0.0, 0)))
  }

  // ----- the step relation

  predicate Enabled(s: State, o: nat)
    requires o < |s.ts|
  {
    match s.ts[o].pc
    case WantMutex => s.mutex == None
    case AtBarrier => s.arrived == |s.ts|
    case Done => false
    case _ => true
  }

  // One round of the block loop. Leaving it skips the loop's increment of i.
  function RunOnce(c: Config, flag: bool, th: Thread): Thread {
    var full := th.iterations + 1 == c.block;
    var iterations := if full then 0 else th.iterations + 1;
    var u := th.(comIter := th.comIter + 1, pi := th.pi + Term(th.i), iterations := iterations);
    if full && flag then u.(pc := WantMutex, stop := u.comIter) else u.(i := th.i + c.threads)
  }

  function NewThread(c: Config, flag: bool, maxIter: nat, th: Thread): Thread {
    match th.pc
    case Running => RunOnce(c, flag, th)
    case WantMutex => th.(pc := InMutex)
    case InMutex => th.(pc := Updated)
    case Updated => th.(pc := Arriving)
    case Arriving => th.(pc := AtBarrier)
    case AtBarrier => th.(pc := CatchUp)
    case CatchUp =>
      if th.comIter < maxIter
      then th.(pi := th.pi + Term(th.i), comIter := th.comIter + 1, i := th.i + c.threads)
      else th.(pc := Done)
    case Done => th
  }

  function NewMax(maxIter: nat, comIter: nat): nat {
    if maxIter != 0 then (if maxIter < comIter then comIter else maxIter) else comIter
  }

  function Do(c: Config, s: State, o: nat): State
    requires o < |s.ts|
  {
    var th := s.ts[o];
    State(s.flag,
          if th.pc == InMutex then NewMax(s.maxIter, th.comIter) else s.maxIter,
          if th.pc == WantMutex then Some(o) else if th.pc == Updated then None else s.mutex,
          if th.pc == Arriving then s.arrived + 1 else s.arrived,
          s.ts[o := NewThread(c, s.flag, s.maxIter, th)])
  }

  // The signal handler may set the flag at any moment.
  ghost predicate Next(c: Config, s: State, t: State) {
    || (!s.flag && t == s.(flag := true))
    || (exists o: nat :: o < |s.ts| && Enabled(s, o) && t == Do(c, s, o))
  }

  ghost predicate Run(c: Config, r: seq<State>) {
    IsRun(s => s == Start(c), (s, t) => Next(c, s, t), r)
  }

  ghost predicate Reached(c: Config, s: State) {
    Reachable(s => s == Start(c), (s, t) => Next(c, s, t), s)
  }

  // ----- the invariant

  // The first k terms of the row with offset o.
  function Row(o: nat, stride: nat, k: nat): real {
    if k == 0 then 0.0 else Row(o, stride, k - 1) + Term(o + (k - 1) * stride)
  }

  predicate Offered(pc: Pc) { pc.Updated? || pc.Arriving? || pc.AtBarrier? || pc.CatchUp? || pc.Done? }

  predicate Passed(pc: Pc) { pc.CatchUp? || pc.Done? }

  function Arrived(th: Thread): nat {
    if th.pc.AtBarrier? || th.pc.CatchUp? || th.pc.Done? then 1 else 0
  }

  ghost predicate Whole(c: Config, k: int)
    requires c.block > 0
  {
    k % c.block == 0
  }

  /** What one thread has added up. Catching up starts at the index last used. */
  ghost predicate SumInv(c: Config, o: nat, th: Thread)
    requires c.block > 0
  {
    if th.pc == Running then
      && th.iterations < c.block && th.iterations <= th.comIter && Whole(c, th.comIter - th.iterations)
      && th.i == o + th.comIter * c.threads
      && th.pi == Row(o, c.threads, th.comIter)
    else
      && 0 < th.stop <= th.comIter && Whole(c, th.stop)
      && (!Passed(th.pc) ==> th.comIter == th.stop)
      && th.i == o + (th.comIter - 1) * c.threads
      && th.pi == Row(o, c.threads, th.comIter - 1) + Term(o + (th.stop - 1) * c.threads)
  }

  // The shared maximum is the largest count offered so far.
  ghost predicate MaxInv(maxIter: nat, ts: seq<Thread>) {
    && (forall o :: 0 <= o < |ts| && Offered(ts[o].pc) ==> ts[o].comIter <= maxIter)
    && (maxIter > 0 ==> exists o :: 0 <= o < |ts| && Offered(ts[o].pc) && ts[o].stop == maxIter)
    && (forall o :: 0 <= o < |ts| && ts[o].pc == Done ==> ts[o].comIter == maxIter)
  }

  // Nobody passes the barrier before everybody has arrived.
  ghost predicate BarrierInv(s: State) {
    && (forall o :: 0 <= o < |s.ts| && s.ts[o].pc != Running ==> s.flag)
    && s.arrived == Total(Arrived, s.ts)
    && (forall o :: 0 <= o < |s.ts| && Passed(s.ts[o].pc) ==> s.arrived == |s.ts|)
  }

  ghost predicate MutexInv(s: State) {
    && (forall o: nat :: o < |s.ts| ==> (s.ts[o].pc.InMutex? || s.ts[o].pc.Updated? <==> s.mutex == Some(o)))
    && (s.mutex.Some? ==> s.mutex.value < |s.ts|)
  }

  ghost predicate Good(c: Config, s: State) {
    && c.block > 0 && |s.ts| == c.threads
    && (forall o: nat :: o < |s.ts| ==> SumInv(c, o, s.ts[o]))
    && MaxInv(s.maxIter, s.ts) && BarrierInv(s) && MutexInv(s)
  }

  lemma StartIsGood(c: Config)
    requires c.block > 0
    ensures Good(c, Start(c))
  {
    TotalOfEqual(Arrived, Start(c).ts, 0);
  }

  lemma OneMore(k: nat, stride: nat)
    ensures (k + 1) * stride == k * stride + stride
  {
  }

  lemma NextBlock(c: Config, k: nat)
    requires c.block > 0 && Whole(c, k)
    ensures Whole(c, k + c.block)
  {
    NextSameResidue(k, c.block, c.block);
  }

  lemma ThreadKeepsSum(c: Config, flag: bool, maxIter: nat, o: nat, th: Thread)
    requires c.block > 0 && SumInv(c, o, th)
    ensures SumInv(c, o, NewThread(c, flag, maxIter, th))
  {
    if th.pc == Running {
      OneMore(th.comIter, c.threads);
      if th.iterations + 1 == c.block { NextBlock(c, th.comIter - th.iterations); }
    } else if th.pc == CatchUp {
      OneMore(th.comIter - 1, c.threads);
    }
  }

  /** All have arrived only when nobody is left on the way to the barrier. */
  lemma {:induction false} EverybodyArrived(ts: seq<Thread>)
    ensures Total(Arrived, ts) <= |ts|
    ensures Total(Arrived, ts) == |ts| ==> forall o :: 0 <= o < |ts| ==> Arrived(ts[o]) == 1
  {
    if ts == [] {
    } else {
      EverybodyArrived(ts[1..]);
    }
  }

  lemma StepKeepsBarrier(c: Config, s: State, o: nat)
    requires BarrierInv(s) && o < |s.ts| && Enabled(s, o)
    ensures BarrierInv(Do(c, s, o))
  {
    var t := Do(c, s, o);
    EverybodyArrived(s.ts);
    EverybodyArrived(t.ts);
    TotalChange(Arrived, s.ts, t.ts, o);
  }

  lemma StepKeepsMax(c: Config, s: State, o: nat)
    requires BarrierInv(s) && MaxInv(s.maxIter, s.ts) && o < |s.ts| && Enabled(s, o)
    requires s.ts[o].pc == InMutex ==> 0 < s.ts[o].comIter == s.ts[o].stop
    ensures MaxInv(Do(c, s, o).maxIter, Do(c, s, o).ts)
  {
    var t := Do(c, s, o);
    EverybodyArrived(s.ts);
    if s.ts[o].pc == InMutex && s.maxIter < s.ts[o].comIter {
      assert Offered(t.ts[o].pc) && t.ts[o].stop == t.maxIter;
    } else if s.maxIter > 0 {
      var k :| 0 <= k < |s.ts| && Offered(s.ts[k].pc) && s.ts[k].stop == s.maxIter;
      assert Offered(t.ts[k].pc) && t.ts[k].stop == t.maxIter;
    }
  }

  lemma StepKeepsMutex(c: Config, s: State, o: nat)
    requires MutexInv(s) && o < |s.ts| && Enabled(s, o)
    ensures MutexInv(Do(c, s, o))
  {
  }

  lemma StepKeepsGood(c: Config, s: State, o: nat)
    requires Good(c, s) && o < |s.ts| && Enabled(s, o)
    ensures Good(c, Do(c, s, o))
  {
    assert SumInv(c, o, s.ts[o]);
    ThreadKeepsSum(c, s.flag, s.maxIter, o, s.ts[o]);
    StepKeepsBarrier(c, s, o);
    StepKeepsMax(c, s, o);
    StepKeepsMutex(c, s, o);
  }

  lemma NextKeepsGood(c: Config, s: State, t: State)
    requires Good(c, s) && Next(c, s, t)
    ensures Good(c, t)
  {
    if s.flag || t != s.(flag := true) {
      var o: nat :| o < |s.ts| && Enabled(s, o) && t == Do(c, s, o);
      StepKeepsGood(c, s, o);
    }
  }

  lemma ReachedIsGood(c: Config, s: State)
    requires c.block > 0 && Reached(c, s)
    ensures Good(c, s)
  {
    hide Good;
    StartIsGood(c);
    forall s, t | Good(c, s) && Next(c, s, t) ensures Good(c, t) {
      NextKeepsGood(c, s, t);
    }
    InvariantWhereReached(s => s == Start(c), (s, t) => Next(c, s, t), s => Good(c, s), s);
  }

  // ----- progress

  ghost predicate AllDone(s: State) {
    forall o :: 0 <= o < |s.ts| ==> s.ts[o].pc == Done
  }

  lemma {:induction false} ArrivedCounts(ts: seq<Thread>)
    requires forall o :: 0 <= o < |ts| ==> Arrived(ts[o]) == 1
    ensures Total(Arrived, ts) == |ts|
  {
    if ts == [] {
    } else {
      ArrivedCounts(ts[1..]);
    }
  }

  lemma SomeoneCanStep(c: Config, s: State)
    requires MutexInv(s) && BarrierInv(s) && !AllDone(s)
    ensures exists o: nat :: o < |s.ts| && Enabled(s, o)
  {
    if s.mutex.Some? {
      assert s.ts[s.mutex.value].pc.InMutex? || s.ts[s.mutex.value].pc.Updated?;
      assert Enabled(s, s.mutex.value);
    } else if forall o :: 0 <= o < |s.ts| ==> Arrived(s.ts[o]) == 1 {
      ArrivedCounts(s.ts);
      var o :| 0 <= o < |s.ts| && s.ts[o].pc != Done;
      assert Enabled(s, o);
    } else {
      var o :| 0 <= o < |s.ts| && Arrived(s.ts[o]) != 1;
      assert Enabled(s, o);
    }
  }

  // ----- termination once the flag is up

  // Where the thread's block loop will stop.
  function Limit(c: Config, th: Thread): nat {
    if th.pc == Running && th.iterations < c.block then th.comIter + (c.block - th.iterations) else th.comIter
  }

  function PcRank(pc: Pc): nat {
    match pc
    case Running => 7
    case WantMutex => 6
    case InMutex => 5
    case Updated => 4
    case Arriving => 3
    case AtBarrier => 2
    case CatchUp => 1
    case Done => 0
  }

  function Rank(limit: nat, th: Thread): nat {
    PcRank(th.pc) + if th.comIter < limit then limit - th.comIter else 0
  }

  function Measure(limit: nat, s: State): nat {
    Total((th: Thread) => Rank(limit, th), s.ts)
  }

  ghost predicate Limited(c: Config, limit: nat, s: State) {
    && s.maxIter <= limit
    && forall o :: 0 <= o < |s.ts| ==> Limit(c, s.ts[o]) <= limit
  }

  lemma StepDecreases(c: Config, limit: nat, s: State, o: nat)
    requires Good(c, s) && s.flag && Limited(c, limit, s) && o < |s.ts| && Enabled(s, o)
    ensures Limited(c, limit, Do(c, s, o)) && Measure(limit, Do(c, s, o)) < Measure(limit, s)
  {
    var t := Do(c, s, o);
    assert SumInv(c, o, s.ts[o]) && Limit(c, s.ts[o]) <= limit;
    ThreadDecreases(c, limit, s.maxIter, o, s.ts[o]);
    TotalChange((th: Thread) => Rank(limit, th), s.ts, t.ts, o);
  }

  lemma ThreadDecreases(c: Config, limit: nat, maxIter: nat, o: nat, th: Thread)
    requires c.block > 0 && SumInv(c, o, th) && Limit(c, th) <= limit && maxIter <= limit && th.pc != Done
    ensures var u := NewThread(c, true, maxIter, th);
            Limit(c, u) <= limit && Rank(limit, u) < Rank(limit, th)
  {
  }

  // ----- what the results add up to

  lemma {:induction false} RowIsStride(o: nat, stride: nat, k: nat)
    requires o < stride
    ensures Row(o, stride, k) == StrideSum(o, stride, k * stride)
  {
    if k == 0 {
      StrideStart(o, stride, 0);
    } else {
      var base := (k - 1) * stride;
      RowIsStride(o, stride, k - 1);
      OneMore(k - 1, stride);
      QuotientUnique(o + base, stride, k - 1, o);
      forall j | base <= j < o + base ensures j % stride != o {
        QuotientUnique(j, stride, k - 1, j - base);
      }
      NoneBetween(o, stride, base, o + base);
      StrideStep(o, stride, o + base, base + stride);
    }
  }

  // The results of the first k threads, added up in order.
  function SumOfResults(ts: seq<Thread>, k: nat): real
    requires k <= |ts|
  {
    if k == 0 then 0.0 else SumOfResults(ts, k - 1) + ts[k - 1].pi
  }

  // What thread o counts too much: it adds its term stop-1 twice and its term max-1 never.
  function Excess(o: nat, stride: nat, stop: nat, max: nat): real
    requires 0 < stop <= max
  {
    Term(o + (stop - 1) * stride) - Term(o + (max - 1) * stride)
  }

  function TotalExcess(ts: seq<Thread>, stride: nat, max: nat, k: nat): real
    requires k <= |ts| && forall o :: 0 <= o < |ts| ==> 0 < ts[o].stop <= max
  {
    if k == 0 then 0.0 else TotalExcess(ts, stride, max, k - 1) + Excess(k - 1, stride, ts[k - 1].stop, max)
  }

  lemma ExcessSign(o: nat, stride: nat, stop: nat, max: nat)
    requires stride > 0 && 0 < stop <= max
    ensures Excess(o, stride, stop, max) >= 0.0
    ensures Excess(o, stride, stop, max) == 0.0 <==> stop == max
  {
    if stop < max {
      assert (stop - 1) * stride < (max - 1) * stride by { MulLess(stop - 1, max - 1, stride); }
      TermsDecrease(o + (stop - 1) * stride, o + (max - 1) * stride);
    }
  }

  lemma MulLess(a: nat, b: nat, stride: nat)
    requires a < b && stride > 0
    ensures a * stride < b * stride
  {
  }

  lemma {:induction false} TotalExcessSign(ts: seq<Thread>, stride: nat, max: nat, k: nat)
    requires stride > 0 && k <= |ts| && forall o :: 0 <= o < |ts| ==> 0 < ts[o].stop <= max
    ensures TotalExcess(ts, stride, max, k) >= 0.0
    ensures TotalExcess(ts, stride, max, k) == 0.0 <==> forall o :: 0 <= o < k ==> ts[o].stop == max
  {
    if k == 0 {
    } else {
      TotalExcessSign(ts, stride, max, k - 1);
      ExcessSign(k - 1, stride, ts[k - 1].stop, max);
    }
  }

  lemma {:induction false} ResultsAddUp(ts: seq<Thread>, stride: nat, max: nat, k: nat)
    requires stride > 0 && k <= stride && k <= |ts| && forall o :: 0 <= o < |ts| ==> 0 < ts[o].stop <= max
    requires forall o: nat :: o < |ts| ==> ts[o].pi == Row(o, stride, max) + Excess(o, stride, ts[o].stop, max)
    ensures SumOfResults(ts, k) == AllThreads(k, stride, max * stride) + TotalExcess(ts, stride, max, k)
  {
    if k == 0 {
    } else {
      ResultsAddUp(ts, stride, max, k - 1);
      RowIsStride(k - 1, stride, max);
    }
  }

  // ----- the theorems

  /** When all threads are done they agree on one count: a whole number of blocks, the largest of the
      counts at which they left their block loops. */
  lemma ThreadsAgree(c: Config, s: State)
    requires c.block > 0 && c.threads > 0 && Reached(c, s) && AllDone(s)
    ensures |s.ts| == c.threads && s.maxIter > 0 && s.maxIter % c.block == 0
    ensures forall o :: 0 <= o < |s.ts| ==> s.ts[o].comIter == s.maxIter && 0 < s.ts[o].stop <= s.maxIter
    ensures exists o :: 0 <= o < |s.ts| && s.ts[o].stop == s.maxIter
  {
    ReachedIsGood(c, s);
    forall o: nat | o < |s.ts| ensures s.ts[o].comIter == s.maxIter && 0 < s.ts[o].stop <= s.maxIter {
      assert SumInv(c, o, s.ts[o]);
    }
    assert 0 < s.ts[0].stop;
    var o :| 0 <= o < |s.ts| && s.ts[o].stop == s.maxIter;
    assert SumInv(c, o, s.ts[o]);
  }

  /** Each thread's result is its exact share plus the term it repeated minus the term it missed. */
  lemma ThreadResult(c: Config, s: State, o: nat)
    requires c.block > 0 && Reached(c, s) && o < |s.ts| && s.ts[o].pc == Done
    ensures 0 < s.ts[o].stop <= s.maxIter
    ensures s.ts[o].pi == Row(o, c.threads, s.maxIter) + Excess(o, c.threads, s.ts[o].stop, s.maxIter)
  {
    ReachedIsGood(c, s);
    assert SumInv(c, o, s.ts[o]);
  }

  /** The program's sum is the series up to max_iter terms per thread plus the threads' excess; so it is
      never too small, and exact if and only if all threads stopped at the same count. */
  lemma ResultIff(c: Config, s: State)
    requires c.block > 0 && c.threads > 0 && Reached(c, s) && AllDone(s)
    ensures |s.ts| == c.threads && forall o :: 0 <= o < |s.ts| ==> 0 < s.ts[o].stop <= s.maxIter
    ensures SumOfResults(s.ts, c.threads)
            == PartialSum(s.maxIter * c.threads) + TotalExcess(s.ts, c.threads, s.maxIter, c.threads)
    ensures SumOfResults(s.ts, c.threads) >= PartialSum(s.maxIter * c.threads)
    ensures SumOfResults(s.ts, c.threads) == PartialSum(s.maxIter * c.threads)
            <==> forall o :: 0 <= o < |s.ts| ==> s.ts[o].stop == s.maxIter
  {
    ThreadsAgree(c, s);
    forall o: nat | o < |s.ts|
      ensures s.ts[o].pi == Row(o, c.threads, s.maxIter) + Excess(o, c.threads, s.ts[o].stop, s.maxIter) {
      ThreadResult(c, s, o);
    }
    ResultsAddUp(s.ts, c.threads, s.maxIter, c.threads);
    StridesPartition(c.threads, s.maxIter * c.threads);
    TotalExcessSign(s.ts, c.threads, s.maxIter, c.threads);
  }

  /** From the moment the flag is up a run is bounded, and it can only come to rest with all threads done. */
  lemma InterruptEndsRun(c: Config, r: seq<State>, k: nat)
    requires c.block > 0 && Run(c, r) && k < |r| && r[k].flag
    ensures var limit := r[k].maxIter + Total((th: Thread) => Limit(c, th), r[k].ts);
            |r| - 1 <= k + Measure(limit, r[k])
    ensures (forall o: nat :: o < |Last(r).ts| ==> !Enabled(Last(r), o)) ==> AllDone(Last(r))
  {
    hide Good;
    StartIsGood(c);
    forall s, t | Good(c, s) && Next(c, s, t) ensures Good(c, t) {
      NextKeepsGood(c, s, t);
    }
    InvariantAlongRun(s => s == Start(c), (s, t) => Next(c, s, t), s => Good(c, s), r);
    BoundedOnceFlagged(c, r, k);
    assert Good(c, Last(r));
    GoodParts(c, Last(r));
    if !AllDone(Last(r)) { SomeoneCanStep(c, Last(r)); }
  }

  lemma GoodParts(c: Config, s: State)
    requires Good(c, s)
    ensures MutexInv(s) && BarrierInv(s)
  {
  }

  ghost predicate Closing(c: Config, limit: nat, s: State) {
    Good(c, s) && s.flag && Limited(c, limit, s)
  }

  lemma NextCloses(c: Config, limit: nat, s: State, t: State)
    requires Closing(c, limit, s) && Next(c, s, t)
    ensures Closing(c, limit, t) && Measure(limit, t) < Measure(limit, s)
  {
    NextKeepsGood(c, s, t);
    var o: nat :| o < |s.ts| && Enabled(s, o) && t == Do(c, s, o);
    StepDecreases(c, limit, s, o);
  }

  lemma BoundedOnceFlagged(c: Config, r: seq<State>, k: nat)
    requires forall i :: 0 <= i < |r| - 1 ==> Next(c, r[i], r[i + 1])
    requires k < |r| && Good(c, r[k]) && r[k].flag
    ensures var limit := r[k].maxIter + Total((th: Thread) => Limit(c, th), r[k].ts);
            |r| - 1 <= k + Measure(limit, r[k])
  {
    hide Good;
    var limit := r[k].maxIter + Total((th: Thread) => Limit(c, th), r[k].ts);
    var q := r[k..];
    var init := s => s == r[k];
    forall o: nat | o < |r[k].ts| ensures Limit(c, r[k].ts[o]) <= limit {
      TotalAtLeast((th: Thread) => Limit(c, th), r[k].ts, o);
    }
    forall i | 0 <= i < |q| - 1 ensures Next(c, q[i], q[i + 1]) {
      assert Next(c, r[k + i], r[k + i + 1]);
    }
    forall s, t | Closing(c, limit, s) && Next(c, s, t)
      ensures Closing(c, limit, t) && Measure(limit, t) < Measure(limit, s) {
      NextCloses(c, limit, s, t);
    }
    InvariantAlongRun(init, (s, t) => Next(c, s, t), s => Closing(c, limit, s), q);
    MeasureBoundsRun(init, (s, t) => Next(c, s, t), s => Closing(c, limit, s), s => Measure(limit, s), q);
  }

  // ----- when the sum is exact whatever happens

  lemma ReachedStep(c: Config, s: State, o: nat)
    requires Reached(c, s) && o < |s.ts| && Enabled(s, o)
    ensures Reached(c, Do(c, s, o))
  {
    assert Next(c, s, Do(c, s, o));
    ReachStep(s => s == Start(c), (s, t) => Next(c, s, t), s, Do(c, s, o));
  }

  /** Before the flag is up a thread can go on for any number of rounds. */
  lemma {:induction false} KeepRunning(c: Config, s: State, o: nat, k: nat) returns (t: State)
    requires Reached(c, s) && o < |s.ts| && !s.flag && s.ts[o].pc == Running
    ensures Reached(c, t) && !t.flag && |t.ts| == |s.ts|
    ensures t.ts[o].pc == Running && t.ts[o].comIter == s.ts[o].comIter + k
    ensures forall j :: 0 <= j < |s.ts| && j != o ==> t.ts[j] == s.ts[j]
  {
    t := s;
    if k == 0 {
    } else {
      t := KeepRunning(c, s, o, k - 1);
      ReachedStep(c, t, o);
      t := Do(c, t, o);
    }
  }

  /** Once the flag is up a thread leaves its block loop at the end of its block. */
  lemma {:induction false} FinishBlock(c: Config, s: State, o: nat) returns (t: State)
    requires Reached(c, s) && o < |s.ts| && s.flag && s.ts[o].pc == Running && s.ts[o].iterations < c.block
    ensures Reached(c, t) && t.flag && |t.ts| == |s.ts|
    ensures t.ts[o].pc == WantMutex && t.ts[o].stop == s.ts[o].comIter + (c.block - s.ts[o].iterations)
    ensures forall j :: 0 <= j < |s.ts| && j != o ==> t.ts[j] == s.ts[j]
    decreases c.block - s.ts[o].iterations
  {
    ReachedStep(c, s, o);
    t := Do(c, s, o);
    if t.ts[o].pc == Running { t := FinishBlock(c, t, o); }
  }

  /** From then on every run can be completed, and nobody's stop changes any more. */
  lemma {:induction false} RunToEnd(c: Config, limit: nat, s: State) returns (t: State)
    requires Reached(c, s) && Closing(c, limit, s)
    ensures Reached(c, t) && AllDone(t) && |t.ts| == |s.ts|
    ensures forall o :: 0 <= o < |s.ts| && s.ts[o].pc != Running ==> t.ts[o].stop == s.ts[o].stop
    decreases Measure(limit, s)
  {
    hide Good, NewThread, Limited, Measure;
    t := s;
    if !AllDone(s) {
      GoodParts(c, s);
      SomeoneCanStep(c, s);
      var o: nat :| o < |s.ts| && Enabled(s, o);
      ReachedStep(c, s, o);
      var u := Do(c, s, o);
      assert Next(c, s, u);
      NextCloses(c, limit, s, u);
      StopsStay(c, s, o);
      t := RunToEnd(c, limit, u);
    }
  }

  lemma StopsStay(c: Config, s: State, o: nat)
    requires o < |s.ts|
    ensures var u := Do(c, s, o);
            |u.ts| == |s.ts| && forall j :: 0 <= j < |s.ts| && s.ts[j].pc != Running ==>
              u.ts[j].pc != Running && u.ts[j].stop == s.ts[j].stop
  {
  }

  /** Two threads that see the flag in different blocks stop at different counts. */
  lemma UnequalStops(c: Config) returns (s: State)
    requires c.block > 0 && c.threads >= 2
    ensures Reached(c, s) && AllDone(s) && |s.ts| == c.threads && s.ts[0].stop != s.ts[1].stop
  {
    hide Good;
    s := Start(c);
    ReachStart(s => s == Start(c), (s, t) => Next(c, s, t), s);
    s := KeepRunning(c, s, 1, c.block);
    assert s.ts[0] == Start(c).ts[0];
    var up := s.(flag := true);
    assert Next(c, s, up);
    ReachStep(s => s == Start(c), (s, t) => Next(c, s, t), s, up);
    ReachedIterations(c, up, 1);
    s := FinishBlock(c, up, 1);
    s := FinishBlock(c, s, 0);
    ReachedIsGood(c, s);
    var limit := s.maxIter + Total((th: Thread) => Limit(c, th), s.ts);
    forall o: nat | o < |s.ts| ensures Limit(c, s.ts[o]) <= limit {
      TotalAtLeast((th: Thread) => Limit(c, th), s.ts, o);
    }
    s := RunToEnd(c, limit, s);
  }

  lemma ReachedIterations(c: Config, s: State, o: nat)
    requires c.block > 0 && Reached(c, s) && o < |s.ts| && s.ts[o].pc == Running
    ensures s.ts[o].iterations < c.block
  {
    ReachedIsGood(c, s);
    assert SumInv(c, o, s.ts[o]);
  }

  /** The sum is exact in every finished run if and only if there is at most one thread. */
  lemma ExactIff(c: Config)
    requires c.block > 0
    ensures (forall s :: Reached(c, s) && AllDone(s) ==>
               SumOfResults(s.ts, |s.ts|) == PartialSum(s.maxIter * c.threads))
            <==> c.threads <= 1
  {
    if c.threads >= 2 {
      var s := UnequalStops(c);
      ResultIff(c, s);
    } else {
      forall s | Reached(c, s) && AllDone(s)
        ensures SumOfResults(s.ts, |s.ts|) == PartialSum(s.maxIter * c.threads) {
        if c.threads == 1 {
          ThreadsAgree(c, s);
          ResultIff(c, s);
        } else {
          ReachedIsGood(c, s);
          assert PartialSum(s.maxIter * c.threads) == PartialSum(0);
        }
      }
    }
  }
}
