/** Several downloads at once. A thread whose reader is inside cond_wait serves none of its connections, its
    own downloads included, so threads can wait for each other's entries. Downloads can break off and clients
    can leave. */
module CacheThreads {
  import opened Runs
  import CacheStream

  // What became of a download: broken off with the entry made invalid, or with the entry left as it was.
  datatype Fate = Going | Failed | Lost

  // left: bytes still to come; opens: how many of them are body, so that readers see the entry as soon as
  // no more than these are left.
  datatype Entry = Entry(writer: nat, left: nat, opens: nat, fate: Fate)

  // left: bytes still to be sent; waiting: inside cond_wait; gone: dropped, or its client has left.
  datatype Reader = Reader(thread: nat, entry: nat, left: nat, waiting: bool, gone: bool)

  datatype State = State(entries: seq<Entry>, readers: seq<Reader>)

  // A response of a header and a body, and the thread that downloads it.
  datatype Download = Download(writer: nat, header: nat, body: nat)

  // The thread and the entry of a reader.
  datatype Attached = Attached(thread: nat, entry: nat)

  // abandons: whether a download may break off without its entry being made invalid.
  datatype Config = Config(downloads: seq<Download>, attached: seq<Attached>, abandons: bool)

  ghost predicate WellFormed(c: Config) {
    && (forall e :: 0 <= e < |c.downloads| ==> c.downloads[e].header > 0)
    && (forall r :: 0 <= r < |c.attached| ==> c.attached[r].entry < |c.downloads|)
  }

  function Size(d: Download): nat { d.header + d.body }

  function NewEntry(d: Download): Entry {
    Entry(d.writer, Size(d), d.body, Going)
  }

  function Start(c: Config): State
    requires WellFormed(c)
  {
    State(Mapped(NewEntry, c.downloads),
          seq(|c.attached|, r requires 0 <= r < |c.attached| =>
            Reader(c.attached[r].thread, c.attached[r].entry, Size(c.downloads[c.attached[r].entry]), false, false)))
  }

  // ----- the step relation

  ghost predicate Shaped(s: State) {
    forall r :: 0 <= r < |s.readers| ==> s.readers[r].entry < |s.entries|
  }

  ghost predicate Free(s: State, t: nat) {
    forall r :: 0 <= r < |s.readers| && s.readers[r].thread == t ==> !s.readers[r].waiting
  }

  function EntryOf(s: State, r: nat): Entry
    requires Shaped(s) && r < |s.readers|
  {
    s.entries[s.readers[r].entry]
  }

  predicate Active(r: Reader) { !r.gone && r.left > 0 }

  // The reader has sent all there is, which is nothing before the header is complete.
  predicate CaughtUp(e: Entry, r: Reader) {
    r.left == e.left || e.left > e.opens
  }

  // Whether it is reader r's turn: its thread is in no wait, or only in this reader's.
  ghost predicate Turn(s: State, r: nat)
    requires Shaped(s)
  {
    r < |s.readers| && Active(s.readers[r]) && (s.readers[r].waiting || Free(s, s.readers[r].thread))
  }

  ghost predicate Receives(s: State, e: nat, k: nat, t: State) {
    && e < |s.entries| && s.entries[e].fate == Going && Free(s, s.entries[e].writer)
    && 0 < k <= s.entries[e].left
    && t == s.(entries := s.entries[e := s.entries[e].(left := s.entries[e].left - k)])
  }

  // A reader with something to send sends a chunk, coming out of cond_wait if it was inside.
  ghost predicate Sends(s: State, r: nat, k: nat, t: State)
    requires Shaped(s)
  {
    && Turn(s, r) && !CaughtUp(EntryOf(s, r), s.readers[r])
    && 0 < k <= CacheStream.CHUNK && EntryOf(s, r).left + k <= s.readers[r].left
    && t == s.(readers := s.readers[r := s.readers[r].(left := s.readers[r].left - k, waiting := false)])
  }

  // A reader that has caught up with another thread's download waits inside cond_wait.
  ghost predicate Waits(s: State, r: nat, t: State)
    requires Shaped(s)
  {
    && Turn(s, r) && !s.readers[r].waiting && CaughtUp(EntryOf(s, r), s.readers[r])
    && EntryOf(s, r).fate != Failed && EntryOf(s, r).writer != s.readers[r].thread
    && t == s.(readers := s.readers[r := s.readers[r].(waiting := true)])
  }

  function Gone(r: Reader): Reader {
    r.(waiting := false, gone := true)
  }

  // A reader finds its entry invalid.
  ghost predicate Drops(s: State, r: nat, t: State)
    requires Shaped(s)
  {
    Turn(s, r) && EntryOf(s, r).fate == Failed && t == s.(readers := s.readers[r := Gone(s.readers[r])])
  }

  // Steps that do not depend on something breaking.
  ghost predicate Proceeds(s: State, t: State) {
    && Shaped(s)
    && ((exists e: nat, k: nat :: Receives(s, e, k, t))
        || (exists r: nat, k: nat :: Sends(s, r, k, t))
        || (exists r: nat :: Waits(s, r, t))
        || (exists r: nat :: Drops(s, r, t)))
  }

  ghost predicate BreaksOff(c: Config, s: State, e: nat, fate: Fate, t: State) {
    && e < |s.entries| && s.entries[e].fate == Going && s.entries[e].left > 0 && Free(s, s.entries[e].writer)
    && (fate == Failed || (fate == Lost && c.abandons))
    && t == s.(entries := s.entries[e := s.entries[e].(fate := fate)])
  }

  // A client is found gone when something is to be sent to it, or its socket says so.
  ghost predicate Leaves(s: State, r: nat, t: State)
    requires Shaped(s)
  {
    && Turn(s, r) && (s.readers[r].waiting ==> !CaughtUp(EntryOf(s, r), s.readers[r]))
    && t == s.(readers := s.readers[r := Gone(s.readers[r])])
  }

  ghost predicate Breaks(c: Config, s: State, t: State) {
    && Shaped(s)
    && ((exists e: nat, fate :: BreaksOff(c, s, e, fate, t)) || (exists r: nat :: Leaves(s, r, t)))
  }

  ghost predicate Next(c: Config, s: State, t: State) {
    Proceeds(s, t) || Breaks(c, s, t)
  }

  ghost predicate Run(c: Config, r: seq<State>)
    requires WellFormed(c)
  {
    IsRun(s => s == Start(c), (s, t) => Next(c, s, t), r)
  }

  ghost predicate Reached(c: Config, s: State)
    requires WellFormed(c)
  {
    Reachable(s => s == Start(c), (s, t) => Next(c, s, t), s)
  }

  // ----- the invariant

  ghost predicate SameParties(c: Config, s: State) {
    && |s.entries| == |c.downloads| && |s.readers| == |c.attached|
    && (forall e :: 0 <= e < |s.entries| ==> s.entries[e].writer == c.downloads[e].writer)
    && (forall r :: 0 <= r < |s.readers| ==> Attached(s.readers[r].thread, s.readers[r].entry) == c.attached[r])
  }

  ghost predicate ReaderInv(e: Entry, r: Reader) {
    && e.left <= r.left
    && (r.waiting ==> Active(r) && e.writer != r.thread)
  }

  ghost predicate OneWait(s: State) {
    forall q, r :: 0 <= q < r < |s.readers| && s.readers[q].thread == s.readers[r].thread ==>
      !(s.readers[q].waiting && s.readers[r].waiting)
  }

  ghost predicate Good(c: Config, s: State) {
    && WellFormed(c) && SameParties(c, s) && Shaped(s) && OneWait(s)
    && (forall r :: 0 <= r < |s.readers| ==> ReaderInv(EntryOf(s, r), s.readers[r]))
    && (forall e :: 0 <= e < |s.entries| ==> s.entries[e].fate == Lost ==> c.abandons)
  }

  // Only entry e changes, and only in what is left of it or in its fate.
  lemma EntryStepKeepsGood(c: Config, s: State, e: nat, x: Entry)
    requires Good(c, s) && e < |s.entries|
    requires x.writer == s.entries[e].writer && x.left <= s.entries[e].left && (x.fate == Lost ==> c.abandons)
    ensures Good(c, s.(entries := s.entries[e := x]))
  {
  }

  // Only reader r changes, and goes into a wait only if its thread is free.
  lemma ReaderStepKeepsGood(c: Config, s: State, r: nat, x: Reader)
    requires Good(c, s) && r < |s.readers|
    requires x.thread == s.readers[r].thread && x.entry == s.readers[r].entry && ReaderInv(EntryOf(s, r), x)
    requires x.waiting ==> Free(s, x.thread)
    ensures Good(c, s.(readers := s.readers[r := x]))
  {
  }

  lemma NextKeepsGood(c: Config, s: State, t: State)
    requires Good(c, s) && Next(c, s, t)
    ensures Good(c, t)
  {
    if e: nat, k: nat :| Receives(s, e, k, t) {
      EntryStepKeepsGood(c, s, e, t.entries[e]);
    } else if e: nat, fate :| BreaksOff(c, s, e, fate, t) {
      EntryStepKeepsGood(c, s, e, t.entries[e]);
    } else {
      var r := ReaderStepOf(c, s, t);
      ReaderStepKeepsGood(c, s, r, t.readers[r]);
    }
  }

  // Every other step is one reader's.
  lemma ReaderStepOf(c: Config, s: State, t: State) returns (r: nat)
    requires Good(c, s) && Next(c, s, t)
    requires !(exists e: nat, k: nat :: Receives(s, e, k, t)) && !(exists e: nat, fate :: BreaksOff(c, s, e, fate, t))
    ensures r < |s.readers| == |t.readers| && t == s.(readers := s.readers[r := t.readers[r]])
    ensures t.readers[r].thread == s.readers[r].thread && t.readers[r].entry == s.readers[r].entry
    ensures ReaderInv(EntryOf(s, r), t.readers[r]) && (t.readers[r].waiting ==> Free(s, s.readers[r].thread))
  {
    if q: nat, k: nat :| Sends(s, q, k, t) {
      r := q;
    } else if q: nat :| Waits(s, q, t) {
      r := q;
    } else if q: nat :| Drops(s, q, t) {
      r := q;
    } else {
      r :| Leaves(s, r, t);
    }
    assert ReaderInv(EntryOf(s, r), s.readers[r]);
  }

  lemma StartIsGood(c: Config)
    requires WellFormed(c)
    ensures Good(c, Start(c))
  {
  }

  lemma ReachedIsGood(c: Config, s: State)
    requires WellFormed(c) && Reached(c, s)
    ensures Good(c, s)
  {
    hide Good, Next;
    StartIsGood(c);
    forall s, t | Good(c, s) && Next(c, s, t) ensures Good(c, t) {
      NextKeepsGood(c, s, t);
    }
    InvariantWhereReached(s => s == Start(c), (s, t) => Next(c, s, t), s => Good(c, s), s);
  }

  // ----- every run ends

  function EntryRank(e: Entry): nat { e.left + if e.fate == Going then 1 else 0 }

  function ReaderRank(r: Reader): nat {
    if r.gone then 0 else 2 * r.left + if r.waiting then 1 else 2
  }

  function Measure(s: State): nat {
    Total(EntryRank, s.entries) + Total(ReaderRank, s.readers)
  }

  lemma NextDecreases(c: Config, s: State, t: State)
    requires Next(c, s, t)
    ensures Measure(t) < Measure(s)
  {
    if e: nat, k: nat :| Receives(s, e, k, t) {
      TotalChange(EntryRank, s.entries, t.entries, e);
    } else if e: nat, fate :| BreaksOff(c, s, e, fate, t) {
      TotalChange(EntryRank, s.entries, t.entries, e);
    } else if r: nat, k: nat :| Sends(s, r, k, t) {
      TotalChange(ReaderRank, s.readers, t.readers, r);
    } else if r: nat :| Waits(s, r, t) {
      TotalChange(ReaderRank, s.readers, t.readers, r);
    } else if r: nat :| Drops(s, r, t) {
      TotalChange(ReaderRank, s.readers, t.readers, r);
    } else {
      var r: nat :| Leaves(s, r, t);
      TotalChange(ReaderRank, s.readers, t.readers, r);
    }
  }

  lemma RunsEnd(c: Config, r: seq<State>)
    requires WellFormed(c) && Run(c, r)
    ensures |r| - 1 <= Measure(Start(c))
  {
    hide Next, Measure;
    forall s, t | Next(c, s, t) ensures Measure(t) < Measure(s) {
      NextDecreases(c, s, t);
    }
    MeasureBoundsRun(s => s == Start(c), (s, t) => Next(c, s, t), s => true, Measure, r);
  }

  // ----- who can wait for whom

  // Every download is over, one way or another, and every reader has got everything or is gone.
  ghost predicate Settled(s: State) {
    && (forall e :: 0 <= e < |s.entries| ==> s.entries[e].left == 0 || s.entries[e].fate != Going)
    && (forall r :: 0 <= r < |s.readers| ==> !Active(s.readers[r]))
  }

  ghost predicate Resting(s: State) {
    !exists t :: Proceeds(s, t)
  }

  // Thread t has a reader, r, of an entry that another thread of ts downloads.
  ghost predicate DependsOn(c: Config, t: nat, ts: set<nat>, r: nat)
    requires WellFormed(c)
  {
    && r < |c.attached| && c.attached[r].thread == t
    && c.downloads[c.attached[r].entry].writer in ts && c.downloads[c.attached[r].entry].writer != t
  }

  // Some threads each read what another of them downloads.
  ghost predicate Circle(c: Config, ts: set<nat>)
    requires WellFormed(c)
  {
    ts != {} && forall t :: t in ts ==> exists r :: DependsOn(c, t, ts, r)
  }

  function WaitingThreads(rs: seq<Reader>): (ts: set<nat>) {
    set r | 0 <= r < |rs| && rs[r].waiting :: rs[r].thread
  }

  lemma NotFreeWaits(s: State, t: nat)
    ensures Free(s, t) <==> t !in WaitingThreads(s.readers)
  {
  }

  lemma BlockedWriter(s: State, e: nat)
    requires Shaped(s) && Resting(s) && e < |s.entries| && s.entries[e].left > 0 && s.entries[e].fate == Going
    ensures s.entries[e].writer in WaitingThreads(s.readers)
  {
    NotFreeWaits(s, s.entries[e].writer);
    if Free(s, s.entries[e].writer) {
      var t := s.(entries := s.entries[e := s.entries[e].(left := s.entries[e].left - 1)]);
      assert Receives(s, e, 1, t);
      assert Proceeds(s, t);
    }
  }

  // A reader whose turn it is has sent all there is and cannot be dropped, or something could go on.
  lemma RestingTurn(c: Config, s: State, r: nat)
    requires Good(c, s) && Resting(s) && Turn(s, r)
    ensures CaughtUp(EntryOf(s, r), s.readers[r]) && EntryOf(s, r).fate != Failed && EntryOf(s, r).left > 0
    ensures !s.readers[r].waiting ==> EntryOf(s, r).writer == s.readers[r].thread
  {
    hide Good, Turn, Proceeds, OneWait;
    SomeReader(c, s, r);
    if !CaughtUp(EntryOf(s, r), s.readers[r]) {
      var t := s.(readers := s.readers[r := s.readers[r].(left := s.readers[r].left - 1, waiting := false)]);
      assert Sends(s, r, 1, t);
      SendProceeds(s, r, 1, t);
    } else if EntryOf(s, r).fate == Failed {
      var t := s.(readers := s.readers[r := Gone(s.readers[r])]);
      assert Drops(s, r, t);
      DropProceeds(s, r, t);
    } else if !s.readers[r].waiting && EntryOf(s, r).writer != s.readers[r].thread {
      var t := s.(readers := s.readers[r := s.readers[r].(waiting := true)]);
      assert Waits(s, r, t);
      WaitProceeds(s, r, t);
    }
  }

  lemma SomeReader(c: Config, s: State, r: nat)
    requires Good(c, s) && Turn(s, r)
    ensures Shaped(s) && r < |s.readers| && Active(s.readers[r]) && ReaderInv(EntryOf(s, r), s.readers[r])
  {
  }

  lemma SendProceeds(s: State, r: nat, k: nat, t: State)
    requires Shaped(s) && Sends(s, r, k, t)
    ensures Proceeds(s, t)
  {
  }

  lemma DropProceeds(s: State, r: nat, t: State)
    requires Shaped(s) && Drops(s, r, t)
    ensures Proceeds(s, t)
  {
  }

  lemma WaitProceeds(s: State, r: nat, t: State)
    requires Shaped(s) && Waits(s, r, t)
    ensures Proceeds(s, t)
  {
  }

  // The entry a waiting thread waits for is held up by a waiting thread, too.
  lemma WaitsForWaiting(c: Config, s: State, r: nat)
    requires Good(c, s) && Resting(s) && !c.abandons && r < |s.readers| && s.readers[r].waiting
    ensures DependsOn(c, s.readers[r].thread, WaitingThreads(s.readers), r)
  {
    hide Resting, OneWait;
    assert ReaderInv(EntryOf(s, r), s.readers[r]);
    RestingTurn(c, s, r);
    BlockedWriter(s, s.readers[r].entry);
    assert c.attached[r] == Attached(s.readers[r].thread, s.readers[r].entry);
  }

  /** A state in which nothing can go on although something is unsettled has a circle of waiting threads,
      unless a download was lost. */
  lemma StuckInCircle(c: Config, s: State)
    requires Good(c, s) && Resting(s) && !c.abandons && !Settled(s)
    ensures Circle(c, WaitingThreads(s.readers))
  {
    hide Resting, DependsOn, OneWait;
    var ts := WaitingThreads(s.readers);
    forall t | t in ts ensures exists r :: DependsOn(c, t, ts, r) {
      var r :| 0 <= r < |s.readers| && s.readers[r].waiting && s.readers[r].thread == t;
      WaitsForWaiting(c, s, r);
    }
    if e :| 0 <= e < |s.entries| && s.entries[e].left > 0 && s.entries[e].fate == Going {
      BlockedWriter(s, e);
    } else {
      var r :| 0 <= r < |s.readers| && Active(s.readers[r]);
      NotFreeWaits(s, s.readers[r].thread);
      if Turn(s, r) {
        RestingTurn(c, s, r);
        assert false;
      }
    }
  }

  // Without readers nothing is ever held up.
  lemma NoReadersSettle(c: Config, s: State)
    requires Good(c, s) && Resting(s) && |c.attached| == 0
    ensures Settled(s)
  {
    hide Resting, OneWait;
    forall e | 0 <= e < |s.entries| ensures s.entries[e].left == 0 || s.entries[e].fate != Going {
      if s.entries[e].left > 0 && s.entries[e].fate == Going { BlockedWriter(s, e); }
    }
  }

  // ----- going on until nothing can

  lemma ReachedNext(c: Config, s: State, t: State)
    requires WellFormed(c) && Reached(c, s) && Next(c, s, t)
    ensures Reached(c, t)
  {
    ReachStep(s => s == Start(c), (s, t) => Next(c, s, t), s, t);
  }

  lemma {:induction false} RunToRest(c: Config, s: State, inv: State -> bool) returns (t: State)
    requires WellFormed(c) && Reached(c, s) && inv(s)
    requires forall s, t :: Good(c, s) && inv(s) && Proceeds(s, t) ==> inv(t)
    ensures Reached(c, t) && Resting(t) && inv(t)
    decreases Measure(s)
  {
    hide Reached, Proceeds, Measure, Good;
    if u :| Proceeds(s, u) {
      ReachedIsGood(c, s);
      NextDecreases(c, s, u);
      ReachedNext(c, s, u);
      t := RunToRest(c, u, inv);
    } else {
      t := s;
    }
  }

  // ----- a circle can close

  // Every thread of ts waits inside the circle, and nothing has come for a reader that does.
  ghost predicate Locked(c: Config, s: State, ts: set<nat>)
    requires WellFormed(c)
  {
    && SameParties(c, s) && Shaped(s)
    && (forall t :: t in ts ==> WaitsInside(c, s, t, ts))
    && (forall r :: 0 <= r < |s.readers| ==> Untouched(s, r, ts))
  }

  ghost predicate WaitsInside(c: Config, s: State, t: nat, ts: set<nat>)
    requires WellFormed(c) && SameParties(c, s)
  {
    exists r: nat :: DependsOn(c, t, ts, r) && s.readers[r].waiting
  }

  ghost predicate Untouched(s: State, r: nat, ts: set<nat>)
    requires Shaped(s) && r < |s.readers|
  {
    EntryOf(s, r).writer in ts && s.readers[r].waiting ==>
      CaughtUp(EntryOf(s, r), s.readers[r]) && EntryOf(s, r).fate != Failed
  }

  lemma WriterBusy(c: Config, s: State, ts: set<nat>, e: nat)
    requires WellFormed(c) && Locked(c, s, ts) && e < |s.entries| && s.entries[e].writer in ts
    ensures !Free(s, s.entries[e].writer)
  {
    assert WaitsInside(c, s, s.entries[e].writer, ts);
  }

  // A reader waiting inside the circle has nothing to send and nobody to receive more for it.
  lemma StaysWaiting(c: Config, s: State, t: State, ts: set<nat>, r: nat)
    requires Good(c, s) && Locked(c, s, ts) && Next(c, s, t) && r < |s.readers| && s.readers[r].waiting
    requires EntryOf(s, r).writer in ts
    ensures Shaped(t) && r < |t.readers| && t.readers[r] == s.readers[r] && EntryOf(t, r) == EntryOf(s, r)
  {
    hide DependsOn, WaitsInside, Locked, SameParties, OneWait, ReaderInv;
    LockedParts(c, s, ts, r);
    WriterBusy(c, s, ts, s.readers[r].entry);
    if e: nat, k: nat :| Receives(s, e, k, t) {
    } else if e: nat, fate :| BreaksOff(c, s, e, fate, t) {
    } else if q: nat, k: nat :| Sends(s, q, k, t) {
    } else if q: nat :| Waits(s, q, t) {
    } else if q: nat :| Drops(s, q, t) {
    } else {
      var q: nat :| Leaves(s, q, t);
    }
  }

  lemma LockedParts(c: Config, s: State, ts: set<nat>, r: nat)
    requires WellFormed(c) && Locked(c, s, ts) && r < |s.readers|
    ensures Shaped(s) && Untouched(s, r, ts)
  {
  }

  lemma JustWaited(c: Config, s: State, t: State, r: nat)
    requires Next(c, s, t) && r < |s.readers| && !s.readers[r].waiting && r < |t.readers| && t.readers[r].waiting
    ensures Shaped(t) && CaughtUp(EntryOf(t, r), t.readers[r]) && EntryOf(t, r).fate != Failed
  {
  }

  /** Whatever else happens, a locked circle stays locked. */
  lemma LockedForGood(c: Config, s: State, t: State, ts: set<nat>)
    requires Good(c, s) && Locked(c, s, ts) && Next(c, s, t)
    ensures Locked(c, t, ts)
  {
    hide Next, CaughtUp, OneWait, ReaderInv;
    NextKeepsGood(c, s, t);
    forall u | u in ts ensures WaitsInside(c, t, u, ts) {
      assert WaitsInside(c, s, u, ts);
      var r: nat :| DependsOn(c, u, ts, r) && s.readers[r].waiting;
      DependsInside(c, s, u, ts, r);
      StaysWaiting(c, s, t, ts, r);
    }
    forall r | 0 <= r < |t.readers| ensures Untouched(t, r, ts) {
      if s.readers[r].waiting && EntryOf(s, r).writer in ts {
        StaysWaiting(c, s, t, ts, r);
        LockedParts(c, s, ts, r);
      } else if t.readers[r].waiting && EntryOf(t, r).writer in ts {
        assert c.attached[r].entry == s.readers[r].entry == t.readers[r].entry;
        JustWaited(c, s, t, r);
      }
    }
  }

  lemma DependsInside(c: Config, s: State, u: nat, ts: set<nat>, r: nat)
    requires WellFormed(c) && SameParties(c, s) && Shaped(s) && DependsOn(c, u, ts, r)
    ensures r < |s.readers| && s.readers[r].thread == u && EntryOf(s, r).writer in ts
    ensures EntryOf(s, r).writer != u
  {
    assert c.attached[r] == Attached(s.readers[r].thread, s.readers[r].entry);
  }

  lemma LockedWaits(c: Config, s: State, ts: set<nat>)
    requires Good(c, s) && Locked(c, s, ts)
    ensures ts <= WaitingThreads(s.readers)
    ensures ts != {} ==> !Settled(s)
  {
    hide OneWait;
    forall t | t in ts ensures t in WaitingThreads(s.readers) && !Settled(s) {
      assert WaitsInside(c, s, t, ts);
      var r: nat :| DependsOn(c, t, ts, r) && s.readers[r].waiting;
      DependsInside(c, s, t, ts, r);
      assert ReaderInv(EntryOf(s, r), s.readers[r]);
    }
  }

  // Of the circle ts, exactly the threads of done have gone into their wait, and nothing else has happened.
  ghost predicate Closing(c: Config, s: State, ts: set<nat>, done: set<nat>)
    requires WellFormed(c)
  {
    && SameParties(c, s) && Shaped(s)
    && (forall r :: 0 <= r < |s.readers| ==>
          && Active(s.readers[r]) && CaughtUp(EntryOf(s, r), s.readers[r]) && EntryOf(s, r).fate == Going
          && (s.readers[r].waiting ==> s.readers[r].thread in done))
    && (forall t :: t in done ==> WaitsInside(c, s, t, ts))
  }

  /** One thread after the other goes into its wait before a single byte has arrived. */
  lemma {:induction false} CloseCircle(c: Config, s: State, ts: set<nat>, done: set<nat>) returns (t: State)
    requires WellFormed(c) && Circle(c, ts) && done <= ts && Reached(c, s) && Closing(c, s, ts, done)
    ensures Reached(c, t) && Closing(c, t, ts, ts)
    decreases |ts - done|
  {
    hide Reached, Closing, Circle, DependsOn, Waits, Next;
    if done == ts {
      t := s;
    } else {
      var u := SomeOther(ts, done);
      var r, v := NextWaiter(c, s, ts, done, u);
      ReachedNext(c, s, v);
      OneMoreWaits(c, s, ts, done, u, r, v);
      assert ts - (done + {u}) == (ts - done) - {u};
      t := CloseCircle(c, v, ts, done + {u});
    }
  }

  lemma SomeOther(ts: set<nat>, done: set<nat>) returns (u: nat)
    requires done <= ts && done != ts
    ensures u in ts && u !in done
  {
    u :| u in ts && u !in done;
  }

  lemma NextWaiter(c: Config, s: State, ts: set<nat>, done: set<nat>, u: nat) returns (r: nat, v: State)
    requires WellFormed(c) && Circle(c, ts) && Closing(c, s, ts, done) && u in ts && u !in done
    ensures DependsOn(c, u, ts, r) && Waits(s, r, v) && Next(c, s, v)
  {
    hide Proceeds, Closing, DependsOn, Waits;
    r :| DependsOn(c, u, ts, r);
    v := WaiterStep(c, s, ts, done, u, r);
    WaitProceeds(s, r, v);
  }

  lemma WaiterStep(c: Config, s: State, ts: set<nat>, done: set<nat>, u: nat, r: nat) returns (v: State)
    requires WellFormed(c) && Closing(c, s, ts, done) && u !in done && DependsOn(c, u, ts, r)
    ensures Shaped(s) && Waits(s, r, v)
  {
    hide WaitsInside, CaughtUp, DependsOn;
    DependsInside(c, s, u, ts, r);
    v := s.(readers := s.readers[r := s.readers[r].(waiting := true)]);
  }

  lemma OneMoreWaits(c: Config, s: State, ts: set<nat>, done: set<nat>, u: nat, r: nat, v: State)
    requires WellFormed(c) && Closing(c, s, ts, done) && DependsOn(c, u, ts, r) && Waits(s, r, v)
    ensures Closing(c, v, ts, done + {u})
  {
    hide CaughtUp, Active;
    forall t | t in done + {u} ensures WaitsInside(c, v, t, ts) {
      if t in done {
        assert WaitsInside(c, s, t, ts);
        var q: nat :| DependsOn(c, t, ts, q) && s.readers[q].waiting;
        assert v.readers[q].waiting;
      } else {
        assert v.readers[r].waiting;
      }
    }
    DependsInside(c, s, u, ts, r);
    forall q | 0 <= q < |v.readers|
      ensures Active(v.readers[q]) && CaughtUp(EntryOf(v, q), v.readers[q]) && EntryOf(v, q).fate == Going {
      WaitingChangesNeither(s, v, r, q);
    }
  }

  lemma WaitingChangesNeither(s: State, v: State, r: nat, q: nat)
    requires Shaped(s) && Waits(s, r, v) && q < |s.readers|
    ensures Shaped(v) && q < |v.readers| && EntryOf(v, q) == EntryOf(s, q)
    ensures Active(v.readers[q]) == Active(s.readers[q])
    ensures CaughtUp(EntryOf(v, q), v.readers[q]) == CaughtUp(EntryOf(s, q), s.readers[q])
  {
  }

  lemma StartIsReached(c: Config)
    requires WellFormed(c)
    ensures Reached(c, Start(c)) && forall ts :: Closing(c, Start(c), ts, {})
  {
    ReachStart(s => s == Start(c), (s, t) => Next(c, s, t), Start(c));
  }

  lemma ClosedIsLocked(c: Config, s: State, ts: set<nat>)
    requires WellFormed(c) && Closing(c, s, ts, ts)
    ensures Locked(c, s, ts)
  {
    hide DependsOn;
  }

  // ----- a lost download strands its readers

  // Reader r has caught up with a download that was lost.
  ghost predicate Stranded(s: State, r: nat) {
    && Shaped(s) && r < |s.readers| && Active(s.readers[r])
    && CaughtUp(EntryOf(s, r), s.readers[r]) && EntryOf(s, r).fate == Lost
  }

  lemma StrandedForGood(s: State, t: State, r: nat)
    requires Stranded(s, r) && Proceeds(s, t)
    ensures Stranded(t, r)
  {
  }

  lemma LossAtStart(c: Config) returns (s: State)
    requires WellFormed(c) && c.abandons && |c.attached| > 0
    ensures Reached(c, s) && Stranded(s, 0)
  {
    hide Reached;
    StartIsReached(c);
    var s0, e := Start(c), c.attached[0].entry;
    s := s0.(entries := s0.entries[e := s0.entries[e].(fate := Lost)]);
    assert BreaksOff(c, s0, e, Lost, s);
    assert Next(c, s0, s);
    ReachedNext(c, s0, s);
  }

  // ----- the theorems

  /** A circle of threads, each reading what another of them downloads, can lock itself for good. */
  lemma CircleDeadlocks(c: Config, ts: set<nat>) returns (s: State)
    requires WellFormed(c) && Circle(c, ts)
    ensures Reached(c, s) && Resting(s) && !Settled(s) && ts <= WaitingThreads(s.readers)
  {
    hide Reached, Circle, Closing, Locked, Resting, Good, Start, SameParties, Settled, Proceeds;
    StartIsReached(c);
    s := CloseCircle(c, Start(c), ts, {});
    ClosedIsLocked(c, s, ts);
    forall s, t | Good(c, s) && Locked(c, s, ts) && Proceeds(s, t) ensures Locked(c, t, ts) {
      LockedForGood(c, s, t, ts);
    }
    s := RunToRest(c, s, s => Locked(c, s, ts));
    ReachedIsGood(c, s);
    LockedWaits(c, s, ts);
    CircleNotEmpty(c, ts);
  }

  lemma CircleNotEmpty(c: Config, ts: set<nat>)
    requires WellFormed(c) && Circle(c, ts)
    ensures ts != {}
  {
  }

  /** A download that is lost can leave a reader for ever without the rest of it. */
  lemma LossStrands(c: Config) returns (s: State)
    requires WellFormed(c) && c.abandons && |c.attached| > 0
    ensures Reached(c, s) && Resting(s) && !Settled(s)
  {
    hide Reached, Resting, Good, Proceeds;
    s := LossAtStart(c);
    forall s, t | Stranded(s, 0) && Proceeds(s, t) ensures Stranded(t, 0) {
      StrandedForGood(s, t, 0);
    }
    s := RunToRest(c, s, s => Stranded(s, 0));
    assert Stranded(s, 0);
  }

  /** Every way of going on ends with all downloads over and all readers served or gone, if and only if there
      are no readers, or no download is ever abandoned and there is no circle of threads each reading what
      another of them downloads. */
  lemma CompletesIff(c: Config)
    requires WellFormed(c)
    ensures (forall s :: Reached(c, s) && Resting(s) ==> Settled(s))
            <==> |c.attached| == 0 || (!c.abandons && !exists ts :: Circle(c, ts))
  {
    hide Reached, Resting, Settled, Good, Circle;
    if |c.attached| == 0 {
      forall s | Reached(c, s) && Resting(s) ensures Settled(s) {
        ReachedIsGood(c, s);
        NoReadersSettle(c, s);
      }
    } else if c.abandons {
      var s := LossStrands(c);
    } else if ts :| Circle(c, ts) {
      var s := CircleDeadlocks(c, ts);
    } else {
      forall s | Reached(c, s) && Resting(s) ensures Settled(s) {
        ReachedIsGood(c, s);
        if !Settled(s) { StuckInCircle(c, s); }
      }
    }
  }

  /** The smallest circle: two threads that each download one entry and read the other's. */
  lemma TwoThreadsDeadlock(a: nat, b: nat, header: nat, body: nat) returns (s: State)
    requires a != b && header > 0
    ensures var c := Config([Download(a, header, body), Download(b, header, body)],
                            [Attached(a, 1), Attached(b, 0)], false);
            WellFormed(c) && Reached(c, s) && Resting(s) && !Settled(s)
  {
    hide Reached, Resting, Settled;
    var c := Config([Download(a, header, body), Download(b, header, body)],
                    [Attached(a, 1), Attached(b, 0)], false);
    var ts := {a, b};
    assert DependsOn(c, a, ts, 0) && DependsOn(c, b, ts, 1);
    s := CircleDeadlocks(c, ts);
  }
}
