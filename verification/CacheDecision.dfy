/** What the proxy decides to keep, for every response an origin may send: which bytes are taken for a header,
    which headers are refused, and what a refusal does not prevent. */
module CacheDecision {
  import opened Wrappers
  import opened Runs
  import opened HttpText
  import opened ResponseHeader
  import opened ProxyConnection
  import opened CacheStream

  // Bytes with a complete header that says 200 and gives a length within the limit.
  ghost predicate Accepted(b: string) {
    BodyIndex(b) != -1 && ResponseCode(b) == 200 && 0 < ContentLength(b) < MAX_CACHE_ENTRY_SIZE
  }

  // Whether the entry holds, or is about to hold, bytes to be served.
  predicate Keeps(s: State) {
    s.writer == SizeSet || s.writer == Stored || s.writer == Streaming || s.writer == Finished || s.status == Valid
  }

  // ----- the kinds of steps

  ghost predicate Received(c: Config, s: State, n: nat, t: State) {
    CanReceive(c, s, n) && t == Receive(c, s, n)
  }

  // A reader's step.
  ghost predicate ReadersOnly(s: State, t: State) {
    t == s.(readers := t.readers)
  }

  lemma StepKinds(c: Config, s: State, t: State)
    requires Next(c, s, t)
    ensures || (exists n: nat :: Received(c, s, n, t))
            || (s.writer == SizeSet && t == Store(s))
            || (s.writer == Stored && t == Compare(s))
            || WriterBreaks(c, s, t)
            || ReadersOnly(s, t)
  {
    hide Receive, Moved, Moves, Store, Compare, WriterBreaks;
    if n: nat :| CanReceive(c, s, n) && t == Receive(c, s, n) {
      assert Received(c, s, n, t);
    }
  }

  lemma ReceivedMore(c: Config, s: State, n: nat, t: State)
    requires Received(c, s, n, t)
    ensures s.received < t.received == s.received + n <= |c.response|
    ensures s.writer == Receiving || s.writer == Streaming
    ensures s.writer == Streaming ==> t.refused == s.refused && t.from == s.from
  {
    hide BodyIndex, ContentLength, ResponseCode;
  }

  // ----- one receive

  // What becomes of the state s when the bytes b have been collected in it.
  ghost predicate Decided(s: State, b: string, t: State) {
    if BodyIndex(b) == -1 then
      t == s.(received := t.received, buffer := b)
    else if Accepted(b) then
      t == s.(received := t.received, buffer := b, writer := SizeSet, allSize := BodyIndex(b) + ContentLength(b))
    else
      && t.status == Invalid && t.refused
      && t.data == s.data && t.allSize == s.allSize && t.alreadyWritten == s.alreadyWritten
      && (forall i :: 0 <= i < |t.readers| ==> t.readers[i].pc != Waiting)
      && (if ContentLength(b) != -1
          then t.writer == Receiving && t.buffer == "" && t.from == t.received
          else t.buffer == b && t.from == s.from
               && t.writer == if EndsWithHeader(ResponseCode(b)) then Failed else Receiving)
  }

  // Informational, "no content" and "not modified" responses.
  predicate EndsWithHeader(code: int) {
    100 <= code < 200 || code == 204 || code == 304
  }

  /** What a receive does while no size is known, whatever has come: an incomplete header is collected, an
      accepted one sets the size, any other makes the entry invalid, wakes everybody and stores nothing. */
  lemma ReceiveDecides(c: Config, s: State, t: State)
    requires Next(c, s, t) && s.writer == Receiving && s.received < t.received
    ensures t.received <= |c.response| && Decided(s, s.buffer + c.response[s.received..t.received], t)
  {
    hide Decided, ReceiveHeader, Next;
    StepKinds(c, s, t);
    var n: nat :| Received(c, s, n, t);
    HeaderDecides(s, c.response[s.received..s.received + n]);
  }

  lemma HeaderDecides(s: State, buf: string)
    requires s.writer == Receiving
    ensures Decided(s, s.buffer + buf, ReceiveHeader(s, buf)) && ReceiveHeader(s, buf).received == s.received + |buf|
  {
    hide BodyIndex, ResponseCode;
  }

  // ----- the invariant

  // The size was set when the bytes up to n had been collected.
  ghost predicate SizedAt(c: Config, s: State, n: nat) {
    && s.from <= n <= s.received <= |c.response|
    && Accepted(c.response[s.from..n])
    && s.allSize == BodyIndex(c.response[s.from..n]) + ContentLength(c.response[s.from..n])
  }

  ghost predicate Inv(c: Config, s: State) {
    && s.from <= s.received <= |c.response|
    && (!s.refused ==> s.from == 0)
    && s.alreadyWritten == |s.data|
    && match s.writer
       case Receiving =>
         && s.buffer == c.response[s.from..s.received] && s.data == "" && s.allSize == 0
         && s.status == (if s.refused then Invalid else Downloading)
         && (!s.refused ==> BodyIndex(s.buffer) == -1)
       case SizeSet =>
         && s.buffer == c.response[s.from..s.received] && s.data == "" && SizedAt(c, s, s.received)
         && s.status == (if s.refused then Invalid else Downloading)
       case Stored | Streaming =>
         && s.data == c.response[s.from..s.received] && (exists n: nat :: SizedAt(c, s, n))
         && s.status == (if s.refused then Invalid else Downloading)
       case Finished =>
         && s.data == c.response[s.from..s.received] && (exists n: nat :: SizedAt(c, s, n))
         && s.status == Valid && |s.data| == s.allSize
       case Failed => s.status == Invalid
       case Lost => s.status != Valid
  }

  lemma StartHasInv(c: Config)
    ensures Inv(c, Start(c))
  {
    assert c.response[..0] == "";
  }

  lemma SliceGrows(s: string, i: nat, j: nat, k: nat)
    requires i <= j <= k <= |s|
    ensures s[i..j] + s[j..k] == s[i..k]
  {
  }

  lemma DecidedKeepsInv(c: Config, s: State, t: State)
    requires Inv(c, s) && s.writer == Receiving && s.received < t.received <= |c.response|
    requires Decided(s, c.response[s.from..t.received], t)
    ensures Inv(c, t)
  {
    hide BodyIndex, ResponseCode, ContentLength;
    if BodyIndex(c.response[s.from..t.received]) == -1 {
    } else if Accepted(c.response[s.from..t.received]) {
    } else {
      assert c.response[t.received..t.received] == "";
    }
  }

  lemma BodyKeepsInv(c: Config, s: State, n: nat, t: State)
    requires Inv(c, s) && s.writer == Streaming && Received(c, s, n, t)
    ensures Inv(c, t)
  {
    hide SizedAt;
    SliceGrows(c.response, s.from, s.received, t.received);
    SizedStays(c, s, t);
  }

  lemma OtherKeepsInv(c: Config, s: State, t: State)
    requires Inv(c, s)
    requires || (s.writer == SizeSet && t == Store(s)) || (s.writer == Stored && t == Compare(s))
             || WriterBreaks(c, s, t) || ReadersOnly(s, t)
    ensures Inv(c, t)
  {
    hide Inv, Store, Compare, WriterBreaks, ReadersOnly;
    if s.writer == SizeSet && t == Store(s) {
      StoreKeepsInv(c, s);
    } else if s.writer == Stored && t == Compare(s) {
      CompareKeepsInv(c, s);
    } else if WriterBreaks(c, s, t) {
      BreakingKeepsInv(c, s, t);
    } else {
      ReadersKeepInv(c, s, t);
    }
  }

  lemma StoreKeepsInv(c: Config, s: State)
    requires Inv(c, s) && s.writer == SizeSet
    ensures Inv(c, Store(s))
  {
    hide Accepted, BodyIndex, ContentLength;
    assert SizedAt(c, Store(s), s.received);
  }

  // The size stays right as long as neither it nor the bytes it was set for change.
  lemma SizedStays(c: Config, s: State, t: State)
    requires exists n: nat :: SizedAt(c, s, n)
    requires t.from == s.from && t.allSize == s.allSize && s.received <= t.received <= |c.response|
    ensures exists n: nat :: SizedAt(c, t, n)
  {
    hide Accepted, BodyIndex, ContentLength;
    var n: nat :| SizedAt(c, s, n);
    assert SizedAt(c, t, n);
  }

  lemma CompareKeepsInv(c: Config, s: State)
    requires Inv(c, s) && s.writer == Stored
    ensures Inv(c, Compare(s))
  {
    hide SizedAt;
    SizedStays(c, s, Compare(s));
  }

  lemma BreakingKeepsInv(c: Config, s: State, t: State)
    requires Inv(c, s) && WriterBreaks(c, s, t)
    ensures Inv(c, t)
  {
  }

  lemma ReadersKeepInv(c: Config, s: State, t: State)
    requires Inv(c, s) && ReadersOnly(s, t)
    ensures Inv(c, t)
  {
    hide Accepted, BodyIndex, ContentLength;
    if exists n: nat :: SizedAt(c, s, n) { SizedStays(c, s, t); }
  }

  lemma NextKeepsInv(c: Config, s: State, t: State)
    requires Inv(c, s) && Next(c, s, t)
    ensures Inv(c, t)
  {
    hide Inv, Decided, Accepted, Next, Store, Compare, WriterBreaks, ReadersOnly, Received;
    StepKinds(c, s, t);
    if n: nat :| Received(c, s, n, t) {
      ReceivedMore(c, s, n, t);
      if s.writer == Streaming {
        BodyKeepsInv(c, s, n, t);
      } else {
        ReceiveDecides(c, s, t);
        InvBuffer(c, s);
        SliceGrows(c.response, s.from, s.received, t.received);
        DecidedKeepsInv(c, s, t);
      }
    } else {
      OtherKeepsInv(c, s, t);
    }
  }

  lemma InvBuffer(c: Config, s: State)
    requires Inv(c, s)
    ensures s.from <= s.received <= |c.response|
    ensures s.writer == Receiving ==> s.buffer == c.response[s.from..s.received]
  {
  }

  lemma ReachedHasInv(c: Config, s: State)
    requires Reached(c, s)
    ensures Inv(c, s)
  {
    hide Inv, Next;
    StartHasInv(c);
    forall s, t | Inv(c, s) && Next(c, s, t) ensures Inv(c, t) {
      NextKeepsInv(c, s, t);
    }
    InvariantWhereReached(s => s == Start(c), (s, t) => Next(c, s, t), s => Inv(c, s), s);
  }

  // ----- the theorems, for every response

  /** Whatever is kept was accepted: some bytes of the response, the first ones unless a header was refused
      before, form a complete header with status 200 and a length within the limit, and the entry's size is
      theirs. A finished entry has exactly that size. */
  lemma KeptWasAccepted(c: Config, s: State)
    requires Reached(c, s) && Keeps(s)
    ensures exists n: nat :: SizedAt(c, s, n)
    ensures !s.refused ==> s.from == 0
    ensures s.status == Valid <==> s.writer == Finished
    ensures s.writer == Finished ==> s.data == c.response[s.from..s.received] && |s.data| == s.allSize
  {
    hide Accepted;
    ReachedHasInv(c, s);
  }

  // A response whose header itself names a status and a length, and the test of that header.
  ghost predicate NamesBoth(response: string) {
    var h := BodyIndex(response);
    h != -1 && ResponseCode(response[..h]) > 0 && ContentLength(response[..h]) > 0
  }

  ghost predicate GoodHeader(response: string)
    requires NamesBoth(response)
  {
    var header := response[..BodyIndex(response)];
    ResponseCode(header) == 200 && ContentLength(header) < MAX_CACHE_ENTRY_SIZE
  }

  // However much of the body has come with it, the header alone decides.
  lemma HeaderAloneDecides(response: string, n: nat)
    requires NamesBoth(response) && n <= |response|
    ensures BodyIndex(response[..n]) == if n >= BodyIndex(response) then BodyIndex(response) else -1
    ensures n >= BodyIndex(response) ==>
              && (Accepted(response[..n]) <==> GoodHeader(response))
              && ContentLength(response[..n]) == ContentLength(response[..BodyIndex(response)])
  {
    hide ResponseCode, ContentLength, BodyIndex;
    BodyIndexOfPrefix(response, n);
    if n >= BodyIndex(response) { FieldsOfPrefix(response, n); }
  }

  // A refusal was right, and nothing of the header is looked at again.
  ghost predicate RefusedRightly(c: Config, s: State)
    requires NamesBoth(c.response)
  {
    s.refused ==> !GoodHeader(c.response) && s.from >= BodyIndex(c.response)
  }

  lemma NextRefusesRightly(c: Config, s: State, t: State)
    requires NamesBoth(c.response) && Inv(c, s) && RefusedRightly(c, s) && Next(c, s, t)
    ensures RefusedRightly(c, t)
  {
    hide NamesBoth, GoodHeader, Accepted, BodyIndex, ContentLength, ResponseCode, Next, Received;
    StepKinds(c, s, t);
    if n: nat :| Received(c, s, n, t) {
      ReceivedMore(c, s, n, t);
      if s.writer == Receiving {
        InvBuffer(c, s);
        ReceiveDecides(c, s, t);
        SliceGrows(c.response, s.from, s.received, t.received);
        DecisionRight(c, s, t);
      }
    }
  }

  lemma DecisionRight(c: Config, s: State, t: State)
    requires NamesBoth(c.response) && RefusedRightly(c, s) && (!s.refused ==> s.from == 0)
    requires s.from <= s.received < t.received <= |c.response| && Decided(s, c.response[s.from..t.received], t)
    ensures RefusedRightly(c, t)
  {
    hide NamesBoth, GoodHeader, BodyIndex, ContentLength, ResponseCode;
    assert !s.refused ==> c.response[s.from..t.received] == c.response[..t.received];
    SizedHeader(c.response);
    HeaderAloneDecides(c.response, t.received);
  }

  lemma ReachedRefusesRightly(c: Config, s: State)
    requires NamesBoth(c.response) && Reached(c, s)
    ensures Inv(c, s) && RefusedRightly(c, s)
  {
    hide Inv, Next, RefusedRightly, NamesBoth;
    StartHasInv(c);
    StartRefusesNothing(c);
    forall s, t | (Inv(c, s) && RefusedRightly(c, s)) && Next(c, s, t) ensures Inv(c, t) && RefusedRightly(c, t) {
      NextKeepsInv(c, s, t);
      NextRefusesRightly(c, s, t);
    }
    InvariantWhereReached(s => s == Start(c), (s, t) => Next(c, s, t), s => Inv(c, s) && RefusedRightly(c, s), s);
  }

  lemma StartRefusesNothing(c: Config)
    requires NamesBoth(c.response)
    ensures RefusedRightly(c, Start(c))
  {
  }

  /** For a response whose header names a status and a length, that header decides, however the stream is
      split: a good one is never refused, and as long as nothing has been refused only a good one is kept. */
  lemma HeaderDecidesKeeping(c: Config, s: State)
    requires NamesBoth(c.response) && Reached(c, s)
    ensures s.refused ==> !GoodHeader(c.response)
    ensures Keeps(s) && !s.refused ==>
              && GoodHeader(c.response)
              && s.allSize == BodyIndex(c.response) + ContentLength(c.response[..BodyIndex(c.response)])
  {
    hide NamesBoth, GoodHeader, Accepted, BodyIndex, ContentLength, ResponseCode;
    ReachedRefusesRightly(c, s);
    if Keeps(s) && !s.refused {
      KeptWasAccepted(c, s);
      var n: nat :| SizedAt(c, s, n);
      assert s.from == 0 && c.response[s.from..n] == c.response[..n];
      AcceptedIsComplete(c.response[..n]);
      HeaderAloneDecides(c.response, n);
    }
  }

  lemma AcceptedIsComplete(b: string)
    requires Accepted(b)
    ensures BodyIndex(b) != -1
  {
  }

  // ----- what a refusal does not prevent

  // Somewhere behind the header there are bytes that would be accepted by themselves.
  ghost predicate HidesAccepted(response: string) {
    exists p: nat, n: nat :: BodyIndex(response) <= p <= n <= |response| && Accepted(response[p..n])
  }

  lemma ReachedNext(c: Config, s: State, t: State)
    requires Reached(c, s) && Next(c, s, t)
    ensures Reached(c, t)
  {
    ReachStep(s => s == Start(c), (s, t) => Next(c, s, t), s, t);
  }

  lemma ReceiveOf(c: Config, s: State, n: nat) returns (t: State)
    requires Reached(c, s) && CanReceive(c, s, n)
    ensures Reached(c, t) && Next(c, s, t) && t.received == s.received + n
  {
    hide BodyIndex, ContentLength, ResponseCode, Reached;
    t := Receive(c, s, n);
    assert WriterStep(c, s, t);
    ReachedNext(c, s, t);
  }

  /** The first recv ends at p, behind a refused header; the second brings the bytes up to n. */
  lemma KeepsHidden(c: Config, p: nat, n: nat) returns (t: State)
    requires NamesBoth(c.response) && !GoodHeader(c.response)
    requires BodyIndex(c.response) <= p <= n <= |c.response| && Accepted(c.response[p..n])
    ensures Reached(c, t) && t.writer == SizeSet && t.refused && t.buffer == c.response[p..n]
  {
    hide NamesBoth, GoodHeader, Accepted, BodyIndex, ContentLength, ResponseCode, Next, Reached;
    var s := Start(c);
    StartIsReached(c);
    HeaderIsLong(c.response);
    t := ReceiveOf(c, s, p);
    ReceiveDecides(c, s, t);
    assert "" + c.response[0..p] == c.response[..p];
    HeaderAloneDecides(c.response, p);
    SizedHeader(c.response);
    AcceptedIsLong(c.response[p..n]);
    s := t;
    t := ReceiveOf(c, s, n - p);
    ReceiveDecides(c, s, t);
    assert "" + c.response[p..n] == c.response[p..n];
    AcceptedIsComplete(c.response[p..n]);
  }

  /** And if those bytes are a whole response by themselves, they become a valid entry. */
  lemma ServesHidden(c: Config, p: nat, n: nat) returns (t: State)
    requires NamesBoth(c.response) && !GoodHeader(c.response)
    requires BodyIndex(c.response) <= p <= n <= |c.response| && Accepted(c.response[p..n])
    requires n - p == BodyIndex(c.response[p..n]) + ContentLength(c.response[p..n])
    ensures Reached(c, t) && t.status == Valid && t.data == c.response[p..n]
  {
    hide NamesBoth, GoodHeader, Accepted, BodyIndex, ContentLength, ResponseCode, Reached;
    var s := KeepsHidden(c, p, n);
    KeptWasAccepted(c, s);
    SizedNow(c, s);
    var u := Store(s);
    assert WriterStep(c, s, u);
    ReachedNext(c, s, u);
    t := Compare(u);
    assert WriterStep(c, u, t);
    ReachedNext(c, u, t);
  }

  lemma SizedNow(c: Config, s: State)
    requires Reached(c, s) && s.writer == SizeSet
    ensures s.allSize == BodyIndex(s.buffer) + ContentLength(s.buffer)
  {
    ReachedHasInv(c, s);
  }

  lemma HeaderIsLong(response: string)
    requires NamesBoth(response)
    ensures BodyIndex(response) >= 4
  {
  }

  lemma SizedHeader(response: string)
    requires NamesBoth(response)
    ensures ContentLength(response[..BodyIndex(response)]) != -1
  {
  }

  lemma AcceptedIsLong(b: string)
    requires Accepted(b)
    ensures |b| >= 4
  {
  }

  lemma KeptBehindHeader(c: Config, s: State)
    requires NamesBoth(c.response) && !GoodHeader(c.response) && Reached(c, s) && Keeps(s)
    ensures HidesAccepted(c.response)
  {
    hide NamesBoth, GoodHeader, Accepted, BodyIndex, Reached;
    HeaderDecidesKeeping(c, s);
    ReachedRefusesRightly(c, s);
    KeptWasAccepted(c, s);
    var n: nat :| SizedAt(c, s, n);
    assert Accepted(c.response[s.from..n]);
  }

  /** A refused response stays out of the cache, if and only if nothing behind its header would be accepted by
      itself. */
  lemma RefusedStaysOutIff(c: Config)
    requires NamesBoth(c.response) && !GoodHeader(c.response)
    ensures (forall s :: Reached(c, s) ==> !Keeps(s)) <==> !HidesAccepted(c.response)
  {
    hide NamesBoth, GoodHeader, Accepted, BodyIndex, Reached;
    if p: nat, n: nat :| BodyIndex(c.response) <= p <= n <= |c.response| && Accepted(c.response[p..n]) {
      var t := KeepsHidden(c, p, n);
      assert Keeps(t);
    } else {
      forall s | Reached(c, s) ensures !Keeps(s) {
        if Keeps(s) { KeptBehindHeader(c, s); }
      }
    }
  }
}
