/** One download into a cache entry while other connections stream from it. The writer receives the
    response in pieces of any size; readers send what is there in chunks, and wait when they have caught
    up: in the poll loop if their thread is the writer's own, inside cond_wait, which holds up their whole
    thread, if it is another. Appending to the entry and waking its readers is one atomic step. */
module CacheStream {
  import opened Runs
  import opened HttpText
  import opened ResponseHeader
  import opened ProxyConnection

  const CHUNK: nat := 64
  const MAX_CACHE_ENTRY_SIZE: nat := 101 * 1048576

  // ----- the entry's memory

  class CacheEntry {
    var data: array<char>
    var allSize: nat
    var alreadyWritten: nat

    ghost predicate Valid()
      reads this, data
    {
      alreadyWritten <= data.Length == allSize
    }

    ghost function Bytes(): string
      reads this, data
      requires Valid()
    {
      data[..alreadyWritten]
    }

    constructor ()
      ensures Valid() && fresh(data) && allSize == 0 && Bytes() == ""
    {
      data := new char[0];
      allSize, alreadyWritten := 0, 0;
    }

    /** The header is complete: allocate for header and body, and store what has arrived of both. */
    method StoreFirst(buffer: string, contentLength: nat, indexOfBody: nat)
      requires |buffer| <= contentLength + indexOfBody
      modifies this
      ensures Valid() && fresh(data)
      ensures allSize == contentLength + indexOfBody && Bytes() == buffer
    {
      allSize := contentLength + indexOfBody;
      data := new char[allSize](_ => ' ');
      alreadyWritten := |buffer|;
      forall k | 0 <= k < |buffer| { data[k] := buffer[k]; }
    }

    method Append(buf: string)
      requires Valid() && alreadyWritten + |buf| <= allSize
      modifies data, this`alreadyWritten
      ensures Valid() && Bytes() == old(Bytes()) + buf
    {
      alreadyWritten := alreadyWritten + |buf|;
      var dest := alreadyWritten - |buf|;
      forall k | 0 <= k < |buf| { data[dest + k] := buf[k]; }
    }

    /** What a reader at this offset offers to send. */
    method NextChunk(cacheBytesWritten: nat) returns (sendData: string)
      requires Valid() && cacheBytesWritten <= alreadyWritten
      ensures sendData == Chunk(Bytes(), cacheBytesWritten)
    {
      var bytesToWrite := alreadyWritten - cacheBytesWritten;
      if bytesToWrite > CHUNK {
        bytesToWrite := CHUNK;
      }
      sendData := data[cacheBytesWritten..cacheBytesWritten + bytesToWrite];
    }
  }

  function Chunk(data: string, from: nat): (s: string)
    requires from <= |data|
    ensures s <= data[from..] && |s| == if |data| - from > CHUNK then CHUNK else |data| - from
  {
    if |data| - from > CHUNK then data[from..from + CHUNK] else data[from..]
  }

  // ----- the protocol

  datatype WriterPc =
    | Receiving    // header not complete: bytes go to the connection's buffer
    | SizeSet      // allSize set, data not stored yet
    | Stored       // bytes stored and readers woken, before the comparison with allSize
    | Streaming    // before the next recv
    | Finished     // entry valid, connection dropped
    | Failed       // entry invalid
    | Lost         // connection dropped, entry left as it was

  datatype ReaderPc =
    | Ready       // before the tests of the reader's arm
    | Waiting     // has sent all there is: not polled, or inside cond_wait
    | Woken       // cond_wait returned, before the test of its loop
    | Complete    // has sent everything
    | Dropped     // found the entry invalid
    | Broken      // its client went away

  datatype Reader = Reader(thread: nat, pc: ReaderPc, cacheBytesWritten: nat, sent: string)

  const WRITERS_THREAD: nat := 0

  // response: the bytes the origin has to send; threads: which thread serves each reader; abandons: whether
  // the writer's connection may be dropped without the entry being made invalid.
  datatype Config = Config(response: string, threads: seq<nat>, abandons: bool)

  // buffer, and later data, hold the bytes of the response from position from on; refused: whether a complete
  // header has been found not to be cacheable.
  datatype State = State(
    received: nat, from: nat, buffer: string, writer: WriterPc, refused: bool,
    status: CacheStatus, allSize: nat, alreadyWritten: nat, data: string,
    readers: seq<Reader>)

  function Start(c: Config): State {
    State(0, 0, "", Receiving, false, Downloading, 0, 0, "",
          seq(|c.threads|, i requires 0 <= i < |c.threads| => Reader(c.threads[i], Ready, 0, "")))
  }

  function WakeOne(r: Reader): Reader {
    if r.pc == Waiting then r.(pc := if r.thread == WRITERS_THREAD then Ready else Woken) else r
  }

  function MadeInvalid(s: State): State {
    s.(status := Invalid, readers := Mapped(WakeOne, s.readers))
  }

  function GiveUp(s: State): State {
    MadeInvalid(s).(writer := Failed)
  }

  // The entry is made invalid and the buffer freed; the connection goes on forwarding, and collects what
  // comes next as if it were a header.
  function Refuse(s: State): State {
    MadeInvalid(s).(refused := true, buffer := "", from := s.received)
  }

  // Without a length the buffer is kept; a response that cannot have a body ends the connection.
  function RefuseUnsized(s: State, code: int): State {
    MadeInvalid(s).(refused := true, writer := if HasPayload(code) then s.writer else Failed)
  }

  // recv returns between one byte and all that is left. The header search needs three bytes to look at.
  predicate CanReceive(c: Config, s: State, n: nat) {
    && (s.writer == Receiving || s.writer == Streaming)
    && 0 < n <= |c.response| - s.received
    && (s.writer == Receiving ==> |s.buffer| + n >= 3)
  }

  // alreadyWritten is still 0: bytes collect in the connection's buffer until the header is complete.
  function ReceiveHeader(s: State, buf: string): State {
    var b := s.buffer + buf;
    var t := s.(received := s.received + |buf|, buffer := b);
    var indexOfBody, length := BodyIndex(b), ContentLength(b);
    if indexOfBody < 0 then t
    else if length >= MAX_CACHE_ENTRY_SIZE then Refuse(t)
    else if length == -1 then RefuseUnsized(t, ResponseCode(b))
    else if ResponseCode(b) != 200 then Refuse(t)
    else t.(allSize := length + indexOfBody, writer := SizeSet)
  }

  function ReceiveBody(s: State, buf: string): State {
    s.(received := s.received + |buf|, data := s.data + buf, alreadyWritten := s.alreadyWritten + |buf|,
       writer := Stored, readers := Mapped(WakeOne, s.readers))
  }

  function Receive(c: Config, s: State, n: nat): State
    requires CanReceive(c, s, n)
  {
    var buf := c.response[s.received..s.received + n];
    if s.writer == Streaming then ReceiveBody(s, buf) else ReceiveHeader(s, buf)
  }

  function Store(s: State): State {
    s.(data := s.buffer, alreadyWritten := |s.buffer|, buffer := "",
       writer := Stored, readers := Mapped(WakeOne, s.readers))
  }

  function Compare(s: State): State {
    if s.alreadyWritten == s.allSize then s.(status := Valid, writer := Finished) else s.(writer := Streaming)
  }

  predicate CaughtUp(s: State, r: Reader) {
    s.alreadyWritten == r.cacheBytesWritten || s.allSize == 0
  }

  // Inside cond_wait the reader's thread serves nobody else.
  predicate InWait(r: Reader) {
    r.thread != WRITERS_THREAD && (r.pc == Waiting || r.pc == Woken)
  }

  ghost predicate ThreadFree(s: State, i: nat)
    requires i < |s.readers|
  {
    forall j :: 0 <= j < |s.readers| && j != i && s.readers[j].thread == s.readers[i].thread ==> !InWait(s.readers[j])
  }

  // k: how much of the offered chunk the client's socket took. Out of cond_wait, the loop's test comes
  // before a look at the status.
  predicate Moves(s: State, r: Reader, k: nat) {
    && (r.pc == Ready || r.pc == Woken)
    && ((r.pc == Ready && s.status == Invalid) || CaughtUp(s, r)
        || (r.cacheBytesWritten <= |s.data| && 0 < k <= |Chunk(s.data, r.cacheBytesWritten)|))
  }

  function Moved(s: State, r: Reader, k: nat): Reader
    requires Moves(s, r, k)
  {
    if s.status == Invalid && (r.pc == Ready || CaughtUp(s, r)) then r.(pc := Dropped)
    else if CaughtUp(s, r) then r.(pc := Waiting)
    else
      var done := r.cacheBytesWritten + k;
      Reader(r.thread, if done == s.allSize then Complete else Ready, done,
             r.sent + Chunk(s.data, r.cacheBytesWritten)[..k])
  }

  ghost predicate WriterStep(c: Config, s: State, t: State) {
    || (exists n: nat :: CanReceive(c, s, n) && t == Receive(c, s, n))
    || (s.writer == SizeSet && t == Store(s))
    || (s.writer == Stored && t == Compare(s))
  }

  // The origin closes early or the writer's own client goes away: the entry is made invalid. A recv that
  // fails, like a server that cannot be reached before, drops the connection and leaves the entry alone.
  ghost predicate WriterBreaks(c: Config, s: State, t: State) {
    && (s.writer == Receiving || s.writer == Streaming)
    && (t == GiveUp(s) || (c.abandons && t == s.(writer := Lost)))
  }

  ghost predicate ReaderMoves(s: State, i: nat, k: nat, t: State) {
    && i < |s.readers| && ThreadFree(s, i) && Moves(s, s.readers[i], k)
    && t == s.(readers := s.readers[i := Moved(s, s.readers[i], k)])
  }

  ghost predicate ReaderStep(s: State, t: State) {
    exists i: nat, k: nat :: ReaderMoves(s, i, k, t)
  }

  ghost predicate ClientLeaves(s: State, i: nat, t: State) {
    && i < |s.readers| && ThreadFree(s, i) && (s.readers[i].pc == Ready || s.readers[i].pc == Woken)
    && t == s.(readers := s.readers[i := s.readers[i].(pc := Broken)])
  }

  ghost predicate ReaderBreaks(s: State, t: State) {
    exists i: nat :: ClientLeaves(s, i, t)
  }

  ghost predicate Next(c: Config, s: State, t: State) {
    WriterStep(c, s, t) || WriterBreaks(c, s, t) || ReaderStep(s, t) || ReaderBreaks(s, t)
  }

  ghost predicate Run(c: Config, r: seq<State>) {
    IsRun(s => s == Start(c), (s, t) => Next(c, s, t), r)
  }

  ghost predicate Reached(c: Config, s: State) {
    Reachable(s => s == Start(c), (s, t) => Next(c, s, t), s)
  }

  /** A cacheable response: status 200, a length within the limit, and exactly header plus length bytes. */
  ghost predicate Cacheable(response: string) {
    var h := BodyIndex(response);
    && h != -1
    && ResponseCode(response[..h]) == 200
    && 0 < ContentLength(response[..h]) < MAX_CACHE_ENTRY_SIZE
    && |response| == h + ContentLength(response[..h])
  }

  const STATUS_LINE := "HTTP/1.1 200 OK\r\n"

  function PlainHeader(length: nat): string {
    STATUS_LINE + (LENGTH_FIELD + " ") + Decimal(length) + HEADER_END
  }

  lemma PlainHeaderParts(length: nat, rest: string)
    ensures var s, d := PlainHeader(length) + rest, |Decimal(length)|;
            && |s| == 37 + d + |rest|
            && s[..17] == STATUS_LINE && s[17..33] == LENGTH_FIELD + " "
            && s[33..33 + d] == Decimal(length) && s[33 + d..37 + d] == HEADER_END
  {
  }

  lemma PlainHeaderEnds(length: nat, rest: string)
    ensures BodyIndex(PlainHeader(length) + rest) == |PlainHeader(length)|
  {
    hide StrStr, Decimal, PlainHeader;
    var s, d := PlainHeader(length) + rest, |Decimal(length)|;
    PlainHeaderParts(length, rest);
    PlainHeaderParts(length, "");
    assert PlainHeader(length) + "" == PlainHeader(length);
    assert Matches(s, 33 + d, HEADER_END);
    forall j: nat | j < 33 + d ensures !Matches(s, j, HEADER_END) {
      HeaderEndAt(s, j);
      if j < 17 {
        assert s[j] == s[..17][j] && s[17] == s[17..33][0] == 'C';
      } else if j < 33 {
        assert s[j] == s[17..33][j - 17];
      } else {
        assert s[j] == Decimal(length)[j - 33];
      }
    }
    StrStrIs(s, HEADER_END, 33 + d);
  }

  lemma PlainHeaderFields(length: nat)
    requires length > 0
    ensures ResponseCode(PlainHeader(length)) == 200 && ContentLength(PlainHeader(length)) == length
  {
    hide StrStr, StrToL, Decimal, PlainHeader;
    var s := PlainHeader(length);
    assert s + "" == s;
    PlainHeaderParts(length, "");
    assert s[17..32] == s[17..33][..15] == LENGTH_FIELD;
    forall j: nat | j < 17 ensures !Matches(s, j, LENGTH_FIELD) {
      assert s[j] == s[..17][j];
      assert j + 15 <= |s| ==> s[j..j + 15][0] == s[j];
    }
    StrStrIs(s, LENGTH_FIELD, 17);
    assert s[33 + |Decimal(length)|] == s[33 + |Decimal(length)|..37 + |Decimal(length)|][0] == '\r';
    DecimalReads(s, 33, length);
    TwoHundred();
    StatusAt(s);
    DecimalReads(s, 9, 200);
  }

  lemma StatusAt(s: string)
    requires |s| > 17 && s[..17] == STATUS_LINE
    ensures s[9..12] == "200" && s[12] == ' '
  {
    forall j | 9 <= j < 13 ensures s[j] == STATUS_LINE[j] {
      assert s[j] == s[..17][j];
    }
    assert s[9..12] == [s[9], s[10], s[11]] == "200";
  }

  lemma TwoHundred()
    ensures Decimal(200) == "200"
  {
    assert Decimal(20) == "20" && Decimal(2) == "2";
  }

  /** The theorems below are about something: any body within the limit, behind a plain header with its
      length, is a cacheable response. */
  lemma PlainResponseIsCacheable(body: string)
    requires 0 < |body| < MAX_CACHE_ENTRY_SIZE
    ensures Cacheable(PlainHeader(|body|) + body)
  {
    hide BodyIndex, ResponseCode, ContentLength, PlainHeader;
    PlainHeaderEnds(|body|, body);
    PlainHeaderFields(|body|);
    assert (PlainHeader(|body|) + body)[..|PlainHeader(|body|)|] == PlainHeader(|body|);
  }

  // ----- the invariant

  ghost predicate WriterInv(c: Config, s: State) {
    var whole := c.response;
    && s.received <= |whole| && s.alreadyWritten == |s.data|
    && match s.writer
       case Receiving => s.buffer == whole[..s.received] && s.received < BodyIndex(whole)
                         && s.data == "" && s.allSize == 0 && s.status == Downloading
       case SizeSet => s.buffer == whole[..s.received]
                       && s.data == "" && s.allSize == |whole| && s.status == Downloading
       case Stored => s.data == whole[..s.received] && s.allSize == |whole| && s.status == Downloading
       case Streaming => s.data == whole[..s.received] && s.received < |whole|
                         && s.allSize == |whole| && s.status == Downloading
       case Finished => s.data == whole && s.received == |whole| && s.allSize == |whole| && s.status == Valid
       case Failed => s.status == Invalid && s.data <= whole && (s.allSize == |whole| || s.data == "")
       case Lost => c.abandons && s.status == Downloading && s.data < whole
                    && (s.allSize == |whole| || (s.data == "" && s.allSize == 0))
  }

  ghost predicate ReaderInv(c: Config, s: State, r: Reader) {
    && r.cacheBytesWritten <= |s.data| && s.data <= c.response
    && r.sent == s.data[..r.cacheBytesWritten]
    && (r.pc == Complete ==> r.sent == c.response)
    && (r.pc == Dropped ==> s.writer == Failed)
    && (r.pc == Ready || r.pc == Waiting || r.pc == Woken ==> r.cacheBytesWritten < |c.response|)
    && (r.pc == Woken ==> r.thread != WRITERS_THREAD)
    && (r.pc == Waiting ==> CaughtUp(s, r) && s.writer != Finished && s.writer != Failed)
  }

  // A thread is inside at most one cond_wait.
  ghost predicate ThreadsInv(rs: seq<Reader>) {
    forall i, j :: 0 <= i < j < |rs| && rs[i].thread == rs[j].thread ==> !(InWait(rs[i]) && InWait(rs[j]))
  }

  ghost predicate Good(c: Config, s: State) {
    && Cacheable(c.response) && |s.readers| == |c.threads|
    && WriterInv(c, s) && ThreadsInv(s.readers)
    && forall i :: 0 <= i < |s.readers| ==> ReaderInv(c, s, s.readers[i])
  }

  lemma StartIsGood(c: Config)
    requires Cacheable(c.response)
    ensures Good(c, Start(c))
  {
    assert c.response[..0] == "";
  }

  /** However recv splits the stream, the header is recognised when it is complete and the entry gets its
      true size. */
  lemma HeaderKeepsWriter(c: Config, s: State, buf: string)
    requires Cacheable(c.response) && WriterInv(c, s) && s.writer == Receiving
    requires s.received + |buf| <= |c.response| && s.buffer + buf == c.response[..s.received + |buf|]
    ensures WriterInv(c, ReceiveHeader(s, buf)) && ReceiveHeader(s, buf).writer != Failed
    ensures ReceiveHeader(s, buf).readers == s.readers && ReceiveHeader(s, buf).data == s.data
  {
    hide BodyIndex, ContentLength, ResponseCode;
    var m := s.received + |buf|;
    BodyIndexOfPrefix(c.response, m);
    if m >= BodyIndex(c.response) { FieldsOfPrefix(c.response, m); }
  }

  lemma BodyKeepsWriter(c: Config, s: State, buf: string)
    requires WriterInv(c, s) && s.writer == Streaming
    requires s.received + |buf| <= |c.response| && s.data + buf == c.response[..s.received + |buf|]
    ensures WriterInv(c, ReceiveBody(s, buf))
  {
  }

  lemma ReceiveKeepsWriter(c: Config, s: State, n: nat)
    requires Cacheable(c.response) && WriterInv(c, s) && CanReceive(c, s, n)
    ensures var t := Receive(c, s, n);
            && WriterInv(c, t) && t.writer != Failed && t.writer != Finished && s.data <= t.data
            && t.readers == if s.writer == Streaming then Mapped(WakeOne, s.readers) else s.readers
  {
    hide Cacheable, BodyIndex, ContentLength, ResponseCode;
    var m := s.received + n;
    assert c.response[..m] == c.response[..s.received] + c.response[s.received..m];
    if s.writer == Streaming {
      BodyKeepsWriter(c, s, c.response[s.received..m]);
    } else {
      HeaderKeepsWriter(c, s, c.response[s.received..m]);
    }
  }

  // What the readers' part of the invariant needs from a step of the writer.
  ghost predicate Serves(c: Config, s: State, t: State) {
    && WriterInv(c, t) && s.data <= t.data && s.writer != Finished && s.writer != Failed
    && (t.readers == Mapped(WakeOne, s.readers)
        || (t.readers == s.readers && t.writer != Failed && t.alreadyWritten == s.alreadyWritten
            && (t.allSize == s.allSize || t.alreadyWritten == 0)))
  }

  lemma ServedKeepsReader(c: Config, s: State, t: State, r: Reader)
    requires WriterInv(c, s) && ReaderInv(c, s, r) && Serves(c, s, t)
    requires t.writer == Finished ==> s.writer == Stored
    ensures t.readers == Mapped(WakeOne, s.readers) ==> ReaderInv(c, t, WakeOne(r))
    ensures t.readers == s.readers && t.readers != Mapped(WakeOne, s.readers) ==> ReaderInv(c, t, r)
  {
    assert t.data[..r.cacheBytesWritten] == s.data[..r.cacheBytesWritten];
    assert t.data <= c.response;
  }

  lemma ReceiveServes(c: Config, s: State, n: nat)
    requires Cacheable(c.response) && WriterInv(c, s) && CanReceive(c, s, n)
    ensures Serves(c, s, Receive(c, s, n)) && Receive(c, s, n).writer != Finished
  {
    hide Cacheable;
    ReceiveKeepsWriter(c, s, n);
  }

  lemma OtherStepServes(c: Config, s: State, t: State)
    requires Cacheable(c.response) && WriterInv(c, s)
    requires (s.writer == SizeSet && t == Store(s)) || (s.writer == Stored && t == Compare(s)) || WriterBreaks(c, s, t)
    ensures Serves(c, s, t) && (t.writer == Finished ==> s.writer == Stored)
  {
    hide Cacheable;
    assert c.response[..s.received] <= c.response;
  }

  lemma WriterServes(c: Config, s: State, t: State)
    requires Good(c, s) && (WriterStep(c, s, t) || WriterBreaks(c, s, t))
    ensures Serves(c, s, t) && (t.writer == Finished ==> s.writer == Stored)
  {
    hide Cacheable, WriterInv, ReaderInv, Serves, CanReceive, Receive, Store, Compare;
    if n: nat :| CanReceive(c, s, n) && t == Receive(c, s, n) {
      ReceiveServes(c, s, n);
    } else {
      OtherStepServes(c, s, t);
    }
  }

  lemma WriterKeepsGood(c: Config, s: State, t: State)
    requires Good(c, s) && (WriterStep(c, s, t) || WriterBreaks(c, s, t))
    ensures Good(c, t)
  {
    hide WriterInv, ReaderInv, WriterStep, WriterBreaks, Cacheable;
    WriterServes(c, s, t);
    forall i | 0 <= i < |s.readers| ensures ReaderInv(c, t, t.readers[i]) {
      ServedKeepsReader(c, s, t, s.readers[i]);
    }
  }

  lemma ChunkExtends(data: string, from: nat, k: nat)
    requires from <= |data| && k <= |Chunk(data, from)|
    ensures from + k <= |data| && data[..from + k] == data[..from] + Chunk(data, from)[..k]
  {
  }

  lemma ReadKeepsReader(c: Config, s: State, r: Reader, k: nat)
    requires WriterInv(c, s) && ReaderInv(c, s, r) && Moves(s, r, k)
    ensures ReaderInv(c, s, Moved(s, r, k)) && Moved(s, r, k).thread == r.thread
  {
    hide Chunk;
    if r.cacheBytesWritten <= |s.data| && k <= |Chunk(s.data, r.cacheBytesWritten)| {
      ChunkExtends(s.data, r.cacheBytesWritten, k);
    }
    assert s.data == c.response[..|s.data|];
  }

  lemma ReaderKeepsGood(c: Config, s: State, t: State)
    requires Good(c, s) && (ReaderStep(s, t) || ReaderBreaks(s, t))
    ensures Good(c, t)
  {
    hide WriterInv, ReaderInv, Cacheable, Moves, Moved;
    if i: nat, k: nat :| ReaderMoves(s, i, k, t) {
      ReadKeepsReader(c, s, s.readers[i], k);
      OneReaderChanges(c, s, i, t);
    } else {
      var i: nat :| ClientLeaves(s, i, t);
      LeavingKeepsReader(c, s, s.readers[i]);
      OneReaderChanges(c, s, i, t);
    }
  }

  lemma LeavingKeepsReader(c: Config, s: State, r: Reader)
    requires ReaderInv(c, s, r)
    ensures ReaderInv(c, s, r.(pc := Broken))
  {
  }

  lemma OneReaderChanges(c: Config, s: State, i: nat, t: State)
    requires Good(c, s) && i < |s.readers| == |t.readers| && ThreadFree(s, i)
    requires t == s.(readers := s.readers[i := t.readers[i]])
    requires t.readers[i].thread == s.readers[i].thread && ReaderInv(c, s, t.readers[i])
    ensures Good(c, t)
  {
    hide WriterInv, ReaderInv, Cacheable;
    WriterIgnoresReaders(c, s, t);
    forall j | 0 <= j < |t.readers| ensures ReaderInv(c, t, t.readers[j]) {
      ReaderIgnoresReaders(c, s, t, t.readers[j]);
    }
  }

  lemma ReaderIgnoresReaders(c: Config, s: State, t: State, r: Reader)
    requires ReaderInv(c, s, r) && t == s.(readers := t.readers)
    ensures ReaderInv(c, t, r)
  {
  }

  lemma WriterIgnoresReaders(c: Config, s: State, t: State)
    requires WriterInv(c, s) && t == s.(readers := t.readers)
    ensures WriterInv(c, t)
  {
  }

  lemma NextKeepsGood(c: Config, s: State, t: State)
    requires Good(c, s) && Next(c, s, t)
    ensures Good(c, t)
  {
    hide Good;
    if WriterStep(c, s, t) || WriterBreaks(c, s, t) {
      WriterKeepsGood(c, s, t);
    } else {
      ReaderKeepsGood(c, s, t);
    }
  }

  lemma ReachedIsGood(c: Config, s: State)
    requires Cacheable(c.response) && Reached(c, s)
    ensures Good(c, s)
  {
    hide Good;
    StartIsGood(c);
    forall s, t | Good(c, s) && Next(c, s, t) ensures Good(c, t) {
      NextKeepsGood(c, s, t);
    }
    InvariantWhereReached(s => s == Start(c), (s, t) => Next(c, s, t), s => Good(c, s), s);
  }

  // ----- termination and progress

  function ReaderRank(size: nat, r: Reader): nat {
    match r.pc
    case Ready | Woken => 1 + if r.cacheBytesWritten < size then 2 * (size - r.cacheBytesWritten) else 0
    case Waiting => if r.cacheBytesWritten < size then 2 * (size - r.cacheBytesWritten) else 0
    case _ => 0
  }

  function ReaderRanks(size: nat, rs: seq<Reader>): nat {
    Total((r: Reader) => ReaderRank(size, r), rs)
  }

  // What the bytes still to come are worth: more than waking n readers for each of them.
  function Weight(n: nat, left: nat): nat {
    (n + 3) * left
  }

  // Every step that wakes the readers must cost more than waking n of them.
  function WriterRank(size: nat, n: nat, s: State): nat {
    var left := if s.received < size then size - s.received else 0;
    match s.writer
    case Finished | Failed | Lost => 0
    case Receiving => Weight(n, left) + n + 2
    case SizeSet => Weight(n, left) + n + 2
    case Stored => Weight(n, left) + 1
    case Streaming => Weight(n, left)
  }

  function Measure(c: Config, s: State): nat {
    WriterRank(|c.response|, |s.readers|, s) + ReaderRanks(|c.response|, s.readers)
  }

  lemma {:induction false} WakingCosts(size: nat, rs: seq<Reader>)
    ensures ReaderRanks(size, Mapped(WakeOne, rs)) <= ReaderRanks(size, rs) + |rs|
  {
    if rs == [] {
    } else {
      assert Mapped(WakeOne, rs)[1..] == Mapped(WakeOne, rs[1..]);
      WakingCosts(size, rs[1..]);
    }
  }

  lemma Scale(n: nat, x: nat, y: nat)
    requires x < y
    ensures Weight(n, x) + n + 3 <= Weight(n, y)
  {
    var a := n + 3;
    assert a * y == a * x + a * (y - x);
    AtLeastOnce(a, y - x);
  }

  lemma AtLeastOnce(a: nat, d: nat)
    requires d > 0
    ensures a <= a * d
  {
  }

  ghost predicate Pays(size: nat, s: State, t: State) {
    var n := |s.readers|;
    && WriterRank(size, n, t) + (if t.readers == s.readers then 0 else n) < WriterRank(size, n, s)
    && (t.readers == s.readers || t.readers == Mapped(WakeOne, s.readers))
  }

  lemma ReceivePays(c: Config, s: State, k: nat)
    requires Cacheable(c.response) && WriterInv(c, s) && CanReceive(c, s, k)
    ensures Pays(|c.response|, s, Receive(c, s, k))
  {
    hide Cacheable, WriterInv, Weight, BodyIndex, ContentLength, ResponseCode;
    ReceiveKeepsWriter(c, s, k);
    Scale(|s.readers|, |c.response| - s.received - k, |c.response| - s.received);
  }

  lemma OtherStepPays(c: Config, size: nat, s: State, t: State)
    requires s.writer == Streaming ==> s.received < size
    requires (s.writer == SizeSet && t == Store(s)) || (s.writer == Stored && t == Compare(s)) || WriterBreaks(c, s, t)
    ensures Pays(size, s, t)
  {
    hide Weight;
    if s.writer == Streaming {
      Scale(|s.readers|, 0, size - s.received);
    }
  }

  lemma StreamingHasMore(c: Config, s: State)
    requires WriterInv(c, s)
    ensures s.writer == Streaming ==> s.received < |c.response|
  {
  }

  lemma WriterPays(c: Config, s: State, t: State)
    requires Cacheable(c.response) && WriterInv(c, s) && (WriterStep(c, s, t) || WriterBreaks(c, s, t))
    ensures Pays(|c.response|, s, t)
  {
    hide Cacheable, WriterInv, Pays, CanReceive, Receive, Store, Compare;
    if k: nat :| CanReceive(c, s, k) && t == Receive(c, s, k) {
      ReceivePays(c, s, k);
    } else {
      StreamingHasMore(c, s);
      OtherStepPays(c, |c.response|, s, t);
    }
  }

  lemma ReaderDecreases(c: Config, s: State, t: State)
    requires Good(c, s) && (ReaderStep(s, t) || ReaderBreaks(s, t))
    ensures Measure(c, t) < Measure(c, s)
  {
    hide ReaderInv, WriterInv, Cacheable, ReaderRank, Moves, Moved;
    var size := |c.response|;
    if i: nat, k: nat :| ReaderMoves(s, i, k, t) {
      ReadLowersRank(c, s, s.readers[i], k);
      TotalChange((r: Reader) => ReaderRank(size, r), s.readers, t.readers, i);
    } else {
      var i: nat :| ClientLeaves(s, i, t);
      BreakingLowersRank(size, s.readers[i]);
      TotalChange((r: Reader) => ReaderRank(size, r), s.readers, t.readers, i);
    }
  }

  lemma BreakingLowersRank(size: nat, r: Reader)
    requires r.pc == Ready || r.pc == Woken
    ensures ReaderRank(size, r.(pc := Broken)) < ReaderRank(size, r)
  {
  }

  lemma ReadLowersRank(c: Config, s: State, r: Reader, k: nat)
    requires ReaderInv(c, s, r) && Moves(s, r, k)
    ensures ReaderRank(|c.response|, Moved(s, r, k)) < ReaderRank(|c.response|, r)
  {
  }

  lemma NextDecreases(c: Config, s: State, t: State)
    requires Good(c, s) && Next(c, s, t)
    ensures Measure(c, t) < Measure(c, s)
  {
    if WriterStep(c, s, t) || WriterBreaks(c, s, t) {
      WriterPays(c, s, t);
      WakingCosts(|c.response|, s.readers);
    } else {
      ReaderDecreases(c, s, t);
    }
  }

  predicate Active(r: Reader) {
    r.pc == Ready || r.pc == Waiting || r.pc == Woken
  }

  ghost predicate AllServed(s: State) {
    forall i :: 0 <= i < |s.readers| ==> !Active(s.readers[i])
  }

  predicate Over(w: WriterPc) { w == Finished || w == Failed }

  // Steps that do not depend on something breaking.
  ghost predicate CanProceed(c: Config, s: State) {
    (exists t :: WriterStep(c, s, t)) || (exists t :: ReaderStep(s, t))
  }

  /** No reader is left waiting unless the writer is lost: while one has not got everything, the writer or a
      reader can go on. */
  lemma NobodyStarves(c: Config, s: State)
    requires Good(c, s) && s.writer != Lost && (!AllServed(s) || !Over(s.writer))
    ensures CanProceed(c, s)
  {
    hide WriterInv, ReaderInv, Cacheable, Moves, Moved;
    if !Over(s.writer) {
      WriterCanProceed(c, s);
    } else {
      var i: nat :| i < |s.readers| && Active(s.readers[i]);
      var j := NextInThread(s, i);
      ReaderCanMove(c, s, s.readers[j]);
      ReaderProceeds(c, s, j);
    }
  }

  lemma ReaderProceeds(c: Config, s: State, j: nat)
    requires j < |s.readers| && ThreadFree(s, j) && Moves(s, s.readers[j], 1)
    ensures CanProceed(c, s)
  {
    var t := s.(readers := s.readers[j := Moved(s, s.readers[j], 1)]);
    assert ReaderMoves(s, j, 1, t);
    assert ReaderStep(s, t);
  }

  // The reader that goes next in reader i's thread: one that is back from cond_wait goes first.
  lemma NextInThread(s: State, i: nat) returns (j: nat)
    requires ThreadsInv(s.readers) && i < |s.readers|
    requires Active(s.readers[i])
    ensures j < |s.readers| && ThreadFree(s, j) && Active(s.readers[j]) && s.readers[j].thread == s.readers[i].thread
  {
    j := i;
    if !ThreadFree(s, i) {
      j :| j < |s.readers| && s.readers[j].thread == s.readers[i].thread && InWait(s.readers[j]);
    }
  }

  lemma ReaderCanMove(c: Config, s: State, r: Reader)
    requires WriterInv(c, s) && ReaderInv(c, s, r) && Active(r)
    ensures r.pc != Waiting || Over(s.writer) ==> Moves(s, r, 1)
  {
  }

  lemma WriterCanProceed(c: Config, s: State)
    requires Good(c, s) && !Over(s.writer) && s.writer != Lost
    ensures exists t :: WriterStep(c, s, t)
  {
    if s.writer == SizeSet {
      assert WriterStep(c, s, Store(s));
    } else if s.writer == Stored {
      assert WriterStep(c, s, Compare(s));
    } else {
      var n := |c.response| - s.received;
      assert CanReceive(c, s, n);
      assert WriterStep(c, s, Receive(c, s, n));
    }
  }

  // ----- the theorems

  /** In every reachable state the entry holds a prefix of the response, a valid entry holds all of it, and
      every reader has been sent exactly the entry's first bytes. */
  lemma CacheAgreesWithOrigin(c: Config, s: State, i: nat)
    requires Cacheable(c.response) && Reached(c, s) && i < |s.readers|
    ensures s.alreadyWritten == |s.data| && s.data <= c.response
    ensures s.status == Valid ==> s.alreadyWritten == s.allSize && s.data == c.response
    ensures s.readers[i].cacheBytesWritten <= s.alreadyWritten
    ensures s.readers[i].sent == s.data[..s.readers[i].cacheBytesWritten]
    ensures s.readers[i].pc == Complete ==> s.readers[i].sent == c.response
  {
    hide Cacheable;
    ReachedIsGood(c, s);
    assert ReaderInv(c, s, s.readers[i]);
  }

  /** No reader sleeps beside something to do: one that waits has sent all there is, and the download is still
      going on unless its writer was lost; and a thread is never inside two waits. */
  lemma NoReaderOversleeps(c: Config, s: State, i: nat, j: nat)
    requires Cacheable(c.response) && Reached(c, s) && i < |s.readers| && j < |s.readers|
    ensures s.readers[i].pc == Waiting ==> CaughtUp(s, s.readers[i]) && s.status == Downloading
    ensures s.readers[i].pc == Waiting && (s.writer == Lost || Over(s.writer)) ==> s.writer == Lost && c.abandons
    ensures i != j && s.readers[i].thread == s.readers[j].thread ==> !(InWait(s.readers[i]) && InWait(s.readers[j]))
  {
    hide Cacheable;
    ReachedIsGood(c, s);
    assert ReaderInv(c, s, s.readers[i]);
  }

  /** The two kinds of waiting. Waking sends a reader of the writer's own thread back to the poll loop, and
      one of another thread to the test of the loop around its cond_wait, where only such readers ever are. */
  lemma WakingByThread(c: Config, s: State, t: State, i: nat)
    requires Cacheable(c.response) && Reached(c, s) && Next(c, s, t) && i < |s.readers|
    ensures s.readers[i].pc == Woken ==> s.readers[i].thread != 0
    ensures i < |t.readers| && t.readers[i].thread == s.readers[i].thread
    ensures s.readers[i].pc == Waiting && t.readers[i] != s.readers[i] ==>
              t.readers[i] == s.readers[i].(pc := if s.readers[i].thread == 0 then Ready else Woken)
  {
    hide Cacheable, WriterInv, BodyIndex, ContentLength, ResponseCode;
    ReachedIsGood(c, s);
    assert ReaderInv(c, s, s.readers[i]);
  }

  /** What a reader does with the entry as it finds it: one back from the poll loop looks at the status first,
      one back from cond_wait at what there is to send; a chunk is sent up to where the client takes it. */
  lemma ReaderActs(s: State, t: State, i: nat)
    requires ReaderStep(s, t) && i < |s.readers| && i < |t.readers| && t.readers[i] != s.readers[i]
    requires s.readers[i].cacheBytesWritten <= |s.data|
    ensures var r, u := s.readers[i], t.readers[i];
            if r.pc == Ready && s.status == Invalid then u == r.(pc := Dropped)
            else if s.alreadyWritten == r.cacheBytesWritten || s.allSize == 0 then
              u == r.(pc := if s.status == Invalid then Dropped else Waiting)
            else
              && r.cacheBytesWritten < u.cacheBytesWritten <= |s.data|
              && u.cacheBytesWritten - r.cacheBytesWritten <= 64
              && u.sent == r.sent + s.data[r.cacheBytesWritten..u.cacheBytesWritten]
              && u.pc == (if u.cacheBytesWritten == s.allSize then Complete else Ready) && u.thread == r.thread
  {
    var k: nat :| ReaderMoves(s, i, k, t);
    var r := s.readers[i];
    assert Moves(s, r, k);
    if !CaughtUp(s, r) && !(r.pc == Ready && s.status == Invalid) {
      ChunkPrefix(s.data, r.cacheBytesWritten, k);
    }
  }

  lemma ChunkPrefix(data: string, from: nat, k: nat)
    requires from <= |data| && k <= |Chunk(data, from)|
    ensures from + k <= |data| && Chunk(data, from)[..k] == data[from..from + k]
  {
  }

  /** Inside cond_wait a reader holds up all others of its thread; in the poll loop none does. */
  lemma HeldUpByThread(c: Config, s: State, t: State, i: nat, j: nat)
    requires i < |s.readers| && j < |s.readers| && i != j && s.readers[i].thread == s.readers[j].thread
    requires s.readers[j].pc == Waiting || s.readers[j].pc == Woken
    ensures s.readers[i].thread != 0 && (ReaderStep(s, t) || ReaderBreaks(s, t)) ==>
              i < |t.readers| && t.readers[i] == s.readers[i]
    ensures s.readers[i].thread == 0 ==> ThreadFree(s, i)
  {
    hide Moved, Moves;
  }

  /** The stream can be split anywhere: whatever number of bytes is left, down to one, can come next. */
  lemma AnySplit(c: Config, s: State, n: nat)
    requires s.writer == Receiving || s.writer == Streaming
    requires 0 < n <= |c.response| - s.received && (s.writer == Receiving ==> |s.buffer| + n >= 3)
    ensures exists t :: Next(c, s, t) && t.received == s.received + n
  {
    hide BodyIndex, ContentLength, ResponseCode;
    assert WriterStep(c, s, Receive(c, s, n));
  }

  /** A store never leaves the allocated memory. */
  lemma StoresFit(c: Config, s: State, n: nat)
    requires Cacheable(c.response) && Reached(c, s)
    ensures s.writer == SizeSet ==> |s.buffer| <= s.allSize
    ensures s.writer == Streaming && CanReceive(c, s, n) ==> s.alreadyWritten + n <= s.allSize
  {
    ReachedIsGood(c, s);
  }

  /** Every run is bounded, and where it cannot go on the download is over or lost. If it is over nobody
      waits, and after a success every reader whose client stayed got the whole response. */
  lemma DownloadEnds(c: Config, r: seq<State>)
    requires Cacheable(c.response) && Run(c, r)
    ensures |r| - 1 <= Measure(c, Start(c))
    ensures !CanProceed(c, Last(r)) ==>
              && (Over(Last(r).writer) || (c.abandons && Last(r).writer == Lost))
              && (Over(Last(r).writer) ==> AllServed(Last(r)))
              && (Last(r).writer == Finished ==>
                    forall i :: 0 <= i < |Last(r).readers| && Last(r).readers[i].pc != Broken ==>
                      Last(r).readers[i].sent == c.response)
  {
    hide Good;
    StartIsGood(c);
    forall s, t | Good(c, s) && Next(c, s, t) ensures Good(c, t) && Measure(c, t) < Measure(c, s) {
      NextKeepsGood(c, s, t);
      NextDecreases(c, s, t);
    }
    InvariantAlongRun(s => s == Start(c), (s, t) => Next(c, s, t), s => Good(c, s), r);
    MeasureBoundsRun(s => s == Start(c), (s, t) => Next(c, s, t), s => Good(c, s), s => Measure(c, s), r);
    var s := Last(r);
    assert Good(c, s);
    if !CanProceed(c, s) {
      LostOnlyIfAbandoned(c, s);
      if s.writer != Lost && (!AllServed(s) || !Over(s.writer)) { NobodyStarves(c, s); }
      if s.writer == Finished { FinishedHasAll(c, s); }
    }
  }

  lemma FinishedHasAll(c: Config, s: State)
    requires Good(c, s) && AllServed(s) && s.writer == Finished
    ensures forall i :: 0 <= i < |s.readers| && s.readers[i].pc != Broken ==> s.readers[i].sent == c.response
  {
    forall i | 0 <= i < |s.readers| && s.readers[i].pc != Broken ensures s.readers[i].sent == c.response {
      assert ReaderInv(c, s, s.readers[i]);
    }
  }

  lemma LostOnlyIfAbandoned(c: Config, s: State)
    requires Good(c, s)
    ensures s.writer == Lost ==> c.abandons
  {
  }

  // ----- what becomes of the readers when the writer is lost

  lemma ReachedNext(c: Config, s: State, t: State)
    requires Reached(c, s) && Next(c, s, t)
    ensures Reached(c, t)
  {
    ReachStep(s => s == Start(c), (s, t) => Next(c, s, t), s, t);
  }

  /** Nothing that happens afterwards wakes a waiting reader or adds to the entry. */
  lemma LostForGood(c: Config, s: State, t: State, i: nat)
    requires s.writer == Lost && Next(c, s, t) && i < |s.readers|
    ensures t.writer == Lost && t.status == s.status && t.data == s.data && |t.readers| == |s.readers|
    ensures s.readers[i].pc == Waiting ==> t.readers[i] == s.readers[i]
  {
    hide Moved;
  }

  lemma LostKeepsActive(c: Config, s: State, r: Reader, k: nat)
    requires WriterInv(c, s) && s.writer == Lost && ReaderInv(c, s, r) && Moves(s, r, k)
    ensures Active(Moved(s, r, k))
  {
  }

  /** The readers send what is stored and then wait. */
  lemma {:induction false} SettleReaders(c: Config, s: State, i: nat) returns (t: State)
    requires Good(c, s) && Reached(c, s) && s.writer == Lost && i < |s.readers| && Active(s.readers[i])
    ensures Reached(c, t) && !CanProceed(c, t) && t.writer == Lost && t.data == s.data
    ensures i < |t.readers| && Active(t.readers[i])
    decreases Measure(c, s)
  {
    hide Good, Reached, Measure, Moves, Moved, CanReceive, Receive, Store, Compare;
    if exists u :: ReaderStep(s, u) {
      var u :| ReaderStep(s, u);
      ReaderStepKeepsActive(c, s, u, i);
      NextKeepsGood(c, s, u);
      NextDecreases(c, s, u);
      ReachedNext(c, s, u);
      t := SettleReaders(c, u, i);
    } else {
      t := s;
      LostWriterRests(c, s);
    }
  }

  lemma LostWriterRests(c: Config, s: State)
    requires s.writer == Lost
    ensures !exists t :: WriterStep(c, s, t)
  {
  }

  lemma ReaderStepKeepsActive(c: Config, s: State, t: State, i: nat)
    requires Good(c, s) && s.writer == Lost && ReaderStep(s, t) && i < |s.readers| && Active(s.readers[i])
    ensures t.writer == Lost && t.data == s.data && i < |t.readers| && Active(t.readers[i])
  {
    hide WriterInv, ReaderInv, Cacheable, Moves, Moved;
    var j: nat, k: nat :| ReaderMoves(s, j, k, t);
    if j == i { LostKeepsActive(c, s, s.readers[i], k); }
  }

  lemma RestingThreadWaits(c: Config, s: State, i: nat)
    requires Good(c, s) && !CanProceed(c, s) && i < |s.readers| && Active(s.readers[i])
    ensures exists j :: 0 <= j < |s.readers| && s.readers[j].thread == s.readers[i].thread && s.readers[j].pc == Waiting
  {
    hide WriterInv, ReaderInv, Cacheable, Moves, Moved;
    var j := NextInThread(s, i);
    ReaderCanMove(c, s, s.readers[j]);
    if s.readers[j].pc != Waiting { ReaderProceeds(c, s, j); }
  }

  /** Wherever a download is when its writer is lost, every reader not served by then can end up stranded:
      nothing can go on, its thread has a reader waiting for ever, and the entry still counts as being
      downloaded. */
  lemma LossStrands(c: Config, s: State, i: nat) returns (t: State)
    requires Cacheable(c.response) && Reached(c, s) && c.abandons
    requires (s.writer == Receiving || s.writer == Streaming) && i < |s.readers| && Active(s.readers[i])
    ensures Reached(c, t) && !CanProceed(c, t) && t.writer == Lost && t.status == Downloading && t.data == s.data
    ensures i < |t.readers| && Active(t.readers[i])
    ensures exists j :: 0 <= j < |t.readers| && t.readers[j].thread == t.readers[i].thread && t.readers[j].pc == Waiting
  {
    hide Good, Reached, Cacheable, CanProceed;
    var u := s.(writer := Lost);
    assert Next(c, s, u);
    ReachedNext(c, s, u);
    ReachedIsGood(c, u);
    t := SettleReaders(c, u, i);
    ReachedIsGood(c, t);
    LostStaysDownloading(c, t);
    RestingThreadWaits(c, t, i);
  }

  lemma LostStaysDownloading(c: Config, s: State)
    requires Good(c, s) && s.writer == Lost
    ensures s.status == Downloading
  {
  }

  /** All readers are served in every state that cannot go on, if and only if the writer is never dropped
      without the entry being made invalid, or there are no readers. */
  lemma EndsServedIff(c: Config)
    requires Cacheable(c.response)
    ensures (forall s :: Reached(c, s) && !CanProceed(c, s) ==> AllServed(s)) <==> (!c.abandons || |c.threads| == 0)
  {
    hide Good, Reached, Cacheable, CanProceed;
    if c.abandons && |c.threads| > 0 {
      var s := Start(c);
      StartIsReached(c);
      var t := LossStrands(c, s, 0);
    } else {
      forall s | Reached(c, s) && !CanProceed(c, s) ensures AllServed(s) {
        ReachedIsGood(c, s);
        LostOnlyIfAbandoned(c, s);
        ReadersCounted(c, s);
        if s.writer != Lost && !AllServed(s) { NobodyStarves(c, s); }
      }
    }
  }

  lemma StartIsReached(c: Config)
    ensures Reached(c, Start(c))
  {
    ReachStart(s => s == Start(c), (s, t) => Next(c, s, t), Start(c));
  }

  lemma ReadersCounted(c: Config, s: State)
    requires Good(c, s)
    ensures |s.readers| == |c.threads|
  {
  }
}
