/** The sequential specification both message queues refine: a bounded FIFO that can be dropped.
    A trace lists the operations in the order their critical sections ran. */
module BoundedFifo {
  import opened Wrappers

  // Messages are stored in 81-byte buffers filled by a bounded copy.
  const MAX_TEXT: nat := 80

  function Cut(msg: string): (text: string)
    ensures text <= msg && |text| == if |msg| > MAX_TEXT then MAX_TEXT else |msg|
  {
    if |msg| > MAX_TEXT then msg[..MAX_TEXT] else msg
  }

  // The threads using a queue: a producer puts its script's messages in order, a consumer gets until
  // it is refused.
  datatype Role = Producer(script: seq<string>) | Consumer

  function Script(r: Role): seq<string> {
    if r.Producer? then r.script else []
  }

  // messages: oldest first.
  datatype Fifo = Fifo(messages: seq<string>, dropped: bool)

  datatype Event =
    | Put(who: nat, msg: string)
    | Got(who: nat, text: string)
    | PutRefused(who: nat)
    | GetRefused(who: nat)
    | Drop

  /** The specification's response to one event; None: the event may not happen in this state. */
  function Apply(cap: nat, f: Fifo, e: Event): Option<Fifo> {
    match e
    case Put(_, msg) =>
      if !f.dropped && |f.messages| < cap then Some(f.(messages := f.messages + [Cut(msg)])) else None
    case Got(_, text) =>
      if !f.dropped && |f.messages| > 0 && text == f.messages[0] then Some(f.(messages := f.messages[1..])) else None
    case PutRefused(_) => if f.dropped then Some(f) else None
    case GetRefused(_) => if f.dropped then Some(f) else None
    case Drop => Some(f.(dropped := true))
  }

  function Replay(cap: nat, trace: seq<Event>): Option<Fifo> {
    if trace == [] then Some(Fifo([], false))
    else
      var before := Replay(cap, trace[..|trace| - 1]);
      if before.None? then None else Apply(cap, before.value, trace[|trace| - 1])
  }

  lemma ReplayOne(cap: nat, trace: seq<Event>, e: Event)
    requires Replay(cap, trace).Some?
    ensures Replay(cap, trace + [e]) == Apply(cap, Replay(cap, trace).value, e)
  {
    assert (trace + [e])[..|trace + [e]| - 1] == trace;
  }

  // ----- histories

  // The messages put, as stored.
  function Stored(trace: seq<Event>): seq<string> {
    if trace == [] then []
    else
      var before := Stored(trace[..|trace| - 1]);
      match trace[|trace| - 1]
      case Put(_, msg) => before + [Cut(msg)]
      case _ => before
  }

  function Delivered(trace: seq<Event>): seq<string> {
    if trace == [] then []
    else
      var before := Delivered(trace[..|trace| - 1]);
      match trace[|trace| - 1]
      case Got(_, text) => before + [text]
      case _ => before
  }

  // The messages one thread has put, as it passed them in.
  function PutBy(who: nat, trace: seq<Event>): seq<string> {
    if trace == [] then []
    else
      var before := PutBy(who, trace[..|trace| - 1]);
      match trace[|trace| - 1]
      case Put(w, msg) => if w == who then before + [msg] else before
      case _ => before
  }

  lemma PutByOne(who: nat, trace: seq<Event>, e: Event)
    ensures PutBy(who, trace + [e]) ==
              if e.Put? && e.who == who then PutBy(who, trace) + [e.msg] else PutBy(who, trace)
  {
    assert (trace + [e])[..|trace + [e]| - 1] == trace;
  }

  // A put of the next message of a script, or any other event, keeps put and rest together the script.
  lemma PutFollowsScript(
      who: nat, trace: seq<Event>, e: Event, before: seq<string>, after: seq<string>, script: seq<string>)
    requires PutBy(who, trace) + before == script
    requires before == if e.Put? && e.who == who then [e.msg] + after else after
    ensures PutBy(who, trace + [e]) + after == script
  {
    hide PutBy;
    PutByOne(who, trace, e);
    if e.Put? {
      assert PutBy(who, trace) + ([e.msg] + after) == PutBy(who, trace) + [e.msg] + after;
    }
  }

  /** Exactly once and in order: what was stored is what was delivered followed by what is still queued. */
  lemma {:induction false} ExactlyOnceInOrder(cap: nat, trace: seq<Event>)
    requires Replay(cap, trace).Some?
    ensures Stored(trace) == Delivered(trace) + Replay(cap, trace).value.messages
    ensures |Replay(cap, trace).value.messages| <= cap
  {
    if trace == [] {
    } else {
      ExactlyOnceInOrder(cap, trace[..|trace| - 1]);
    }
  }

  lemma {:induction false} PrefixReplays(cap: nat, trace: seq<Event>, k: nat)
    requires Replay(cap, trace).Some? && k <= |trace|
    ensures Replay(cap, trace[..k]).Some?
  {
    if k < |trace| {
      PrefixReplays(cap, trace[..|trace| - 1], k);
      assert trace[..|trace| - 1][..k] == trace[..k];
    } else {
      assert trace[..k] == trace;
    }
  }

  /** The queue counts as dropped exactly from its first Drop on. */
  lemma {:induction false} DroppedSinceDrop(cap: nat, trace: seq<Event>)
    requires Replay(cap, trace).Some?
    ensures Replay(cap, trace).value.dropped <==> Drop in trace
  {
    if trace == [] {
    } else {
      var before := trace[..|trace| - 1];
      DroppedSinceDrop(cap, before);
      assert trace == before + [trace[|trace| - 1]];
    }
  }

  /** Operations are refused after the drop and only after it. */
  lemma RefusedIffAfterDrop(cap: nat, trace: seq<Event>, k: nat)
    requires Replay(cap, trace).Some? && k < |trace| && trace[k] != Drop
    ensures trace[k].PutRefused? || trace[k].GetRefused? <==> Drop in trace[..k]
  {
    PrefixReplays(cap, trace, k);
    PrefixReplays(cap, trace, k + 1);
    DroppedSinceDrop(cap, trace[..k]);
    assert trace[..k + 1][..k] == trace[..k];
  }
}
