/** The queue's doubly linked list and its critical sections, on the heap. Both programs use this list;
    the version with a condition variable also counts the messages. New messages go in at the head and
    the oldest is taken from the tail. */
module MessageQueue {
  import opened Wrappers
  import opened BoundedFifo

  class Message {
    var text: string
    var next: Message?
    var prev: Message?

    constructor (text: string)
      ensures this.text == text && next == null && prev == null
    {
      this.text := text;
      next, prev := null, null;
    }
  }

  // The texts of a list of messages, last to first.
  ghost function Texts(nodes: seq<Message>): (ts: seq<string>)
    reads (set m: Message | m in nodes)`text
    ensures |ts| == |nodes|
  {
    if nodes == [] then [] else Texts(nodes[1..]) + [nodes[0].text]
  }

  lemma TextsOfMore(m: Message, nodes: seq<Message>)
    ensures Texts([m] + nodes) == Texts(nodes) + [m.text]
  {
    assert ([m] + nodes)[1..] == nodes;
  }

  lemma {:induction false} TextsOfFewer(nodes: seq<Message>)
    requires nodes != []
    ensures Texts(nodes[..|nodes| - 1]) == Texts(nodes)[1..] && Texts(nodes)[0] == nodes[|nodes| - 1].text
  {
    if |nodes| == 1 {
    } else {
      TextsOfFewer(nodes[1..]);
      assert nodes[..|nodes| - 1][1..] == nodes[1..][..|nodes| - 2];
    }
  }

  // nodes, from head to tail, is the doubly linked list between the two pointers.
  ghost predicate Linked(head: Message?, tail: Message?, nodes: seq<Message>)
    reads nodes
  {
    && (head == null <==> nodes == [])
    && (tail == null <==> nodes == [])
    && (nodes != [] ==> head == nodes[0] && tail == nodes[|nodes| - 1])
    && (forall i, j :: 0 <= i < j < |nodes| ==> nodes[i] != nodes[j])
    && (forall i {:trigger nodes[i].next} :: 0 <= i < |nodes| ==>
          nodes[i].next == if i + 1 < |nodes| then nodes[i + 1] else null)
    && (forall i {:trigger nodes[i].prev} :: 0 <= i < |nodes| ==>
          nodes[i].prev == if i > 0 then nodes[i - 1] else null)
  }

  class Queue {
    var head: Message?
    var tail: Message?
    var isDroped: bool
    var mesCount: nat
    ghost var nodes: seq<Message>    // from head to tail

    ghost predicate Valid()
      reads this, nodes
    {
      Linked(head, tail, nodes) && mesCount == |nodes|
    }

    /** The messages, oldest first. */
    ghost function Contents(): (ms: seq<string>)
      reads this, nodes
      ensures |ms| == |nodes|
    {
      Texts(nodes)
    }

    ghost function AsFifo(): Fifo
      reads this, nodes
    {
      Fifo(Contents(), isDroped)
    }

    constructor ()
      ensures Valid() && AsFifo() == Fifo([], false)
    {
      head, tail, isDroped, mesCount := null, null, false, 0;
      nodes := [];
    }

    method DropQueue(ghost cap: nat)
      requires Valid()
      modifies this`isDroped
      ensures Valid()
      ensures Some(AsFifo()) == Apply(cap, old(AsFifo()), Drop)
    {
      isDroped := true;
      assert Contents() == old(Contents());
    }

    /** The critical section of put, entered when the queue is dropped or has room. */
    method PutSection(who: nat, msg: string, ghost cap: nat) returns (ok: bool, broadcast: bool)
      requires Valid() && (isDroped || mesCount < cap)
      modifies this, nodes
      ensures Valid() && ok == !old(isDroped)
      ensures Some(AsFifo()) == Apply(cap, old(AsFifo()), if ok then Put(who, msg) else PutRefused(who))
      ensures broadcast <==> ok && old(mesCount) == 0
      ensures ok ==> fresh(nodes[0]) && nodes[1..] == old(nodes)
      ensures !ok ==> nodes == old(nodes)
    {
      if isDroped {
        return false, false;
      }
      hide Texts, Cut;
      ghost var was := nodes;
      var fresh' := new Message(Cut(msg));
      var tmp := head;
      head := fresh';
      if tmp != null {
        head.next := tmp;
        tmp.prev := head;
      }
      if tmp == null {
        tail := fresh';
      }
      ok, broadcast := true, mesCount == 0;
      mesCount := mesCount + 1;
      nodes := [fresh'] + was;
      TextsOfMore(fresh', was);
      assert Contents() == old(Contents()) + [Cut(msg)];
    }

    /** The critical section of get, entered when the queue is dropped or holds a message. The caller's
        buffer receives at most bufSize characters of the message taken. */
    method GetSection(who: nat, bufSize: nat, cap: nat)
      returns (ok: bool, buf: string, broadcast: bool, ghost text: string)
      requires Valid() && (isDroped || mesCount > 0)
      modifies this, nodes
      ensures Valid() && ok == !old(isDroped)
      ensures Some(AsFifo()) == Apply(cap, old(AsFifo()), if ok then Got(who, text) else GetRefused(who))
      ensures ok ==> buf <= text && |buf| == if |text| < bufSize then |text| else bufSize
      ensures broadcast <==> ok && old(mesCount) == cap
      ensures nodes == if ok then old(nodes)[..|old(nodes)| - 1] else old(nodes)
    {
      if isDroped {
        return false, "", false, "";
      }
      hide Texts;
      TextsOfFewer(nodes);
      var res := TakeTail();
      text := res.text;
      buf := if |res.text| < bufSize then res.text else res.text[..bufSize];
      ok, broadcast := true, mesCount == cap;
      mesCount := mesCount - 1;
    }

    // The pointer work of get; the count is still to be lowered.
    method TakeTail() returns (res: Message)
      requires Valid() && nodes != []
      modifies this`head, this`tail, this`nodes, (set m: Message | m in nodes)`next
      ensures nodes == old(nodes)[..|old(nodes)| - 1] && res == old(nodes)[|old(nodes)| - 1]
      ensures Linked(head, tail, nodes)
    {
      res := tail;
      if head == tail {
        assert |nodes| == 1;
        head, tail := null, null;
      } else {
        assert |nodes| > 1;
        tail := tail.prev;
        tail.next := null;
      }
      nodes := nodes[..|nodes| - 1];
    }
  }
}
