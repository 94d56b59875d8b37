/** A linked list of short strings, pushed at the head and sorted in place by exchanging the strings of
    nodes whose order never changes. */
module StringSort {

  // Node buffers hold 10 bytes, so 9 characters and a terminator.
  const MAX_STRING_SIZE: nat := 10

  // strcmp(a, b) < 0
  predicate Less(a: string, b: string) {
    if b == [] then false
    else if a == [] then true
    else a[0] < b[0] || (a[0] == b[0] && Less(a[1..], b[1..]))
  }

  ghost predicate Ascending(s: seq<string>) {
    forall i, j :: 0 <= i < j < |s| ==> !Less(s[j], s[i])
  }

  ghost predicate SameStrings(s: seq<string>, t: seq<string>) {
    multiset(s) == multiset(t)
  }

  lemma {:induction false} LessIsAsymmetric(a: string, b: string)
    ensures !(Less(a, b) && Less(b, a))
    ensures !Less(a, b) && !Less(b, a) ==> a == b
  {
    if a == [] || b == [] {
    } else {
      LessIsAsymmetric(a[1..], b[1..]);
      if a[0] == b[0] && a[1..] == b[1..] {
        assert a == [a[0]] + a[1..] == [b[0]] + b[1..] == b;
      }
    }
  }

  /** What strcmp decides: the first string has ended, or has the smaller character, where they first differ. */
  lemma {:induction false} LessIs(a: string, b: string)
    ensures Less(a, b) <==>
              exists k :: 0 <= k <= |a| && k < |b| && a[..k] == b[..k] && (k == |a| || a[k] < b[k])
  {
    if a == [] || b == [] {
      assert b != [] ==> a[..0] == b[..0];
    } else {
      LessIs(a[1..], b[1..]);
      if a[0] == b[0] {
        if k :| 0 <= k <= |a| && k < |b| && a[..k] == b[..k] && (k == |a| || a[k] < b[k]) {
          assert a[1..][..k - 1] == a[..k][1..] && b[1..][..k - 1] == b[..k][1..];
        }
        if k :| 0 <= k <= |a[1..]| && k < |b[1..]| && a[1..][..k] == b[1..][..k]
                && (k == |a[1..]| || a[1..][k] < b[1..][k]) {
          assert a[..k + 1] == [a[0]] + a[1..][..k] && b[..k + 1] == [b[0]] + b[1..][..k];
        }
      } else {
        assert a[..0] == b[..0];
        forall k | 0 < k <= |a| && k < |b| ensures a[..k] != b[..k] {
          assert a[..k][0] != b[..k][0];
        }
      }
    }
  }

  // At the first place where the strings differ, a has ended or has the smaller character.
  ghost predicate Before(a: string, b: string) {
    forall k: nat :: k <= |a| && k <= |b| && a[..k] == b[..k] ==>
      k == |a| || (k < |b| && a[k] <= b[k])
  }

  lemma BeforeIs(a: string, b: string)
    ensures Before(a, b) <==> !Less(b, a)
  {
    LessIs(b, a);
    if Less(b, a) {
      var k :| 0 <= k <= |b| && k < |a| && b[..k] == a[..k] && (k == |b| || b[k] < a[k]);
      assert a[..k] == b[..k];
    }
  }

  /** Ascending is a matter of neighbours. */
  lemma {:induction false} AscendingIs(s: seq<string>)
    ensures Ascending(s) <==> forall i :: 0 <= i < |s| - 1 ==> Before(s[i], s[i + 1])
  {
    forall i | 0 <= i < |s| - 1 ensures Before(s[i], s[i + 1]) <==> !Less(s[i + 1], s[i]) {
      BeforeIs(s[i], s[i + 1]);
    }
    if forall i :: 0 <= i < |s| - 1 ==> Before(s[i], s[i + 1]) {
      forall i, j | 0 <= i < j < |s| ensures !Less(s[j], s[i]) {
        FarNeighbours(s, i, j);
      }
    }
  }

  lemma {:induction false} FarNeighbours(s: seq<string>, i: nat, j: nat)
    requires i < j < |s| && forall i :: 0 <= i < |s| - 1 ==> Before(s[i], s[i + 1])
    ensures !Less(s[j], s[i])
  {
    BeforeIs(s[j - 1], s[j]);
    if i == j - 1 {
    } else {
      FarNeighbours(s, i, j - 1);
      NotLessTransitive(s[j], s[j - 1], s[i]);
    }
  }

  // If a is not below b, and c is below b, then a is not below c.
  lemma {:induction false} NotLessTransitive(a: string, b: string, c: string)
    requires !Less(a, b) && !Less(b, c)
    ensures !Less(a, c)
  {
    if a != [] && b != [] && c != [] && a[0] == b[0] == c[0] {
      NotLessTransitive(a[1..], b[1..], c[1..]);
    }
  }

  // The first a strings are in place: nothing after them is below them.
  ghost predicate Settled(s: seq<string>, a: nat) {
    forall i, j :: 0 <= i < a && i < j < |s| ==> !Less(s[j], s[i])
  }

  // String a is not above any of those after it, up to b.
  ghost predicate LeastUpTo(s: seq<string>, a: nat, b: nat)
    requires a < |s| && b <= |s|
  {
    forall j :: a < j < b ==> !Less(s[j], s[a])
  }

  function Exchange(s: seq<string>, i: nat, j: nat): (t: seq<string>)
    requires i < j < |s|
    ensures |t| == |s|
  {
    s[i := s[j]][j := s[i]]
  }

  lemma ExchangeStep(s: seq<string>, a: nat, b: nat, was: seq<string>)
    requires a < b < |s| && Settled(s, a) && LeastUpTo(s, a, b) && Less(s[b], s[a])
    requires SameStrings(s, was)
    ensures var t := Exchange(s, a, b);
            Settled(t, a) && LeastUpTo(t, a, b + 1) && SameStrings(t, was)
  {
    LessIsAsymmetric(s[a], s[b]);
    forall j | a < j < b ensures !Less(s[j], s[b]) {
      NotLessTransitive(s[j], s[a], s[b]);
    }
  }

  lemma SameReflexive(s: seq<string>)
    ensures SameStrings(s, s)
  {
  }

  lemma Alone(s: seq<string>, a: nat)
    requires a < |s|
    ensures LeastUpTo(s, a, a + 1)
  {
  }

  lemma KeepStep(s: seq<string>, a: nat, b: nat)
    requires a < b < |s| && LeastUpTo(s, a, b) && !Less(s[b], s[a])
    ensures LeastUpTo(s, a, b + 1)
  {
  }

  lemma PassDone(s: seq<string>, a: nat)
    requires a < |s| && Settled(s, a) && LeastUpTo(s, a, |s|)
    ensures Settled(s, a + 1)
  {
  }

  lemma PushedToo(s: seq<string>, pushed: seq<string>, x: string)
    requires SameStrings(s, [""] + pushed)
    ensures SameStrings([x] + s, [""] + (pushed + [x]))
  {
    assert [""] + (pushed + [x]) == ([""] + pushed) + [x];
  }

  lemma RestIsSmaller(s: seq<string>)
    requires s != []
    ensures multiset(s[1..]) == multiset(s) - multiset{s[0]}
  {
    assert s == [s[0]] + s[1..];
  }

  lemma SameFirst(s: seq<string>, t: seq<string>)
    requires Ascending(s) && Ascending(t) && multiset(s) == multiset(t) && s != []
    ensures t != [] && s[0] == t[0]
  {
    assert s[0] in multiset(t);
    assert t[0] in multiset(s);
    var i :| 0 <= i < |t| && t[i] == s[0];
    var j :| 0 <= j < |s| && s[j] == t[0];
    LessIsAsymmetric(s[0], t[0]);
  }

  /** Ascending order leaves only one arrangement of the same strings. */
  lemma {:induction false} AscendingIsUnique(s: seq<string>, t: seq<string>)
    requires Ascending(s) && Ascending(t) && SameStrings(s, t)
    ensures s == t
  {
    if s == [] {
      assert |multiset(t)| == 0;
    } else {
      SameFirst(s, t);
      RestIsSmaller(s);
      RestIsSmaller(t);
      AscendingIsUnique(s[1..], t[1..]);
      assert s == [s[0]] + s[1..] && t == [t[0]] + t[1..];
    }
  }

  // ----- the heap

  class Node {
    var str: string
    var next: Node?

    constructor (str: string, next: Node?)
      ensures this.str == str && this.next == next
    {
      this.str, this.next := str, next;
    }
  }

  ghost predicate Chain(first: Node?, nodes: seq<Node>)
    reads nodes
  {
    && (if nodes == [] then first == null else first == nodes[0])
    && (forall i, j :: 0 <= i < j < |nodes| ==> nodes[i] != nodes[j])
    && (forall i {:trigger nodes[i].next} :: 0 <= i < |nodes| ==>
          nodes[i].next == if i + 1 < |nodes| then nodes[i + 1] else null)
  }

  ghost function Strings(nodes: seq<Node>): (s: seq<string>)
    reads nodes
    ensures |s| == |nodes| && forall i :: 0 <= i < |nodes| ==> s[i] == nodes[i].str
  {
    seq(|nodes|, i requires 0 <= i < |nodes| reads nodes => nodes[i].str)
  }

  lemma ChainOfMore(n: Node, nodes: seq<Node>)
    requires Chain(n.next, nodes) && n !in nodes
    ensures Chain(n, [n] + nodes)
  {
  }

  lemma StringsOfMore(n: Node, nodes: seq<Node>)
    ensures Strings([n] + nodes) == [n.str] + Strings(nodes)
  {
  }

  /** The exchange sort: only the strings move. */
  method BubbleStrSort(listStr: Node?, ghost nodes: seq<Node>)
    requires Chain(listStr, nodes)
    modifies (set n: Node | n in nodes)`str
    ensures Chain(listStr, nodes)
    ensures Ascending(Strings(nodes))
    ensures forall i :: 0 <= i < |nodes| - 1 ==> Before(nodes[i].str, nodes[i + 1].str)
    ensures SameStrings(Strings(nodes), old(Strings(nodes)))
  {
    if listStr != null {
      var outer := listStr;
      ghost var a := 0;
      while outer.next != null
        invariant a < |nodes| && outer == nodes[a] && Chain(listStr, nodes)
        invariant Settled(Strings(nodes), a)
        invariant SameStrings(Strings(nodes), old(Strings(nodes)))
        decreases |nodes| - a
      {
        SinkSmallest(listStr, outer, nodes, a);
        outer := outer.next;
        a := a + 1;
      }
    }
    AscendingIs(Strings(nodes));
  }

  /** The inner loop: node a ends up with the smallest string from a on. */
  method SinkSmallest(ghost first: Node?, node: Node, ghost nodes: seq<Node>, ghost a: nat)
    requires Chain(first, nodes) && a + 1 < |nodes| && node == nodes[a]
    requires Settled(Strings(nodes), a)
    modifies (set n: Node | n in nodes)`str
    ensures Chain(first, nodes)
    ensures Settled(Strings(nodes), a + 1)
    ensures SameStrings(Strings(nodes), old(Strings(nodes)))
  {
    hide Less, Settled, LeastUpTo, Exchange, SameStrings;
    assert SameStrings(Strings(nodes), Strings(nodes)) by { SameReflexive(Strings(nodes)); }
    ghost var was := Strings(nodes);
    var nestedNode := node.next;
    assert LeastUpTo(Strings(nodes), a, a + 1) by { Alone(Strings(nodes), a); }
    ghost var b := a + 1;
    while nestedNode != null
      invariant a < b <= |nodes| && Chain(first, nodes)
      invariant nestedNode == if b < |nodes| then nodes[b] else null
      invariant Settled(Strings(nodes), a) && LeastUpTo(Strings(nodes), a, b)
      invariant SameStrings(Strings(nodes), was)
      decreases |nodes| - b
    {
      CompareExchange(first, node, nestedNode, nodes, a, b, was);
      nestedNode := nestedNode.next;
      b := b + 1;
    }
    PassDone(Strings(nodes), a);
  }

  // The body of the inner loop.
  method CompareExchange(
      ghost first: Node?, node: Node, nestedNode: Node,
      ghost nodes: seq<Node>, ghost a: nat, ghost b: nat, ghost was: seq<string>)
    requires Chain(first, nodes) && a < b < |nodes| && node == nodes[a] && nestedNode == nodes[b]
    requires Settled(Strings(nodes), a) && LeastUpTo(Strings(nodes), a, b) && SameStrings(Strings(nodes), was)
    modifies node`str, nestedNode`str
    ensures Chain(first, nodes)
    ensures Settled(Strings(nodes), a) && LeastUpTo(Strings(nodes), a, b + 1) && SameStrings(Strings(nodes), was)
  {
    hide Less, Settled, LeastUpTo, Exchange, SameStrings;
    if Less(nestedNode.str, node.str) {
      ExchangeStep(Strings(nodes), a, b, was);
      ExchangeStrings(node, nestedNode, nodes, a, b);
    } else {
      KeepStep(Strings(nodes), a, b);
    }
  }

  method ExchangeStrings(node: Node, nestedNode: Node, ghost nodes: seq<Node>, ghost a: nat, ghost b: nat)
    requires a < b < |nodes| && node == nodes[a] && nestedNode == nodes[b]
    requires forall i, j :: 0 <= i < j < |nodes| ==> nodes[i] != nodes[j]
    modifies node`str, nestedNode`str
    ensures Strings(nodes) == Exchange(old(Strings(nodes)), a, b)
  {
    var tmp := nestedNode.str;
    nestedNode.str := node.str;
    node.str := tmp;
  }

  /** The list as the program uses it: it starts with one empty string, strings are pushed, and now and
      then the whole list is sorted. */
  class StringList {
    var head: Node?
    ghost var nodes: seq<Node>
    ghost var pushed: seq<string>    // in the order of the pushes

    ghost predicate Valid()
      reads this, nodes
    {
      && Chain(head, nodes)
      && (forall i :: 0 <= i < |nodes| ==> |nodes[i].str| < MAX_STRING_SIZE)
      && SameStrings(Strings(nodes), [""] + pushed)
    }

    constructor ()
      ensures Valid() && fresh(nodes) && pushed == [] && Strings(nodes) == [""]
    {
      var n := new Node("", null);
      head, nodes, pushed := n, [n], [];
      new;
      assert Strings(nodes) == [""];
    }

    method Push(newData: string)
      requires Valid() && |newData| < MAX_STRING_SIZE
      modifies this
      ensures Valid() && fresh(nodes[0]) && nodes[1..] == old(nodes)
      ensures Strings(nodes) == [newData] + old(Strings(nodes)) && pushed == old(pushed) + [newData]
    {
      hide SameStrings, Chain;
      PushedToo(Strings(nodes), pushed, newData);
      ghost var was := nodes;
      var n := new Node(newData, head);
      ChainOfMore(n, was);
      StringsOfMore(n, was);
      head := n;
      nodes := [n] + was;
      pushed := pushed + [newData];
    }

    method Sort()
      requires Valid()
      modifies (set n: Node | n in nodes)`str
      ensures Valid() && Ascending(Strings(nodes))
      ensures forall i :: 0 <= i < |nodes| - 1 ==> Before(nodes[i].str, nodes[i + 1].str)
      ensures forall s :: Ascending(s) && SameStrings(s, [""] + pushed) ==> Strings(nodes) == s
    {
      ghost var was := Strings(nodes);
      BubbleStrSort(head, nodes);
      forall i | 0 <= i < |nodes| ensures |nodes[i].str| < MAX_STRING_SIZE {
        assert Strings(nodes)[i] in multiset(Strings(nodes));
        assert nodes[i].str in multiset(was);
      }
      forall s | Ascending(s) && SameStrings(s, [""] + pushed) ensures Strings(nodes) == s {
        AscendingIsUnique(Strings(nodes), s);
      }
    }
  }
}
