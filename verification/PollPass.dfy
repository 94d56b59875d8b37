/** One pass of a worker thread over its connections: the descriptors are laid out in pairs before the
    poll, and during the pass a dropped connection is replaced by the last one and waiting ones may be
    woken. */
module PollPass {
  import opened Runs
  import opened ProxyConnection

  // Event masks, kept apart as the program combines them.
  datatype Event = In | Out | RdBand | RdNorm

  datatype PollFd = PollFd(fd: int, events: set<Event>)

  // The events the program asks for on the client's and on the server's socket.
  function ClientEvents(st: ConnectionStatus, before: set<Event>): set<Event> {
    match st
    case GettingRequest => {In}
    case ForwardingRequest => {In, RdBand, RdNorm}
    case ForwardingResponse | RespondingFromCache => {Out}
    case ConnectingToServer | WritingRequest | WaitingDataOnCache => {}
    case NotActive => before
  }

  function ServerEvents(st: ConnectionStatus, before: set<Event>): set<Event> {
    match st
    case ConnectingToServer | WritingRequest | ForwardingRequest => {Out}
    case ForwardingResponse => {In}
    case GettingRequest | RespondingFromCache | WaitingDataOnCache => {}
    case NotActive => before
  }

  // Event by event, in which states a connection asks for it.
  ghost predicate Asked(st: ConnectionStatus, client: set<Event>, server: set<Event>) {
    && (In in client <==> st == GettingRequest || st == ForwardingRequest)
    && (Out in client <==> st == ForwardingResponse || st == RespondingFromCache)
    && (RdBand in client <==> st == ForwardingRequest)
    && (RdNorm in client <==> st == ForwardingRequest)
    && (In in server <==> st == ForwardingResponse)
    && (Out in server <==> st == ConnectingToServer || st == WritingRequest || st == ForwardingRequest)
    && RdBand !in server && RdNorm !in server
  }

  // The test at the head of each arm of work, on the events reported.
  predicate ArmRuns(st: ConnectionStatus, client: set<Event>, server: set<Event>) {
    match st
    case GettingRequest => In in client
    case ConnectingToServer => Out in server
    case WritingRequest => Out in server
    case ForwardingRequest => (RdNorm in client || RdBand in client || In in client) && Out in server
    case ForwardingResponse => Out in client && In in server
    case RespondingFromCache => Out in client
    case NotActive => false
    case WaitingDataOnCache => false
  }

  /** A connection asks for exactly the events that can decide whether its arm runs. */
  lemma AskedIsDecisive(st: ConnectionStatus, before: set<Event>, e: Event)
    requires st != NotActive
    ensures e in ClientEvents(st, before)
            <==> exists client, server :: ArmRuns(st, client, server) && !ArmRuns(st, client - {e}, server)
    ensures e in ServerEvents(st, before)
            <==> exists client, server :: ArmRuns(st, client, server) && !ArmRuns(st, client, server - {e})
    ensures !ArmRuns(st, {}, {}) && !ArmRuns(NotActive, {}, {})
  {
    if e in ClientEvents(st, before) {
      var server := if st == ForwardingResponse then {In} else {Out};
      assert ArmRuns(st, {e}, server) && !ArmRuns(st, {e} - {e}, server);
    }
    if e in ServerEvents(st, before) {
      var client := if st == ForwardingResponse then {Out} else {In};
      assert ArmRuns(st, client, {e}) && !ArmRuns(st, client, {e} - {e});
    }
  }

  ghost predicate PairedAt(fds: seq<PollFd>, was: seq<PollFd>, i: nat, c: Slot)
    requires 2 * i + 1 < |fds| == |was|
  {
    && fds[2 * i] == PollFd(c.clientSocket, ClientEvents(c.status, was[2 * i].events))
    && fds[2 * i + 1] == PollFd(c.serverSocket, ServerEvents(c.status, was[2 * i + 1].events))
  }

  method FormPollFds(fds: array<PollFd>, connectionsCount: nat, connections: array<Slot>)
    requires 2 * connectionsCount <= fds.Length && connectionsCount <= connections.Length
    modifies fds
    ensures forall i: nat :: i < connectionsCount ==> PairedAt(fds[..], old(fds[..]), i, connections[i])
    // what is asked of the client's and of the server's socket
    ensures forall i: nat :: i < connectionsCount && connections[i].status != NotActive ==>
              Asked(connections[i].status, fds[..][2 * i].events, fds[..][2 * i + 1].events)
    ensures forall i: nat :: i < connectionsCount && connections[i].status == NotActive ==>
              fds[2 * i].events == old(fds[2 * i].events) && fds[2 * i + 1].events == old(fds[2 * i + 1].events)
    ensures fds[2 * connectionsCount..] == old(fds[2 * connectionsCount..])
  {
    var i := 0;
    while i < connectionsCount
      invariant i <= connectionsCount
      invariant forall k: nat :: k < i ==> PairedAt(fds[..], old(fds[..]), k, connections[k])
      invariant forall k :: 2 * i <= k < fds.Length ==> fds[k] == old(fds[k])
    {
      var c := connections[i];
      fds[2 * i] := PollFd(c.clientSocket, ClientEvents(c.status, fds[2 * i].events));
      fds[2 * i + 1] := PollFd(c.serverSocket, ServerEvents(c.status, fds[2 * i + 1].events));
      i := i + 1;
    }
  }

  function Cleared(c: Slot): Slot {
    Slot(-1, -1, NotActive, "", -1, 0, c.id)
  }

  /** moveConnection: the last active connection takes the place of the dropped one. */
  method MoveConnection(i: nat, connections: array<Slot>, connectionsCount: nat) returns (count: nat)
    requires i < connectionsCount <= connections.Length
    modifies connections
    ensures count == connectionsCount - 1
    ensures connections[..] ==
              old(connections[..])[i := old(connections[connectionsCount - 1])]
                                  [connectionsCount - 1 := Cleared(old(connections[connectionsCount - 1]))]
    // the place given up holds no sockets, no buffer and no entry
    ensures var c := connections[connectionsCount - 1];
            c == Slot(-1, -1, NotActive, "", -1, 0, old(connections[connectionsCount - 1].id))
  {
    connections[i] := connections[connectionsCount - 1];
    connections[connectionsCount - 1] := Cleared(connections[connectionsCount - 1]);
    count := connectionsCount - 1;
  }

  function Awake(c: Slot): Slot {
    if c.status == WaitingDataOnCache then c.(status := RespondingFromCache) else c
  }

  /** wakeUp: every active connection that waits for data responds again. */
  method WakeUp(connections: array<Slot>, connectionsCount: nat)
    requires connectionsCount <= connections.Length
    modifies connections
    ensures forall j :: 0 <= j < connectionsCount ==> connections[j] == Awake(old(connections[j]))
    ensures forall j :: 0 <= j < connectionsCount ==>
              var c := old(connections[j]);
              connections[j] == if c.status == WaitingDataOnCache then c.(status := RespondingFromCache) else c
    ensures connections[connectionsCount..] == old(connections[connectionsCount..])
  {
    for i := 0 to connectionsCount
      invariant forall j :: 0 <= j < i ==> connections[j] == Awake(old(connections[j]))
      invariant forall j :: i <= j < connections.Length ==> connections[j] == old(connections[j])
    {
      if connections[i].status == WaitingDataOnCache {
        connections[i] := connections[i].(status := RespondingFromCache);
      }
    }
  }

  // The active prefix after the swap-removal.
  function SwapRemove<T>(s: seq<T>, i: nat): (r: seq<T>)
    requires i < |s|
    ensures |r| == |s| - 1
  {
    s[i := s[|s| - 1]][..|s| - 1]
  }

  lemma SwapRemoveKeepsRest<T>(s: seq<T>, i: nat)
    requires i < |s|
    ensures multiset(SwapRemove(s, i)) + multiset{s[i]} == multiset(s)
  {
    var last := s[|s| - 1];
    assert s == s[..|s| - 1] + [last];
    if i < |s| - 1 {
      assert SwapRemove(s, i) == s[..|s| - 1][i := last];
    } else {
      assert SwapRemove(s, i) == s[..|s| - 1];
    }
  }

  // ----- the pass

  // What never changes about a connection.
  datatype Client = Client(socket: int, id: int)

  function ClientOf(c: Slot): Client {
    Client(c.clientSocket, c.id)
  }

  function Clients(cs: seq<Slot>): seq<Client> {
    Mapped(ClientOf, cs)
  }

  // What handling a connection does, as the outside world decides: its new state, whether the waiting
  // connections are woken, whether it is dropped.
  datatype Outcome = Outcome(after: Slot, wakes: bool, drops: bool)

  // Handling may change everything but whose connection it is.
  function Handle(c: Slot, o: Outcome): Slot {
    o.after.(clientSocket := c.clientSocket, id := c.id)
  }

  predicate SameUntilWoken(c: Slot, was: Slot) {
    c == was || c == Awake(was)
  }

  ghost predicate Accounted(active: seq<Client>, dropped: seq<Client>, all: seq<Client>) {
    multiset(active) + multiset(dropped) == multiset(all)
  }

  lemma DropKeepsAccount(active: seq<Client>, dropped: seq<Client>, all: seq<Client>, i: nat)
    requires i < |active| && Accounted(active, dropped, all)
    ensures Accounted(SwapRemove(active, i), dropped + [active[i]], all)
  {
    SwapRemoveKeepsRest(active, i);
  }

  // The clients whose outcome is to be dropped.
  function Chosen(cs: seq<Client>, outcomes: seq<Outcome>): (r: seq<Client>)
    requires |cs| == |outcomes|
  {
    if cs == [] then []
    else
      var before := Chosen(cs[..|cs| - 1], outcomes[..|outcomes| - 1]);
      if outcomes[|outcomes| - 1].drops then before + [cs[|cs| - 1]] else before
  }

  lemma ChosenNext(all: seq<Client>, outcomes: seq<Outcome>, i: nat)
    requires i < |all| && i < |outcomes|
    ensures Chosen(all[..i + 1], outcomes[..i + 1])
            == if outcomes[i].drops then Chosen(all[..i], outcomes[..i]) + [all[i]] else Chosen(all[..i], outcomes[..i])
  {
    assert all[..i + 1][..i] == all[..i] && outcomes[..i + 1][..i] == outcomes[..i];
  }

  /** The pass. handled and dropped list what it did, in order: the connections as it found them, and the
      clients it lost. */
  method Pass(connections: array<Slot>, connectionsCount: nat, outcomes: seq<Outcome>)
    returns (count: nat, ghost handled: seq<Slot>, ghost dropped: seq<Client>)
    requires connectionsCount <= connections.Length && |outcomes| == connectionsCount
    modifies connections
    // index by index, the connection handled is the one the descriptors were laid out for, at most woken
    ensures |handled| <= connectionsCount
    ensures forall k :: 0 <= k < |handled| ==> SameUntilWoken(handled[k], old(connections[k]))
    // the dropped ones are those the world chose among the handled
    ensures var clients := Clients(old(connections[..connectionsCount]));
            dropped == Chosen(clients[..|handled|], outcomes[..|handled|]) && |dropped| == connectionsCount - count
    // what survives is exactly the rest, and nothing active lies beyond the indices visited
    ensures count <= |handled|
    ensures Accounted(Clients(connections[..count]), dropped, Clients(old(connections[..connectionsCount])))
  {
    hide Accounted, Chosen, SwapRemove, Cleared, Handle;
    ghost var all := connections[..connectionsCount];
    ghost var clients := Clients(all);
    count := connectionsCount;
    handled, dropped := [], [];
    var i := 0;
    NothingDropped(clients);
    while i < count
      invariant i <= connectionsCount && count <= connectionsCount
      invariant |handled| == i && forall k :: 0 <= k < i ==> SameUntilWoken(handled[k], all[k])
      invariant dropped == Chosen(clients[..i], outcomes[..i]) && |dropped| == connectionsCount - count
      invariant forall j :: i <= j < count ==> SameUntilWoken(connections[j], all[j])
      invariant Accounted(Clients(connections[..count]), dropped, clients)
      decreases connectionsCount - i
    {
      ChosenNext(clients, outcomes, i);
      handled := handled + [connections[i]];
      HandleAt(i, connections, count, outcomes[i]);
      if outcomes[i].drops {
        ghost var active := Clients(connections[..count]);
        DropKeepsAccount(active, dropped, clients, i);
        dropped := dropped + [active[i]];
        count := DropAt(i, connections, count);
      }
      i := i + 1;
    }
  }

  /** Layout, poll and pass together: whatever is dropped or woken on the way, each connection handled finds
      its own two sockets in its pair of descriptors, with the events of the status it had at the layout. */
  method Round(connections: array<Slot>, connectionsCount: nat, fds: array<PollFd>, outcomes: seq<Outcome>)
    returns (count: nat, ghost handled: seq<Slot>)
    requires connectionsCount <= connections.Length && 2 * connectionsCount <= fds.Length
    requires |outcomes| == connectionsCount
    modifies connections, fds
    ensures count <= |handled| <= connectionsCount
    ensures forall k: nat :: k < |handled| ==>
              && PairedAt(fds[..], old(fds[..]), k, old(connections[k]))
              && SameUntilWoken(handled[k], old(connections[k]))
              && fds[2 * k].fd == handled[k].clientSocket && fds[2 * k + 1].fd == handled[k].serverSocket
  {
    ghost var before := connections[..];
    FormPollFds(fds, connectionsCount, connections);
    assert connections[..] == before;
    ghost var dropped;
    count, handled, dropped := Pass(connections, connectionsCount, outcomes);
    forall k: nat | k < |handled|
      ensures fds[2 * k].fd == handled[k].clientSocket && fds[2 * k + 1].fd == handled[k].serverSocket {
      assert PairedAt(fds[..], old(fds[..]), k, before[k]);
      assert fds[..][2 * k] == fds[2 * k] && fds[..][2 * k + 1] == fds[2 * k + 1];
    }
  }

  lemma NothingDropped(all: seq<Client>)
    ensures Accounted(all, [], all) && Chosen([], []) == [] && all[..0] == []
  {
  }

  // One iteration before a possible drop.
  method HandleAt(i: nat, connections: array<Slot>, count: nat, outcome: Outcome)
    requires i < count <= connections.Length
    modifies connections
    ensures Clients(connections[..count]) == Clients(old(connections[..count]))
    ensures var after := Handle(old(connections[i]), outcome);
            connections[i] == if outcome.wakes then Awake(after) else after
    ensures forall j :: i < j < count ==>
              connections[j] == if outcome.wakes then Awake(old(connections[j])) else old(connections[j])
  {
    ghost var active := connections[..count];
    connections[i] := Handle(connections[i], outcome);
    if outcome.wakes { WakeUp(connections, count); }
    assert Clients(connections[..count]) == Clients(active);
  }

  // The part of dropConnection that concerns the array.
  method DropAt(i: nat, connections: array<Slot>, count: nat) returns (left: nat)
    requires i < count <= connections.Length
    modifies connections
    ensures left == count - 1
    ensures Clients(connections[..left]) == SwapRemove(Clients(old(connections[..count])), i)
    ensures forall j :: i < j < left ==> connections[j] == old(connections[j])
  {
    ghost var active := connections[..count];
    left := MoveConnection(i, connections, count);
    assert connections[..left] == SwapRemove(active, i);
    assert Clients(connections[..left]) == SwapRemove(Clients(active), i);
  }
}
