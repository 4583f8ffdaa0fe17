/**
 * tests/integration/mock_websocket_server.c: an in-process stand-in for the relay
 * with a fixed table of client slots, a message log per client, an echo fan-out,
 * a capped broadcast history and statistics counters.
 */
module MockServer {
  import opened Wrappers
  import opened CStrings

  const MOCK_MAX_CLIENTS: nat := 10
  const MOCK_MAX_MESSAGE_SIZE: nat := 2048
  const MOCK_SERVER_PORT: int := 7682

  /** The per-client log size and the broadcast history size `mock_server_create` sets. */
  const CLIENT_MAX_MESSAGES: nat := 100
  const MAX_BROADCAST_HISTORY: nat := 200

  /** A `MockMessage`: the stored text and its `length` field. */
  datatype MockMessage = MockMessage(text: string, length: nat)

  /** A `MockClient`: `messages` are the first `message_count` entries of its log. */
  datatype MockClient = MockClient(clientId: int, connected: bool, messages: seq<MockMessage>, maxMessages: nat)

  /** The entry stored for `message`: at most `MOCK_MAX_MESSAGE_SIZE - 1` characters. */
  function Entry(message: string): (m: MockMessage)
    ensures |m.text| < MOCK_MAX_MESSAGE_SIZE && m.length == |m.text| && |m.text| <= |message|
    ensures m.text == message[..|m.text|]
    ensures |message| < MOCK_MAX_MESSAGE_SIZE ==> m.text == message
  {
    var text := Truncate(message, MOCK_MAX_MESSAGE_SIZE - 1);
    MockMessage(text, |text|)
  }

  /** A log with room takes the entry at its end; a full one is left as it is. */
  function Log(c: MockClient, m: MockMessage): (r: MockClient)
    ensures r.(messages := c.messages) == c
    ensures |c.messages| < c.maxMessages ==> r.messages == c.messages + [m]
    ensures |c.messages| >= c.maxMessages ==> r == c
  {
    if |c.messages| < c.maxMessages then c.(messages := c.messages + [m]) else c
  }

  /** A connected client whose log has room. */
  predicate Takes(c: MockClient)
  {
    c.connected && |c.messages| < c.maxMessages
  }

  /** The number of connected slots. */
  function Connected(cs: seq<MockClient>): (n: nat)
    ensures n <= |cs|
    decreases |cs|
  {
    if cs == [] then 0 else Connected(cs[..|cs| - 1]) + (if cs[|cs| - 1].connected then 1 else 0)
  }

  /** The count is zero exactly when no slot is connected. */
  lemma {:induction false} ConnectedZero(cs: seq<MockClient>)
    ensures Connected(cs) == 0 <==> forall j :: 0 <= j < |cs| ==> !cs[j].connected
    decreases |cs|
  {
    if cs != [] {
      ConnectedZero(cs[..|cs| - 1]);
    }
  }

  /** Replacing one slot changes the count by the difference in that slot alone. */
  lemma {:induction false} ConnectedUpdate(cs: seq<MockClient>, i: nat, c: MockClient)
    requires i < |cs|
    ensures Connected(cs[i := c]) + (if cs[i].connected then 1 else 0)
         == Connected(cs) + (if c.connected then 1 else 0)
    decreases |cs|
  {
    var n := |cs| - 1;
    if i < n {
      assert cs[i := c][..n] == cs[..n][i := c];
      ConnectedUpdate(cs[..n], i, c);
    } else {
      assert cs[i := c][..n] == cs[..n];
    }
  }

  /** Slots that agree on who is connected have the same count. */
  lemma {:induction false} ConnectedSame(a: seq<MockClient>, b: seq<MockClient>)
    requires |a| == |b|
    requires forall j :: 0 <= j < |a| ==> a[j].connected == b[j].connected
    ensures Connected(a) == Connected(b)
    decreases |a|
  {
    if a != [] {
      ConnectedSame(a[..|a| - 1], b[..|b| - 1]);
    }
  }

  /** Slot `j` after a fan-out of `m` that skips slot `except`. */
  function Offer(c: MockClient, j: int, except: int, m: MockMessage): (r: MockClient)
    ensures r.(messages := c.messages) == c
    ensures j != except && c.connected ==> r == Log(c, m)
    ensures j == except || !c.connected ==> r == c
  {
    if j != except && c.connected then Log(c, m) else c
  }

  /** Every slot after a fan-out of `m` that skips slot `except`. */
  function Echo(cs: seq<MockClient>, m: MockMessage, except: int): (r: seq<MockClient>)
    ensures |r| == |cs|
    ensures forall j :: 0 <= j < |cs| ==> r[j] == Offer(cs[j], j, except, m)
  {
    seq(|cs|, j requires 0 <= j < |cs| => Offer(cs[j], j, except, m))
  }

  /** The number of slots other than `except` that take a copy of a message. */
  function Takers(cs: seq<MockClient>, except: int): (n: nat)
    ensures n <= |cs|
    decreases |cs|
  {
    if cs == [] then 0
    else Takers(cs[..|cs| - 1], except) + (if |cs| - 1 != except && Takes(cs[|cs| - 1]) then 1 else 0)
  }

  /** The lowest-numbered slot that is not connected, if any. */
  function FirstFree(cs: seq<MockClient>): (r: Option<nat>)
    ensures r.None? <==> forall j :: 0 <= j < |cs| ==> cs[j].connected
    ensures r.Some? ==> r.value < |cs| && !cs[r.value].connected
    ensures r.Some? ==> forall j :: 0 <= j < r.value ==> cs[j].connected
    decreases |cs|
  {
    if cs == [] then None
    else if !cs[0].connected then Some(0)
    else
      match FirstFree(cs[1..])
      case None => None
      case Some(k) => Some(k + 1)
  }

  /** The capped broadcast history: appended while below the cap, never evicted. */
  function Record(history: seq<MockMessage>, m: MockMessage, max: nat): (r: seq<MockMessage>)
  {
    if |history| < max then history + [m] else history
  }

  /** Recording each of `ms` in turn into an empty history. */
  function RecordAll(ms: seq<MockMessage>, max: nat): (r: seq<MockMessage>)
    decreases |ms|
  {
    if ms == [] then [] else Record(RecordAll(ms[..|ms| - 1], max), ms[|ms| - 1], max)
  }

  /**
   * The broadcast history keeps the FIRST `max` messages ever recorded and drops
   * every later one, where the relay's history keeps the last ones.
   */
  lemma {:induction false} RecordKeepsFirst(ms: seq<MockMessage>, max: nat)
    ensures RecordAll(ms, max) == ms[..if |ms| <= max then |ms| else max]
    decreases |ms|
  {
    if ms != [] {
      var init := ms[..|ms| - 1];
      RecordKeepsFirst(init, max);
      if |ms| <= max {
        assert init + [ms[|ms| - 1]] == ms;
      } else {
        assert ms[..max] == init[..max];
      }
    }
  }

  class Server {
    var port: int
    var running: bool
    var acceptConnections: bool
    var echoMessages: bool
    var simulateConnectionError: bool
    var simulateMessageLoss: bool
    const clients: array<MockClient>
    var clientCount: int
    var broadcast: seq<MockMessage>
    var maxBroadcastHistory: nat
    var connectionAttempts: int
    var successfulConnections: int
    var failedConnections: int
    var messagesSent: int
    var messagesReceived: int

    ghost predicate Valid()
      reads this, clients
    {
      && clients.Length == MOCK_MAX_CLIENTS
      && (forall i :: 0 <= i < clients.Length ==>
            clients[i].clientId == i && clients[i].maxMessages == CLIENT_MAX_MESSAGES
            && |clients[i].messages| <= CLIENT_MAX_MESSAGES)
      && clientCount == Connected(clients[..])
      && maxBroadcastHistory == MAX_BROADCAST_HISTORY
      && |broadcast| <= maxBroadcastHistory
    }

    /** `mock_server_create` with a successful allocation: stopped, accepting, echoing. */
    constructor (port: int)
      ensures Valid() && fresh(clients)
      ensures this.port == port && !running && acceptConnections && echoMessages
      ensures !simulateConnectionError && !simulateMessageLoss
      ensures forall i :: 0 <= i < MOCK_MAX_CLIENTS ==> clients[i] == MockClient(i, false, [], CLIENT_MAX_MESSAGES)
      ensures broadcast == [] && clientCount == 0
      ensures connectionAttempts == successfulConnections == failedConnections == messagesSent == messagesReceived == 0
    {
      this.port := port;
      running, acceptConnections, echoMessages := false, true, true;
      simulateConnectionError, simulateMessageLoss := false, false;
      clients := new MockClient[MOCK_MAX_CLIENTS](i => MockClient(i, false, [], CLIENT_MAX_MESSAGES));
      clientCount := 0;
      broadcast, maxBroadcastHistory := [], MAX_BROADCAST_HISTORY;
      connectionAttempts, successfulConnections, failedConnections := 0, 0, 0;
      messagesSent, messagesReceived := 0, 0;
      new;
      ConnectedZero(clients[..]);
    }

    /** `mock_server_start`: refused while running; otherwise running with zeroed statistics. */
    method Start() returns (ok: bool)
      requires Valid()
      modifies this`running, this`connectionAttempts, this`successfulConnections, this`failedConnections, this`messagesSent, this`messagesReceived
      ensures Valid() && ok == !old(running) && running
      ensures ok ==> connectionAttempts == successfulConnections == failedConnections == messagesSent == messagesReceived == 0
      ensures !ok ==>
        && connectionAttempts == old(connectionAttempts) && successfulConnections == old(successfulConnections)
        && failedConnections == old(failedConnections) && messagesSent == old(messagesSent)
        && messagesReceived == old(messagesReceived)
    {
      if running {
        return false;
      }
      running := true;
      connectionAttempts, successfulConnections, failedConnections := 0, 0, 0;
      messagesSent, messagesReceived := 0, 0;
      return true;
    }

    /** `mock_server_stop`: not running, every slot disconnected, no clients counted. */
    method Stop()
      requires Valid()
      modifies this`running, this`clientCount, clients
      ensures Valid() && !running && clientCount == 0
      ensures forall i :: 0 <= i < clients.Length ==> clients[i] == old(clients[i]).(connected := false)
    {
      var i := 0;
      while i < MOCK_MAX_CLIENTS
        modifies clients
        invariant 0 <= i <= MOCK_MAX_CLIENTS
        invariant forall j :: 0 <= j < i ==> clients[j] == old(clients[j]).(connected := false)
        invariant forall j :: i <= j < MOCK_MAX_CLIENTS ==> clients[j] == old(clients[j])
      {
        if clients[i].connected {
          clients[i] := clients[i].(connected := false);
        }
        i := i + 1;
      }
      ConnectedZero(clients[..]);
      running := false;
      clientCount := 0;
    }

    /**
     * `mock_server_simulate_client_connect`: -1 when stopped; -1 with a failure
     * counted when connections are refused, an error is simulated or every slot
     * is taken; otherwise the lowest free slot, connected with an empty log.
     */
    method Connect() returns (id: int)
      requires Valid()
      modifies this`connectionAttempts, this`successfulConnections, this`failedConnections, this`clientCount, clients
      ensures Valid()
      ensures var free := FirstFree(old(clients[..]));
        id == if old(running) && old(acceptConnections) && !old(simulateConnectionError) && free.Some?
              then free.value else -1
      ensures id >= 0 ==> clients[id] == old(clients[id]).(connected := true, messages := [])
      ensures forall j :: 0 <= j < clients.Length && j != id ==> clients[j] == old(clients[j])
      ensures connectionAttempts == old(connectionAttempts) + (if old(running) then 1 else 0)
      ensures successfulConnections == old(successfulConnections) + (if id >= 0 then 1 else 0)
      ensures failedConnections == old(failedConnections) + (if old(running) && id < 0 then 1 else 0)
      ensures clientCount == old(clientCount) + (if id >= 0 then 1 else 0)
    {
      if !running {
        return -1;
      }
      connectionAttempts := connectionAttempts + 1;
      var i := MOCK_MAX_CLIENTS;
      if acceptConnections && !simulateConnectionError {
        i := FindFree(clients);
      }
      if i == MOCK_MAX_CLIENTS {
        failedConnections := failedConnections + 1;
        return -1;
      }
      Claim(i);
      successfulConnections := successfulConnections + 1;
      return i;
    }

    /** A free slot becomes connected with an empty log and is counted. */
    method Claim(i: nat)
      requires Valid() && i < MOCK_MAX_CLIENTS && !clients[i].connected
      modifies this`clientCount, clients
      ensures Valid()
      ensures clients[..] == old(clients[..])[i := old(clients[i]).(connected := true, messages := [])]
      ensures clientCount == old(clientCount) + 1
    {
      ConnectedUpdate(clients[..], i, clients[i].(connected := true, messages := []));
      clients[i] := clients[i].(connected := true, messages := []);
      clientCount := clientCount + 1;
    }

    /** `mock_server_simulate_client_disconnect`: out-of-range ids and repeats change nothing. */
    method Disconnect(clientId: int)
      requires Valid()
      modifies this`clientCount, clients
      ensures Valid()
      ensures 0 <= clientId < MOCK_MAX_CLIENTS ==> clients[clientId] == old(clients[clientId]).(connected := false)
      ensures forall j :: 0 <= j < clients.Length && j != clientId ==> clients[j] == old(clients[j])
      ensures clientCount == old(clientCount) - (if 0 <= clientId < MOCK_MAX_CLIENTS && old(clients[clientId].connected) then 1 else 0)
    {
      if clientId < 0 || clientId >= MOCK_MAX_CLIENTS {
        return;
      }
      if clients[clientId].connected {
        ConnectedUpdate(clients[..], clientId, clients[clientId].(connected := false));
        clients[clientId] := clients[clientId].(connected := false);
        clientCount := clientCount - 1;
      }
    }

    /**
     * Give every connected slot other than `except` whose log has room one copy
     * of `m`, counting each copy in `messagesSent`.
     */
    method FanOut(m: MockMessage, except: int)
      requires Valid()
      modifies this`messagesSent, clients
      ensures Valid()
      ensures clients[..] == Echo(old(clients[..]), m, except)
      ensures messagesSent == old(messagesSent) + Takers(old(clients[..]), except)
    {
      ghost var before := clients[..];
      var copies := OfferAll(clients, m, except);
      messagesSent := messagesSent + copies;
      ConnectedSame(before, clients[..]);
    }

    /** The sender's own log takes the message if it has room, counted as received. */
    method Store(clientId: nat, m: MockMessage)
      requires Valid() && clientId < MOCK_MAX_CLIENTS
      modifies this`messagesReceived, clients
      ensures Valid()
      ensures clients[..] == old(clients[..])[clientId := Log(old(clients[clientId]), m)]
      ensures messagesReceived == old(messagesReceived) + (if |old(clients[clientId].messages)| < CLIENT_MAX_MESSAGES then 1 else 0)
    {
      if |clients[clientId].messages| < clients[clientId].maxMessages {
        ConnectedUpdate(clients[..], clientId, Log(clients[clientId], m));
        clients[clientId] := Log(clients[clientId], m);
        messagesReceived := messagesReceived + 1;
      }
    }

    /**
     * `mock_server_simulate_client_send_message`; `dropped` is the random draw of
     * the simulated loss. False, with nothing changed, for a NULL message, an
     * invalid or disconnected sender, or a dropped message. Otherwise the sender's
     * log takes the message if it has room, the other connected clients get a
     * copy when echo is on, and the broadcast history records it.
     */
    method SendMessage(clientId: int, message: Option<string>, dropped: bool) returns (ok: bool)
      requires Valid()
      modifies this`messagesSent, this`messagesReceived, this`broadcast, clients
      ensures Valid()
      ensures ok <==> message.Some? && 0 <= clientId < MOCK_MAX_CLIENTS && old(clients[clientId].connected)
                      && !(old(simulateMessageLoss) && dropped)
      ensures !ok ==>
        && clients[..] == old(clients[..]) && broadcast == old(broadcast)
        && messagesSent == old(messagesSent) && messagesReceived == old(messagesReceived)
      ensures ok ==> var m := Entry(message.value);
        var stored := old(clients[..])[clientId := Log(old(clients[clientId]), m)];
        && clients[..] == (if old(echoMessages) then Echo(stored, m, clientId) else stored)
        && messagesReceived == old(messagesReceived) + (if |old(clients[clientId].messages)| < CLIENT_MAX_MESSAGES then 1 else 0)
        && messagesSent == old(messagesSent) + (if old(echoMessages) then Takers(old(clients[..]), clientId) else 0)
        && broadcast == Record(old(broadcast), m, MAX_BROADCAST_HISTORY)
    {
      if message.None? || clientId < 0 || clientId >= MOCK_MAX_CLIENTS {
        return false;
      }
      if !clients[clientId].connected {
        return false;
      }
      if simulateMessageLoss && dropped {
        return false;
      }
      Deliver(clientId, Entry(message.value));
      return true;
    }

    /**
     * An accepted message: the sender's log takes it, the other connected clients
     * get a copy when echo is on, and the broadcast history records it.
     */
    method Deliver(clientId: nat, m: MockMessage)
      requires Valid() && clientId < MOCK_MAX_CLIENTS
      modifies this`messagesSent, this`messagesReceived, this`broadcast, clients
      ensures Valid()
      ensures var stored := old(clients[..])[clientId := Log(old(clients[clientId]), m)];
        && clients[..] == (if old(echoMessages) then Echo(stored, m, clientId) else stored)
        && messagesReceived == old(messagesReceived) + (if |old(clients[clientId].messages)| < CLIENT_MAX_MESSAGES then 1 else 0)
        && messagesSent == old(messagesSent) + (if old(echoMessages) then Takers(old(clients[..]), clientId) else 0)
        && broadcast == Record(old(broadcast), m, MAX_BROADCAST_HISTORY)
    {
      ghost var before := clients[..];
      Store(clientId, m);
      if echoMessages {
        TakersIgnoreExcepted(before, clients[..], clientId);
        FanOut(m, clientId);
      }
      if |broadcast| < maxBroadcastHistory {
        broadcast := broadcast + [m];
      }
    }

    /**
     * `mock_server_inject_message`: every connected client whose log has room gets
     * a copy; a NULL message changes nothing.
     */
    method Inject(message: Option<string>)
      requires Valid()
      modifies this`messagesSent, clients
      ensures Valid()
      ensures message.None? ==> clients[..] == old(clients[..]) && messagesSent == old(messagesSent)
      ensures message.Some? ==>
        && clients[..] == Echo(old(clients[..]), Entry(message.value), -1)
        && messagesSent == old(messagesSent) + Takers(old(clients[..]), -1)
    {
      if message.None? {
        return;
      }
      FanOut(Entry(message.value), -1);
    }

    /** `mock_server_broadcast_message`: inject, then record in the broadcast history. */
    method Broadcast(message: Option<string>)
      requires Valid()
      modifies this`messagesSent, this`broadcast, clients
      ensures Valid()
      ensures message.None? ==> clients[..] == old(clients[..]) && broadcast == old(broadcast) && messagesSent == old(messagesSent)
      ensures message.Some? ==>
        && clients[..] == Echo(old(clients[..]), Entry(message.value), -1)
        && messagesSent == old(messagesSent) + Takers(old(clients[..]), -1)
        && broadcast == Record(old(broadcast), Entry(message.value), MAX_BROADCAST_HISTORY)
    {
      if message.None? {
        return;
      }
      Inject(message);
      if |broadcast| < maxBroadcastHistory {
        broadcast := broadcast + [Entry(message.value)];
      }
    }

    /** `mock_server_reset_stats`: zero the counters, every client log and the broadcast history. */
    method ResetStats()
      requires Valid()
      modifies this`connectionAttempts, this`successfulConnections, this`failedConnections, this`messagesSent, this`messagesReceived, this`broadcast, clients
      ensures Valid()
      ensures connectionAttempts == successfulConnections == failedConnections == messagesSent == messagesReceived == 0
      ensures forall j :: 0 <= j < clients.Length ==> clients[j] == old(clients[j]).(messages := [])
      ensures broadcast == []
    {
      ClearLogs(clients);
      ConnectedSame(old(clients[..]), clients[..]);
      connectionAttempts, successfulConnections, failedConnections := 0, 0, 0;
      messagesSent, messagesReceived := 0, 0;
      broadcast := [];
    }
  }

  /**
   * The fan-out loop: every slot other than `except` that is connected and has
   * room takes a copy of `m`; the result is the number of copies made.
   */
  method OfferAll(clients: array<MockClient>, m: MockMessage, except: int) returns (copies: nat)
    modifies clients
    ensures clients[..] == Echo(old(clients[..]), m, except)
    ensures copies == Takers(old(clients[..]), except)
  {
    ghost var before := clients[..];
    copies := 0;
    var i := 0;
    while i < clients.Length
      invariant 0 <= i <= clients.Length
      invariant forall j :: 0 <= j < i ==> clients[j] == Offer(before[j], j, except, m)
      invariant forall j :: i <= j < clients.Length ==> clients[j] == before[j]
      invariant copies == Takers(before[..i], except)
    {
      assert before[..i + 1][..i] == before[..i];
      if i != except && clients[i].connected && |clients[i].messages| < clients[i].maxMessages {
        clients[i] := Log(clients[i], m);
        copies := copies + 1;
      }
      i := i + 1;
    }
    assert before[..clients.Length] == before;
  }

  /** The slot-search loop of `mock_server_simulate_client_connect`: the lowest free slot, or the length. */
  method FindFree(clients: array<MockClient>) returns (i: nat)
    ensures i <= clients.Length
    ensures (if i < clients.Length then Some(i) else None) == FirstFree(clients[..])
  {
    i := 0;
    while i < clients.Length && clients[i].connected
      invariant 0 <= i <= clients.Length
      invariant forall j :: 0 <= j < i ==> clients[j].connected
    {
      i := i + 1;
    }
  }

  /** The loop of `mock_server_reset_stats` that empties every client log. */
  method ClearLogs(clients: array<MockClient>)
    modifies clients
    ensures forall j :: 0 <= j < clients.Length ==> clients[j] == old(clients[j]).(messages := [])
  {
    var i := 0;
    while i < clients.Length
      invariant 0 <= i <= clients.Length
      invariant forall j :: 0 <= j < i ==> clients[j] == old(clients[j]).(messages := [])
      invariant forall j :: i <= j < clients.Length ==> clients[j] == old(clients[j])
    {
      clients[i] := clients[i].(messages := []);
      i := i + 1;
    }
  }

  /** Only the slot a message came from can differ, so the count of other takers is the same. */
  lemma {:induction false} TakersIgnoreExcepted(a: seq<MockClient>, b: seq<MockClient>, except: int)
    requires |a| == |b|
    requires forall j :: 0 <= j < |a| && j != except ==> a[j] == b[j]
    ensures Takers(a, except) == Takers(b, except)
    decreases |a|
  {
    if a != [] {
      TakersIgnoreExcepted(a[..|a| - 1], b[..|b| - 1], except);
    }
  }

  /**
   * The multiple-clients integration test: a fresh server is started, two clients
   * connect and take the two lowest slots, and the first one sends `text`. Both
   * logs hold the one entry, one copy was echoed and one message was received.
   */
  method ScenarioMultipleClients(text: string) returns (client1: int, client2: int, connected: int, log1: seq<MockMessage>, log2: seq<MockMessage>, sent: int, received: int)
    ensures client1 == 0 && client2 == 1 && connected == 2
    ensures log1 == [Entry(text)] && log2 == [Entry(text)]
    ensures sent == 1 && received == 1
  {
    var s := new Server(MOCK_SERVER_PORT);
    var started := s.Start();
    client1 := s.Connect();
    client2 := s.Connect();
    assert s.clients[1] == MockClient(1, true, [], CLIENT_MAX_MESSAGES);
    TakersAfterTwoConnects(s.clients[..]);
    var ok := s.SendMessage(client1, Some(text), false);
    connected := s.clientCount;
    log1, log2 := s.clients[0].messages, s.clients[1].messages;
    sent, received := s.messagesSent, s.messagesReceived;
  }

  /** With only slots 0 and 1 connected and empty, a message from slot 0 has one other taker. */
  lemma TakersAfterTwoConnects(cs: seq<MockClient>)
    requires |cs| == MOCK_MAX_CLIENTS
    requires cs[0].connected && Takes(cs[1])
    requires forall j :: 2 <= j < |cs| ==> !cs[j].connected
    ensures Takers(cs, 0) == 1
  {
    var n := 2;
    assert Takers(cs[..1], 0) == 0 by { assert cs[..1][..0] == []; }
    assert cs[..2][..1] == cs[..1];
    while n < |cs|
      invariant 2 <= n <= |cs| && Takers(cs[..n], 0) == 1
    {
      assert cs[..n + 1][..n] == cs[..n];
      n := n + 1;
    }
    assert cs[..|cs|] == cs;
  }
}
