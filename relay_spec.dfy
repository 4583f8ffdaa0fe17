/**
 * The broadcast relay of backend/protocol_lws_minimal.c as a state machine over
 * values: one vhost's history list, live slot, version counter and session
 * registry, plus the two things the relay asks of libwebsockets, which are
 * recorded as outputs: every `lws_write` (an append-only log of sends) and every
 * `lws_callback_on_writable` (the set of sessions with a pending wake-up).
 *
 * History nodes are numbered in the order they were linked. `nodes` holds every
 * node ever linked and the history list proper is `nodes[head..]`; a session's
 * `history_pos` pointer becomes the number of the node it points at. As written,
 * the source frees a node when it is evicted even if a replay cursor still points
 * at it (see WritableAsWritten); the model that the rest of the project uses
 * keeps an evicted node readable for as long as a cursor refers to it, as
 * reference-counted nodes would.
 */
module RelaySpec {
  import opened Wrappers
  import opened BoundedFifo

  newtype Byte = b: int | 0 <= b < 256

  type Payload = seq<Byte>

  /** A session (one `per_session_data__minimal`), identified by its connection. */
  type Sid = nat

  /** `max_history_messages` as PROTOCOL_INIT sets it. */
  const MAX_HISTORY_MESSAGES: nat := 50

  /**
   * Per-session data: `last` is the version of the last live message sent,
   * `needsHistory` the `needs_history` flag and `cursor` the node `history_pos`
   * points at (None for NULL).
   */
  datatype Session = Session(last: int, needsHistory: bool, cursor: Option<nat>)

  /** Where a send came from: history node `seqno`, or the live slot at `version`. */
  datatype Origin = FromHistory(seqno: nat) | FromLive(version: int)

  /** One successful `lws_write` of `payload` on session `to`. */
  datatype Send = Send(to: Sid, payload: Payload, origin: Origin)

  datatype State = State(
    nodes: seq<Payload>,
    head: nat,
    maxHistory: nat,
    live: Option<Payload>,
    current: int,
    sessions: map<Sid, Session>,
    sent: seq<Send>,
    wakeups: set<Sid>)

  /** What a callback leaves behind: the new state and the value it returns. */
  datatype Step = Step(state: State, ret: int)

  /** The history list, oldest first. */
  function Ring(st: State): seq<Payload>
    requires st.head <= |st.nodes|
  {
    st.nodes[st.head..]
  }

  /** The invariant every callback keeps. */
  predicate Valid(st: State)
  {
    && st.head <= |st.nodes|
    && |st.nodes| - st.head <= st.maxHistory
    && st.wakeups <= st.sessions.Keys
    && (forall t :: t in st.sessions ==> st.sessions[t].last <= st.current)
    && (forall t :: t in st.sessions && st.sessions[t].cursor.Some? ==>
          st.sessions[t].cursor.value < |st.nodes|)
  }

  /** A vhost with an empty history bounded by `maxHistory` and no sessions. */
  function Fresh(maxHistory: nat): (st: State)
    ensures Valid(st) && Ring(st) == [] && st.sessions == map[] && st.live == None
  {
    State([], 0, maxHistory, None, 0, map[], [], {})
  }

  /**
   * PROTOCOL_INIT: the zero-filled vhost data with a history of at most 50
   * messages, or None (the callback returns 1) when the allocation fails.
   */
  function ProtocolInit(allocOk: bool): (r: Option<State>)
    ensures r.Some? <==> allocOk
    ensures r.Some? ==> Valid(r.value) && Ring(r.value) == [] && r.value.current == 0
    ensures r.Some? ==> r.value.maxHistory == MAX_HISTORY_MESSAGES && r.value.sessions == map[]
  {
    if allocOk then Some(Fresh(MAX_HISTORY_MESSAGES)) else None
  }

  /**
   * `__minimal_add_to_history`: link a copy of `p` at the tail, then unlink from
   * the head while the count exceeds the bound. `allocOk` is false when either
   * allocation fails, in which case nothing changes.
   */
  function AddToHistory(st: State, p: Payload, allocOk: bool): (r: State)
    requires Valid(st)
    ensures Valid(r)
    ensures |Ring(r)| <= r.maxHistory
    ensures Ring(r) == if allocOk then Push(Ring(st), p, st.maxHistory) else Ring(st)
    ensures st.nodes <= r.nodes && st.head <= r.head
    ensures r.(nodes := st.nodes, head := st.head) == st
  {
    if !allocOk then st
    else
      var nodes := st.nodes + [p];
      var count := |nodes| - st.head;
      var keep := if count <= st.maxHistory then count else st.maxHistory;
      assert Ring(st) + [p] == nodes[st.head..];
      assert nodes[|nodes| - keep..] == (Ring(st) + [p])[count - keep..];
      var r := st.(nodes := nodes, head := |nodes| - keep);
      assert Ring(r) == Push(Ring(st), p, st.maxHistory);
      r
  }

  /**
   * ESTABLISHED followed by `__minimal_send_history`: register the session with
   * `last` at the current version, the cursor at the history head (NULL when the
   * history is empty), `needs_history` set, and a writable request.
   */
  function Established(st: State, s: Sid): (r: State)
    requires Valid(st) && s !in st.sessions
    ensures Valid(r)
    ensures r.sessions.Keys == st.sessions.Keys + {s}
    ensures forall t :: t in st.sessions ==> r.sessions[t] == st.sessions[t]
    ensures r.sessions[s].last == st.current && r.sessions[s].needsHistory
    ensures Ring(st) == [] <==> r.sessions[s].cursor == None
    ensures Ring(st) != [] ==> r.sessions[s].cursor == Some(st.head) && r.nodes[st.head] == Ring(st)[0]
    ensures r.wakeups == st.wakeups + {s}
    ensures r.(sessions := st.sessions, wakeups := st.wakeups) == st
  {
    var cursor := if st.head < |st.nodes| then Some(st.head) else None;
    st.(sessions := st.sessions[s := Session(st.current, true, cursor)],
        wakeups := st.wakeups + {s})
  }

  /** CLOSED: drop the session from the registry; its pending wake-up goes with it. */
  function Closed(st: State, s: Sid): (r: State)
    requires Valid(st)
    ensures Valid(r)
    ensures s !in r.sessions && s !in r.wakeups
    ensures forall t :: t in st.sessions && t != s ==> t in r.sessions && r.sessions[t] == st.sessions[t]
    ensures r.sessions.Keys <= st.sessions.Keys
    ensures r.(sessions := st.sessions, wakeups := st.wakeups) == st
  {
    st.(sessions := st.sessions - {s}, wakeups := st.wakeups - {s})
  }

  /**
   * RECEIVE: add the message to the history, release the previous live copy and
   * make a new one. Only when that copy succeeds (`liveOk`) does the version
   * advance and every registered session get a writable request.
   */
  function Receive(st: State, p: Payload, historyOk: bool, liveOk: bool): (r: State)
    requires Valid(st)
    ensures Valid(r)
    ensures Ring(r) == Ring(AddToHistory(st, p, historyOk))
    ensures r.live == (if liveOk then Some(p) else None)
    ensures r.current == (if liveOk then st.current + 1 else st.current)
    ensures r.wakeups == (if liveOk then st.wakeups + st.sessions.Keys else st.wakeups)
    ensures r.sessions == st.sessions && r.sent == st.sent
  {
    var h := AddToHistory(st, p, historyOk);
    if liveOk then h.(live := Some(p), current := st.current + 1, wakeups := st.wakeups + st.sessions.Keys)
    else h.(live := None)
  }

  /** The session is replaying: `needs_history` is set and `history_pos` is not NULL. */
  predicate Replaying(st: State, s: Sid)
  {
    s in st.sessions && st.sessions[s].needsHistory && st.sessions[s].cursor.Some?
  }

  /**
   * SERVER_WRITEABLE on session `s`, where `written` is what `lws_write` returns.
   * A replaying session is sent the node under its cursor and nothing else; any
   * other session is sent the live message once per version. A short write
   * returns -1 and leaves everything as it was.
   */
  function Writable(st: State, s: Sid, written: int): (r: Step)
    requires Valid(st) && s in st.sessions
    ensures Valid(r.state)
    ensures r.ret == 0 || r.ret == -1
    ensures r.ret == -1 ==> r.state == st.(wakeups := st.wakeups - {s})
    ensures r.state.(sent := st.sent, sessions := st.sessions, wakeups := st.wakeups) == st
    ensures r.state.sessions.Keys == st.sessions.Keys
    ensures forall t :: t in st.sessions && t != s ==> r.state.sessions[t] == st.sessions[t]
    ensures r.state.wakeups - {s} == st.wakeups - {s}
    ensures st.sent <= r.state.sent && |r.state.sent| <= |st.sent| + 1
    ensures forall i :: |st.sent| <= i < |r.state.sent| ==> r.state.sent[i].to == s
    ensures Replaying(st, s) && r.ret == 0 ==>
      var k := st.sessions[s].cursor.value;
      && r.state.sent == st.sent + [Send(s, st.nodes[k], FromHistory(k))]
      && (k + 1 < |st.nodes| ==> r.state.sessions[s] == st.sessions[s].(cursor := Some(k + 1)) && s in r.state.wakeups)
      && (k + 1 == |st.nodes| ==> r.state.sessions[s] == Session(st.current, false, None) && s !in r.state.wakeups)
    ensures !Replaying(st, s) ==>
      && r.state.sessions[s].needsHistory == st.sessions[s].needsHistory
      && r.state.sessions[s].cursor == st.sessions[s].cursor
      && s !in r.state.wakeups
      && (r.ret == 0 ==> r.state.sessions[s].last == st.current || st.live == None)
      && (r.state.sent != st.sent <==>
            r.ret == 0 && st.live.Some? && st.sessions[s].last != st.current)
      && (r.state.sent != st.sent ==>
            r.state.sent == st.sent + [Send(s, st.live.value, FromLive(st.current))])
  {
    var ss := st.sessions[s];
    var served := st.wakeups - {s};
    if ss.needsHistory && ss.cursor.Some? then
      var k := ss.cursor.value;
      var p := st.nodes[k];
      if written < |p| then Step(st.(wakeups := served), -1)
      else
        var sent := st.sent + [Send(s, p, FromHistory(k))];
        if k + 1 < |st.nodes| then
          Step(st.(sent := sent, sessions := st.sessions[s := ss.(cursor := Some(k + 1))],
                   wakeups := served + {s}), 0)
        else
          Step(st.(sent := sent, sessions := st.sessions[s := Session(st.current, false, None)],
                   wakeups := served), 0)
    else if st.live.None? || ss.last == st.current then Step(st.(wakeups := served), 0)
    else if written < |st.live.value| then Step(st.(wakeups := served), -1)
    else
      Step(st.(sent := st.sent + [Send(s, st.live.value, FromLive(st.current))],
               sessions := st.sessions[s := ss.(last := st.current)],
               wakeups := served), 0)
  }

  /**
   * SERVER_WRITEABLE as the source is written: identical to Writable except that
   * a cursor on a node the history has already evicted reads freed memory, which
   * is undefined behaviour (None).
   */
  function WritableAsWritten(st: State, s: Sid, written: int): (r: Option<Step>)
    requires Valid(st) && s in st.sessions
    ensures r.None? <==> Replaying(st, s) && st.sessions[s].cursor.value < st.head
    ensures r.Some? ==> r.value == Writable(st, s, written)
  {
    if Replaying(st, s) && st.sessions[s].cursor.value < st.head then None
    else Some(Writable(st, s, written))
  }

  /** The sends a replay from node `k` to the last node makes, one per node. */
  function HistorySends(s: Sid, nodes: seq<Payload>, k: nat): (r: seq<Send>)
    requires k <= |nodes|
    ensures |r| == |nodes| - k
    ensures forall i :: 0 <= i < |r| ==> r[i] == Send(s, nodes[k + i], FromHistory(k + i))
    decreases |nodes| - k
  {
    if k == |nodes| then [] else [Send(s, nodes[k], FromHistory(k))] + HistorySends(s, nodes, k + 1)
  }

  /** The payloads of a send log, in order. */
  function Payloads(log: seq<Send>): (r: seq<Payload>)
    ensures |r| == |log| && forall i :: 0 <= i < |log| ==> r[i] == log[i].payload
  {
    seq(|log|, i requires 0 <= i < |log| => log[i].payload)
  }

  /** A log extended by a replay from node `k` ends with the payloads of `nodes[k..]`, all to `s`. */
  lemma ReplayLog(pre: seq<Send>, s: Sid, nodes: seq<Payload>, k: nat, log: seq<Send>)
    requires k <= |nodes| && log == pre + HistorySends(s, nodes, k)
    ensures log[..|pre|] == pre && Payloads(log[|pre|..]) == nodes[k..]
    ensures forall i :: |pre| <= i < |log| ==> log[i].to == s && log[i].origin.FromHistory?
  {
    assert log[|pre|..] == HistorySends(s, nodes, k);
  }

  /** Writable events on `s`, each fully written, until it stops replaying. */
  function Drain(st: State, s: Sid): (r: State)
    requires Valid(st) && s in st.sessions
    ensures Valid(r) && r.sessions.Keys == st.sessions.Keys && st.sent <= r.sent
    decreases if Replaying(st, s) then |st.nodes| - st.sessions[s].cursor.value else 0
  {
    if !Replaying(st, s) then st
    else
      var k := st.sessions[s].cursor.value;
      Drain(Writable(st, s, |st.nodes[k]|).state, s)
  }

  /**
   * Replay completeness: a replaying session whose cursor is at node `k` is sent
   * every node from `k` to the tail, in order and nothing else, then catches up
   * to the current version and leaves replay; nothing else in the vhost changes.
   */
  lemma {:induction false} DrainDelivers(st: State, s: Sid)
    requires Valid(st) && Replaying(st, s)
    ensures var r := Drain(st, s);
      && r.sent == st.sent + HistorySends(s, st.nodes, st.sessions[s].cursor.value)
      && r.sessions[s] == Session(st.current, false, None)
      && r.nodes == st.nodes && r.head == st.head && r.live == st.live && r.current == st.current
      && r.sessions.Keys == st.sessions.Keys
      && (forall t :: t in st.sessions && t != s ==> r.sessions[t] == st.sessions[t])
    decreases |st.nodes| - st.sessions[s].cursor.value
  {
    var k := st.sessions[s].cursor.value;
    var w := Writable(st, s, |st.nodes[k]|).state;
    ReplayStep(st, s);
    assert Drain(st, s) == Drain(w, s);
    if k + 1 < |st.nodes| {
      DrainDelivers(w, s);
      HistorySendsUnfold(s, st.nodes, k);
    }
  }

  /** One fully written Writable event on a replaying session sends node `k` and moves on. */
  lemma ReplayStep(st: State, s: Sid)
    requires Valid(st) && Replaying(st, s)
    ensures var k := st.sessions[s].cursor.value;
      var w := Writable(st, s, |st.nodes[k]|).state;
      && w.sent == st.sent + [Send(s, st.nodes[k], FromHistory(k))]
      && w.nodes == st.nodes && w.head == st.head && w.live == st.live && w.current == st.current
      && w.sessions.Keys == st.sessions.Keys
      && (forall t :: t in st.sessions && t != s ==> w.sessions[t] == st.sessions[t])
      && (k + 1 < |st.nodes| ==> Replaying(w, s) && w.sessions[s].cursor.value == k + 1)
      && (k + 1 == |st.nodes| ==> w.sessions[s] == Session(st.current, false, None) && !Replaying(w, s))
  {
  }

  /** The first send of a replay from `k`, followed by the replay from `k + 1`. */
  lemma HistorySendsUnfold(s: Sid, nodes: seq<Payload>, k: nat)
    requires k < |nodes|
    ensures HistorySends(s, nodes, k) == [Send(s, nodes[k], FromHistory(k))] + HistorySends(s, nodes, k + 1)
  {
  }

  /**
   * A session that joins a non-empty history and is then only woken for writing
   * is sent exactly the history as it stood when it joined, oldest first, and
   * ends in live mode at the current version.
   */
  lemma JoinReplaysHistory(st: State, s: Sid)
    requires Valid(st) && s !in st.sessions
    ensures var r := Drain(Established(st, s), s);
      && r.sent[..|st.sent|] == st.sent
      && Payloads(r.sent[|st.sent|..]) == Ring(st)
      && (forall i :: |st.sent| <= i < |r.sent| ==> r.sent[i].to == s && r.sent[i].origin.FromHistory?)
      && r.sessions[s].last == st.current && !Replaying(r, s)
  {
    var j := Established(st, s);
    if Ring(st) != [] {
      DrainDelivers(j, s);
      ReplayLog(st.sent, s, st.nodes, st.head, Drain(j, s).sent);
    } else {
      assert !Replaying(j, s);
    }
  }

  /**
   * A message that arrives while a session is replaying (even one that evicts
   * the node under its cursor) reaches it through the history, after every
   * older node and never as a live message; the session then stands at the new
   * version, so its next writable event sends nothing.
   */
  lemma ReceiveDuringReplay(st: State, s: Sid, p: Payload, w: int)
    requires Valid(st) && Replaying(st, s)
    ensures var k := st.sessions[s].cursor.value;
      var r := Drain(Receive(st, p, true, true), s);
      && r.sent == st.sent + HistorySends(s, st.nodes + [p], k)
      && r.sessions[s].last == r.current == st.current + 1
      && Writable(r, s, w).state.sent == r.sent
  {
    var rcv := Receive(st, p, true, true);
    assert rcv.nodes == st.nodes + [p];
    DrainDelivers(rcv, s);
  }

  /**
   * No duplicate live delivery: after a writable event on a live session that
   * did not fail, a second one with no message received in between sends nothing.
   */
  lemma SecondWritableSendsNothing(st: State, s: Sid, w1: int, w2: int)
    requires Valid(st) && s in st.sessions && !Replaying(st, s)
    requires Writable(st, s, w1).ret == 0
    ensures var r1 := Writable(st, s, w1).state;
      Writable(r1, s, w2).state.sent == r1.sent
  {
  }

  /**
   * The history holds exactly the newest `maxHistory` messages received, in
   * order of arrival, whatever happened to the live copies.
   */
  function ReceiveAll(st: State, ps: seq<Payload>): (r: State)
    requires Valid(st)
    ensures Valid(r) && r.maxHistory == st.maxHistory
    ensures r.sessions == st.sessions && r.sent == st.sent
    decreases |ps|
  {
    if ps == [] then st else Receive(ReceiveAll(st, ps[..|ps| - 1]), ps[|ps| - 1], true, true)
  }

  lemma {:induction false} HistoryHoldsLastN(n: nat, ps: seq<Payload>)
    ensures Ring(ReceiveAll(Fresh(n), ps)) == KeepLast(ps, n)
    ensures |Ring(ReceiveAll(Fresh(n), ps))| <= n
    decreases |ps|
  {
    if ps != [] {
      var init, x := ps[..|ps| - 1], ps[|ps| - 1];
      assert init + [x] == ps;
      var r := ReceiveAll(Fresh(n), init);
      assert ReceiveAll(Fresh(n), ps) == Receive(r, x, true, true);
      assert Ring(Receive(r, x, true, true)) == Push(Ring(r), x, n);
      HistoryHoldsLastN(n, init);
      PushKeepsLast(init, x, n);
    }
  }

  /** Every callback, as libwebsockets delivers it to the protocol. */
  datatype Reason =
    | OnEstablished(s: Sid)
    | OnClosed(s: Sid)
    | OnWriteable(s: Sid, written: int)
    | OnReceive(p: Payload, historyOk: bool, liveOk: bool)

  /** A new connection gets a fresh session; writable events only reach registered ones. */
  predicate Enabled(st: State, e: Reason)
  {
    match e
    case OnEstablished(s) => s !in st.sessions
    case OnWriteable(s, _) => s in st.sessions
    case _ => true
  }

  function Next(st: State, e: Reason): (r: State)
    requires Valid(st) && Enabled(st, e)
    ensures Valid(r)
  {
    match e
    case OnEstablished(s) => Established(st, s)
    case OnClosed(s) => Closed(st, s)
    case OnWriteable(s, w) => Writable(st, s, w).state
    case OnReceive(p, h, l) => Receive(st, p, h, l)
  }

  /**
   * Every live message a session was sent carries a version no newer than the
   * session's `last`, and the live versions sent to one session strictly increase.
   */
  predicate LiveOnce(st: State)
  {
    && (forall i :: 0 <= i < |st.sent| && st.sent[i].origin.FromLive? ==>
          && st.sent[i].origin.version <= st.current
          && (st.sent[i].to in st.sessions ==> st.sent[i].origin.version <= st.sessions[st.sent[i].to].last))
    && (forall i, j ::
          (0 <= i < j < |st.sent| && st.sent[i].to == st.sent[j].to
           && st.sent[i].origin.FromLive? && st.sent[j].origin.FromLive?) ==>
          st.sent[i].origin.version < st.sent[j].origin.version)
  }

  /** No session is ever sent the same live version twice, whatever the order of callbacks. */
  lemma NextKeepsLiveOnce(st: State, e: Reason)
    requires Valid(st) && Enabled(st, e) && LiveOnce(st)
    ensures LiveOnce(Next(st, e))
  {
    match e {
      case OnEstablished(s) =>
        var r := Established(st, s);
        assert forall i :: 0 <= i < |st.sent| && st.sent[i].to == s && st.sent[i].origin.FromLive? ==>
          st.sent[i].origin.version <= r.sessions[s].last;
      case OnClosed(s) =>
      case OnReceive(p, h, l) =>
      case OnWriteable(s, w) =>
        WritableKeepsLiveOnce(st, s, w);
    }
  }

  lemma WritableKeepsLiveOnce(st: State, s: Sid, w: int)
    requires Valid(st) && s in st.sessions && LiveOnce(st)
    ensures LiveOnce(Writable(st, s, w).state)
  {
    var r := Writable(st, s, w).state;
    if r.sent != st.sent {
      var n := |st.sent|;
      assert r.sent == st.sent + [r.sent[n]];
      if r.sent[n].origin.FromLive? {
        assert !Replaying(st, s);
        assert r.sent[n].origin.version == st.current == r.sessions[s].last;
        assert st.sessions[s].last < st.current;
        forall i | 0 <= i < n && r.sent[i].to == s && r.sent[i].origin.FromLive?
          ensures r.sent[i].origin.version < r.sent[n].origin.version
        {
          assert st.sent[i] == r.sent[i];
        }
      }
    }
  }

  /**
   * The use-after-free in the source: when the history is full, a session that
   * joins and then sees one more message arrive before its first writable event
   * is left with its cursor on the node that arrival evicted and freed, so the
   * next writable event reads freed memory.
   */
  lemma EvictedCursorIsRead(st: State, s: Sid, p: Payload, w: int)
    requires Valid(st) && s !in st.sessions && st.maxHistory > 0 && |Ring(st)| == st.maxHistory
    ensures var r := Receive(Established(st, s), p, true, true);
      && Replaying(r, s) && r.sessions[s].cursor == Some(st.head) && st.head < r.head
      && WritableAsWritten(r, s, w) == None
  {
    var j := Established(st, s);
    var r := Receive(j, p, true, true);
    assert |Ring(r)| == st.maxHistory;
  }

  /** With a bound of 3, a session joining after m1..m4 is replayed m2, m3, m4. */
  lemma ScenarioReplayAfterEviction(s: Sid, m1: Payload, m2: Payload, m3: Payload, m4: Payload)
    ensures var st := ReceiveAll(Fresh(3), [m1, m2, m3, m4]);
      Payloads(Drain(Established(st, s), s).sent) == [m2, m3, m4]
  {
    var st := ReceiveAll(Fresh(3), [m1, m2, m3, m4]);
    HistoryHoldsLastN(3, [m1, m2, m3, m4]);
    assert KeepLast([m1, m2, m3, m4], 3) == [m2, m3, m4];
    JoinReplaysHistory(st, s);
    var r := Drain(Established(st, s), s);
    assert r.sent[|st.sent|..] == r.sent;
  }

  /**
   * A session joining an empty history is not replaying: its first writable
   * event sends nothing and it stays in live mode.
   */
  lemma ScenarioJoinEmptyHistory(s: Sid, w: int)
    ensures var j := Established(ProtocolInit(true).value, s);
      var r := Writable(j, s, w);
      && !Replaying(j, s) && r.ret == 0 && r.state.sent == [] && !Replaying(r.state, s)
  {
  }

  /**
   * Two live sessions each get a received message exactly once: one send on
   * their next writable event and none on the one after.
   */
  lemma ScenarioTwoSessions(a: Sid, b: Sid, hello: Payload, w1: int, w2: int)
    requires a != b && w1 >= |hello| && w2 >= |hello|
    ensures var st := Receive(Established(Established(Fresh(MAX_HISTORY_MESSAGES), a), b), hello, true, true);
      var r1 := Writable(st, a, w1).state;
      var r2 := Writable(r1, b, w2).state;
      && r2.sent == [Send(a, hello, FromLive(1)), Send(b, hello, FromLive(1))]
      && Writable(r2, a, w1).state.sent == r2.sent
      && Writable(r2, b, w2).state.sent == r2.sent
  {
    var st := Receive(Established(Established(Fresh(MAX_HISTORY_MESSAGES), a), b), hello, true, true);
    TwoJoinThenReceive(a, b, hello);
    var r1 := Writable(st, a, w1).state;
    LiveWrite(st, a, w1);
    var r2 := Writable(r1, b, w2).state;
    LiveWrite(r1, b, w2);
    assert r2.sessions[a] == r1.sessions[a];
  }

  /** Two sessions join an empty history, then one message arrives: both wait for it live. */
  lemma TwoJoinThenReceive(a: Sid, b: Sid, hello: Payload)
    requires a != b
    ensures var st := Receive(Established(Established(Fresh(MAX_HISTORY_MESSAGES), a), b), hello, true, true);
      && st.live == Some(hello) && st.current == 1 && st.sent == []
      && a in st.sessions && b in st.sessions
      && st.sessions[a].last == 0 && st.sessions[b].last == 0
      && !Replaying(st, a) && !Replaying(st, b)
  {
    var eb := Established(Established(Fresh(MAX_HISTORY_MESSAGES), a), b);
    assert eb.sessions[a] == Session(0, true, None) && eb.sessions[b] == Session(0, true, None);
  }

  /** A fully written live delivery to a session behind the current version. */
  lemma LiveWrite(st: State, s: Sid, w: int)
    requires Valid(st) && s in st.sessions && !Replaying(st, s)
    requires st.live.Some? && st.sessions[s].last != st.current && w >= |st.live.value|
    ensures var r := Writable(st, s, w).state;
      && r.sent == st.sent + [Send(s, st.live.value, FromLive(st.current))]
      && r.sessions[s].last == st.current && !Replaying(r, s)
      && r.live == st.live && r.current == st.current
      && (forall t :: t in st.sessions && t != s ==> t in r.sessions && r.sessions[t] == st.sessions[t])
  {
  }
}
