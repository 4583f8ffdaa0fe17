/**
 * The per-vhost data of backend/protocol_lws_minimal.c as an object whose
 * callbacks update it in place. Each method is proved to leave the object in the
 * state the matching RelaySpec function gives, so the lemmas of RelaySpec hold of
 * every run of these methods.
 */
module Relay {
  import opened Wrappers
  import opened RelaySpec

  class Vhost {
    /** Every history node linked so far; `nodes[head..]` is the list itself. */
    var nodes: seq<Payload>
    var head: nat
    var messageCount: nat
    var maxHistoryMessages: nat
    /** The live slot `amsg`: None while its payload is NULL. */
    var amsg: Option<Payload>
    var current: int
    /** The registry `pss_list`, with each session's per-session data. */
    var sessions: map<Sid, Session>
    /** What the callbacks asked of libwebsockets: writes done and wake-ups pending. */
    var sent: seq<Send>
    var wakeups: set<Sid>

    function Abs(): State
      reads this
    {
      State(nodes, head, maxHistoryMessages, amsg, current, sessions, sent, wakeups)
    }

    ghost predicate Valid()
      reads this
    {
      RelaySpec.Valid(Abs()) && messageCount == |nodes| - head
    }

    /** PROTOCOL_INIT with a successful allocation. */
    constructor ()
      ensures Valid() && Abs() == ProtocolInit(true).value
    {
      nodes, head, messageCount := [], 0, 0;
      maxHistoryMessages := MAX_HISTORY_MESSAGES;
      amsg, current := None, 0;
      sessions, sent, wakeups := map[], [], {};
    }

    /** `__minimal_add_to_history`, with the eviction loop. */
    method AddToHistory(payload: Payload, allocOk: bool)
      requires Valid()
      modifies this
      ensures Valid() && Abs() == RelaySpec.AddToHistory(old(Abs()), payload, allocOk)
    {
      if !allocOk {
        return;
      }
      nodes := nodes + [payload];
      messageCount := messageCount + 1;
      while messageCount > maxHistoryMessages && messageCount > 0
        invariant head <= |nodes| && messageCount == |nodes| - head
        invariant messageCount == |nodes| - old(head) || messageCount >= maxHistoryMessages
        invariant nodes == old(nodes) + [payload]
        invariant Abs().(nodes := old(nodes), head := old(head)) == old(Abs())
        decreases messageCount
      {
        head := head + 1;
        messageCount := messageCount - 1;
      }
    }

    /** `__minimal_destroy_message` on the live slot. */
    method DestroyLive()
      modifies this`amsg
      ensures amsg == None
    {
      amsg := None;
    }

    /** `__minimal_send_history`: start the replay at the history head. */
    method SendHistory(s: Sid)
      requires s in sessions
      modifies this`sessions, this`wakeups
      ensures sessions == old(sessions)[s := old(sessions)[s].(needsHistory := true,
                cursor := if head < |nodes| then Some(head) else None)]
      ensures wakeups == old(wakeups) + {s}
    {
      var cursor := if head < |nodes| then Some(head) else None;
      sessions := sessions[s := sessions[s].(needsHistory := true, cursor := cursor)];
      wakeups := wakeups + {s};
    }

    /** LWS_CALLBACK_ESTABLISHED for a new session `s`. */
    method Established(s: Sid)
      requires Valid() && s !in sessions
      modifies this
      ensures Valid() && Abs() == RelaySpec.Established(old(Abs()), s)
    {
      sessions := sessions[s := Session(current, false, None)];
      SendHistory(s);
    }

    /** LWS_CALLBACK_CLOSED. */
    method Closed(s: Sid)
      requires Valid()
      modifies this
      ensures Valid() && Abs() == RelaySpec.Closed(old(Abs()), s)
    {
      sessions := sessions - {s};
      wakeups := wakeups - {s};
    }

    /** LWS_CALLBACK_SERVER_WRITEABLE; `written` is what `lws_write` returned. */
    method Writable(s: Sid, written: int) returns (ret: int)
      requires Valid() && s in sessions
      modifies this
      ensures Valid()
      ensures Step(Abs(), ret) == RelaySpec.Writable(old(Abs()), s, written)
    {
      wakeups := wakeups - {s};
      var pss := sessions[s];
      if pss.needsHistory && pss.cursor.Some? {
        var k := pss.cursor.value;
        if written < |nodes[k]| {
          return -1;
        }
        sent := sent + [Send(s, nodes[k], FromHistory(k))];
        if k + 1 < |nodes| {
          sessions := sessions[s := pss.(cursor := Some(k + 1))];
          wakeups := wakeups + {s};
        } else {
          sessions := sessions[s := Session(current, false, None)];
        }
        return 0;
      }
      if amsg.None? {
        return 0;
      }
      if pss.last == current {
        return 0;
      }
      if written < |amsg.value| {
        return -1;
      }
      sent := sent + [Send(s, amsg.value, FromLive(current))];
      sessions := sessions[s := pss.(last := current)];
      return 0;
    }

    /** LWS_CALLBACK_RECEIVE of `payload`; the flags say which allocations succeed. */
    method Receive(payload: Payload, historyOk: bool, liveOk: bool)
      requires Valid()
      modifies this
      ensures Valid() && Abs() == RelaySpec.Receive(old(Abs()), payload, historyOk, liveOk)
    {
      AddToHistory(payload, historyOk);
      if amsg.Some? {
        DestroyLive();
      }
      if !liveOk {
        return;
      }
      amsg := Some(payload);
      current := current + 1;
      WakeAll();
    }

    /** Request a writable callback on every registered session. */
    method WakeAll()
      modifies this`wakeups
      ensures wakeups == old(wakeups) + sessions.Keys
    {
      var todo := sessions.Keys;
      while todo != {}
        invariant todo <= sessions.Keys
        invariant wakeups == old(wakeups) + (sessions.Keys - todo)
        decreases todo
      {
        var t :| t in todo;
        wakeups := wakeups + {t};
        todo := todo - {t};
      }
    }
  }
}
