/**
 * The copy of the relay's history list that tests/backend/test_backend_components.c
 * builds its unit tests on: the same append-then-evict rule, with guards against
 * a NULL vhost, a NULL payload and an empty payload, and a stored copy that ends
 * in a NUL byte.
 */
module HistoryHarness {
  import opened Wrappers
  import opened BoundedFifo
  import opened RelaySpec

  /** The limit `create_test_vhd` sets. */
  const TEST_MAX_HISTORY: nat := 5

  /** The timestamp every stored message gets. */
  const MOCK_TIMESTAMP: nat := 1234567890

  /** A `struct msg`: `payload` is None once destroyed. */
  datatype Msg = Msg(payload: Option<seq<Byte>>, len: nat, timestamp: nat)

  /** The message `__minimal_add_to_history` stores for the first `len` bytes of `p`. */
  function Stored(p: seq<Byte>, len: nat): (m: Msg)
    requires len <= |p|
  {
    Msg(Some(p[..len] + [0]), len, MOCK_TIMESTAMP)
  }

  /**
   * The history after the guarded `__minimal_add_to_history`: unchanged when the
   * payload is NULL, `len` is 0 or an allocation fails, otherwise the stored copy
   * pushed into the list bounded by `max`.
   */
  function Add(history: seq<Msg>, max: nat, payload: Option<seq<Byte>>, len: nat, allocOk: bool): (r: seq<Msg>)
    requires payload.Some? ==> len <= |payload.value|
    ensures |history| <= max ==> |r| <= max
    ensures payload == None || len == 0 || !allocOk ==> r == history
    ensures payload.Some? && len > 0 && allocOk && max > 0 ==>
      r != [] && r[|r| - 1] == Msg(Some(payload.value[..len] + [0]), len, MOCK_TIMESTAMP)
  {
    if payload == None || len == 0 || !allocOk then history
    else Push(history, Stored(payload.value, len), max)
  }

  /** A NULL-safe `__minimal_destroy_message`. */
  function DestroyMessage(m: Option<Msg>): (r: Option<Msg>)
    ensures r.None? <==> m.None?
    ensures r.Some? ==> r.value.payload == None && r.value.timestamp == m.value.timestamp
    ensures r.Some? && m.value.payload.Some? ==> r.value.len == 0
    ensures r.Some? && m.value.payload.None? ==> r == m
  {
    match m
    case None => None
    case Some(msg) => if msg.payload.Some? then Some(msg.(payload := None, len := 0)) else m
  }

  /** The test vhost data, reduced to the fields the history tests touch. */
  class TestVhd {
    var history: seq<Msg>
    var messageCount: nat
    var maxHistoryMessages: nat
    var current: int
    var amsg: Option<Payload>

    ghost predicate Valid()
      reads this
    {
      messageCount == |history| <= maxHistoryMessages
    }

    constructor ()
      ensures Valid() && history == [] && messageCount == 0
      ensures maxHistoryMessages == TEST_MAX_HISTORY && current == 0 && amsg == None
    {
      history, messageCount := [], 0;
      maxHistoryMessages := TEST_MAX_HISTORY;
      current, amsg := 0, None;
    }
  }

  /** `create_test_vhd`: NULL when the allocation fails. */
  method CreateTestVhd(allocOk: bool) returns (vhd: TestVhd?)
    ensures allocOk <==> vhd != null
    ensures vhd != null ==> fresh(vhd) && vhd.Valid() && vhd.history == [] && vhd.messageCount == 0
    ensures vhd != null ==> vhd.maxHistoryMessages == TEST_MAX_HISTORY && vhd.current == 0 && vhd.amsg == None
  {
    if !allocOk {
      return null;
    }
    vhd := new TestVhd();
  }

  /** The guarded `__minimal_add_to_history`, with its eviction loop. */
  method AddToHistory(vhd: TestVhd?, payload: Option<seq<Byte>>, len: nat, allocOk: bool)
    requires vhd != null ==> vhd.Valid()
    requires payload.Some? ==> len <= |payload.value|
    modifies vhd
    ensures vhd != null ==> vhd.Valid()
    ensures vhd != null ==> vhd.history == Add(old(vhd.history), vhd.maxHistoryMessages, payload, len, allocOk)
    ensures vhd != null ==> vhd.maxHistoryMessages == old(vhd.maxHistoryMessages)
    ensures vhd != null ==> vhd.current == old(vhd.current) && vhd.amsg == old(vhd.amsg)
  {
    if vhd == null || payload == None || len == 0 || !allocOk {
      return;
    }
    var m := Stored(payload.value, len);
    ghost var all := vhd.history + [m];
    vhd.history := vhd.history + [m];
    vhd.messageCount := vhd.messageCount + 1;
    while vhd.messageCount > vhd.maxHistoryMessages && vhd.history != []
      invariant vhd.messageCount == |vhd.history| <= |all|
      invariant vhd.history == all[|all| - |vhd.history|..]
      invariant vhd.history == all || vhd.messageCount >= vhd.maxHistoryMessages
      invariant vhd.maxHistoryMessages == old(vhd.maxHistoryMessages)
      invariant vhd.current == old(vhd.current) && vhd.amsg == old(vhd.amsg)
      decreases vhd.messageCount
    {
      vhd.history := vhd.history[1..];
      vhd.messageCount := vhd.messageCount - 1;
    }
  }

  /** Adding each message of `ms`, in order, to an empty history bounded by `max`. */
  function AddAll(ms: seq<seq<Byte>>, max: nat): (r: seq<Msg>)
    requires forall i :: 0 <= i < |ms| ==> ms[i] != []
    decreases |ms|
  {
    if ms == [] then []
    else Add(AddAll(ms[..|ms| - 1], max), max, Some(ms[|ms| - 1]), |ms[|ms| - 1]|, true)
  }

  /** The stored copies of `ms`, in order. */
  function StoredAll(ms: seq<seq<Byte>>): (r: seq<Msg>)
    ensures |r| == |ms|
    decreases |ms|
  {
    if ms == [] then [] else StoredAll(ms[..|ms| - 1]) + [Stored(ms[|ms| - 1], |ms[|ms| - 1]|)]
  }

  /** The `i`-th stored copy is that of the `i`-th message, whole. */
  lemma {:induction false} StoredAllAt(ms: seq<seq<Byte>>, i: nat)
    requires i < |ms|
    ensures StoredAll(ms)[i] == Stored(ms[i], |ms[i]|)
    decreases |ms|
  {
    if i < |ms| - 1 {
      StoredAllAt(ms[..|ms| - 1], i);
    }
  }

  /** Non-empty messages added one at a time leave the newest `max` of them, oldest first. */
  lemma {:induction false} AddAllKeepsNewest(ms: seq<seq<Byte>>, max: nat)
    requires forall i :: 0 <= i < |ms| ==> ms[i] != []
    ensures AddAll(ms, max) == KeepLast(StoredAll(ms), max)
    decreases |ms|
  {
    if ms != [] {
      var init := ms[..|ms| - 1];
      var last := ms[|ms| - 1];
      var x := Stored(last, |last|);
      assert forall i :: 0 <= i < |init| ==> init[i] == ms[i];
      AddAllKeepsNewest(init, max);
      assert AddAll(ms, max) == Push(AddAll(init, max), x, max);
      PushKeepsLast(StoredAll(init), x, max);
    }
  }

  /** With the test limit of 5, adding Msg1..Msg7 leaves Msg3..Msg7 in order. */
  lemma ScenarioOverflow(m1: seq<Byte>, m2: seq<Byte>, m3: seq<Byte>, m4: seq<Byte>,
                         m5: seq<Byte>, m6: seq<Byte>, m7: seq<Byte>)
    requires m1 != [] && m2 != [] && m3 != [] && m4 != [] && m5 != [] && m6 != [] && m7 != []
    ensures var h := AddAll([m1, m2, m3, m4, m5, m6, m7], TEST_MAX_HISTORY);
      |h| == 5 && h == [Stored(m3, |m3|), Stored(m4, |m4|), Stored(m5, |m5|), Stored(m6, |m6|), Stored(m7, |m7|)]
  {
    var ms := [m1, m2, m3, m4, m5, m6, m7];
    AddAllKeepsNewest(ms, TEST_MAX_HISTORY);
    StoredAllAt(ms, 2);
    StoredAllAt(ms, 3);
    StoredAllAt(ms, 4);
    StoredAllAt(ms, 5);
    StoredAllAt(ms, 6);
    assert StoredAll(ms)[2..] == [Stored(m3, |m3|), Stored(m4, |m4|), Stored(m5, |m5|), Stored(m6, |m6|), Stored(m7, |m7|)];
  }

  /** The stored copy of a whole payload is its bytes followed by a NUL. */
  lemma StoredWhole(p: seq<Byte>)
    ensures Stored(p, |p|) == Msg(Some(p + [0]), |p|, MOCK_TIMESTAMP)
  {
    assert p[..|p|] == p;
  }

  /** One add to an empty history gives a one-node list, head and tail at once. */
  lemma ScenarioFirstLink(a: seq<Byte>)
    requires a != []
    ensures AddAll([a], TEST_MAX_HISTORY) == [Stored(a, |a|)]
  {
    AddAllKeepsNewest([a], TEST_MAX_HISTORY);
    StoredAllAt([a], 0);
  }

  /**
   * A second add gives two nodes, the first followed by the second, each holding
   * the bytes added, a NUL after them (StoredWhole), and their length.
   */
  lemma ScenarioLinking(a: seq<Byte>, b: seq<Byte>)
    requires a != [] && b != []
    ensures AddAll([a, b], TEST_MAX_HISTORY) == [Stored(a, |a|), Stored(b, |b|)]
  {
    var ms := [a, b];
    AddAllKeepsNewest(ms, TEST_MAX_HISTORY);
    StoredAllAt(ms, 0);
    StoredAllAt(ms, 1);
  }
}
