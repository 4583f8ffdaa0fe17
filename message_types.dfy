/**
 * frontend/network/message_types.c: the `TYPE|TIMESTAMP|USERNAME|CONTENT|METADATA`
 * text form of a chat message, and the bounded list of received messages.
 */
module MessageTypes {
  import opened Wrappers
  import opened BoundedFifo
  import opened Tokenizer
  import opened Decimal
  import opened CStrings

  const MAX_MESSAGE_LENGTH: nat := 512
  const MAX_USERNAME_LENGTH: nat := 64
  const MAX_METADATA_LENGTH: nat := 128

  /** The list bound `message_list_create` falls back to. */
  const DEFAULT_MAX_MESSAGES: nat := 100

  /** The one delimiter of the text form. */
  const PIPE: set<char> := {'|'}

  /** `MessageType`; `kind` holds whatever `atoi` produced, so it may lie outside 0..5. */
  const MSG_TYPE_CHAT: int := 0
  const MSG_TYPE_HISTORY_RESPONSE: int := 5

  /** A `Message`; each text field is the C string its array holds. */
  datatype Message = Message(kind: int, timestamp: nat, username: string, content: string, metadata: string)

  /** The field values fit their C types: a 64-bit timestamp and NUL-terminated arrays. */
  predicate Fits(m: Message)
  {
    && m.timestamp <= U64_MAX
    && |m.username| < MAX_USERNAME_LENGTH
    && |m.content| < MAX_MESSAGE_LENGTH
    && |m.metadata| < MAX_METADATA_LENGTH
  }

  /**
   * The message after the tokens `toks` were stored into `prior`: token 0 is the
   * type, 1 the timestamp, 2..4 the text fields (truncated to fit); fields with no
   * token keep the value they had, and tokens after the fifth are not looked at.
   */
  function Fill(prior: Message, toks: seq<string>): (m: Message)
    ensures Fits(prior) ==> Fits(m)
  {
    Message(
      if |toks| > 0 then Atoi(toks[0]) else prior.kind,
      if |toks| > 1 then Strtoull(toks[1]) else prior.timestamp,
      if |toks| > 2 then Truncate(toks[2], MAX_USERNAME_LENGTH - 1) else prior.username,
      if |toks| > 3 then Truncate(toks[3], MAX_MESSAGE_LENGTH - 1) else prior.content,
      if |toks| > 4 then Truncate(toks[4], MAX_METADATA_LENGTH - 1) else prior.metadata)
  }

  /** Whether parsing succeeded, and the message struct afterwards (None for NULL). */
  datatype Parsed = Parsed(ok: bool, message: Option<Message>)

  /** What `message_parse_from_string` returns and leaves in `*message`. */
  function ParseSpec(raw: Option<string>, dest: Option<Message>): (r: Parsed)
    ensures raw.None? || dest.None? ==> r == Parsed(false, dest)
    ensures r.message.None? <==> dest.None?
    ensures raw.Some? && dest.Some? ==> (r.ok <==> |Tokens(raw.value, PIPE)| >= 4)
    ensures dest.Some? && Fits(dest.value) ==> Fits(r.message.value)
  {
    if raw.None? || dest.None? then Parsed(false, dest)
    else
      var toks := Tokens(raw.value, PIPE);
      Parsed(|toks| >= 4, Some(Fill(dest.value, toks)))
  }

  /** `message_parse_from_string`: the `strtok_r` loop over at most five fields. */
  method Parse(raw: Option<string>, dest: Option<Message>) returns (ok: bool, message: Option<Message>)
    ensures Parsed(ok, message) == ParseSpec(raw, dest)
  {
    if raw.None? || dest.None? {
      return false, dest;
    }
    var toks := Tokens(raw.value, PIPE);
    var m := dest.value;
    var field := 0;
    while field < |toks| && field < 5
      invariant field <= |toks| && field <= 5
      invariant m == Fill(dest.value, toks[..field])
    {
      var token := toks[field];
      if field == 0 {
        m := m.(kind := Atoi(token));
      } else if field == 1 {
        m := m.(timestamp := Strtoull(token));
      } else if field == 2 {
        m := m.(username := Truncate(token, MAX_USERNAME_LENGTH - 1));
      } else if field == 3 {
        m := m.(content := Truncate(token, MAX_MESSAGE_LENGTH - 1));
      } else {
        m := m.(metadata := Truncate(token, MAX_METADATA_LENGTH - 1));
      }
      field := field + 1;
    }
    assert field == 5 ==> Fill(dest.value, toks[..field]) == Fill(dest.value, toks);
    assert field < 5 ==> toks[..field] == toks;
    return field >= 4, Some(m);
  }

  /** Only the first five tokens matter: anything after the metadata field is ignored. */
  lemma ExtraFieldsIgnored(prior: Message, toks: seq<string>, more: seq<string>)
    requires |toks| == 5
    ensures Fill(prior, toks + more) == Fill(prior, toks)
  {
    assert (toks + more)[..5] == toks;
  }

  /** An empty field between two `|` is skipped, so later fields move up one place. */
  lemma EmptyFieldSkipped(a: string, b: string, dest: Option<Message>)
    ensures ParseSpec(Some(a + "||" + b), dest) == ParseSpec(Some(a + "|" + b), dest)
  {
    assert a + "||" + b == a + ['|', '|'] + b;
    assert a + "|" + b == a + ['|'] + b;
    TokensDropEmptyField(a, b, '|', PIPE);
  }

  /** The text `%d|%llu|%s|%s|%s` formats for `m`. */
  function Format(m: Message): string
  {
    IntToString(m.kind) + ("|" + (NatToString(m.timestamp) + ("|" + (m.username + ("|" + (m.content + ("|" + m.metadata)))))))
  }

  /** What `snprintf` returns, and the C string left in the buffer (None when untouched). */
  datatype Serialized = Serialized(ret: int, buffer: Option<string>)

  /**
   * `message_serialize_to_string`: -1 for a NULL argument; otherwise the length of
   * the whole text, of which at most `size - 1` characters are written and
   * terminated. A size of 0 writes nothing; a negative size converts to a huge
   * `size_t` and the whole text is written.
   */
  function Serialize(m: Option<Message>, bufferPresent: bool, size: int): (r: Serialized)
    ensures m.None? || !bufferPresent ==> r == Serialized(-1, None)
    ensures m.Some? && bufferPresent ==> r.ret == |Format(m.value)|
    ensures r.buffer.Some? ==> m.Some? && r.buffer.value <= Format(m.value)
    ensures r.buffer.Some? && size > 0 ==> |r.buffer.value| < size
    ensures m.Some? && bufferPresent && (size > |Format(m.value)| || size < 0) ==> r.buffer == Some(Format(m.value))
    ensures m.Some? && bufferPresent && 0 < size <= |Format(m.value)| ==> r.buffer == Some(Format(m.value)[..size - 1])
    ensures size == 0 ==> r.buffer == None
  {
    if m.None? || !bufferPresent then Serialized(-1, None)
    else
      var text := Format(m.value);
      if size == 0 then Serialized(|text|, None)
      else if size < 0 then Serialized(|text|, Some(text))
      else Serialized(|text|, Some(Truncate(text, size - 1)))
  }

  /** The tokens of a formatted message are its five fields, minus an empty metadata. */
  lemma TokensOfFormat(m: Message)
    requires m.username != [] && m.content != []
    requires NoneOf(m.username, PIPE) && NoneOf(m.content, PIPE) && NoneOf(m.metadata, PIPE)
    ensures Tokens(Format(m), PIPE) ==
      [IntToString(m.kind), NatToString(m.timestamp), m.username, m.content]
        + (if m.metadata == [] then [] else [m.metadata])
  {
    NumbersHaveNoPipe(m.kind, m.timestamp);
    TokensOfFields(IntToString(m.kind), NatToString(m.timestamp), m.username, m.content, m.metadata);
  }

  lemma NumbersHaveNoPipe(i: int, n: nat)
    ensures IntToString(i) != [] && NoneOf(IntToString(i), PIPE)
    ensures NatToString(n) != [] && NoneOf(NatToString(n), PIPE)
  {
    if i < 0 {
      var d := NatToString(-i);
      assert IntToString(i) == "-" + d;
      assert forall j :: 1 <= j < |IntToString(i)| ==> IntToString(i)[j] == d[j - 1];
    }
  }

  lemma TokensOfFields(k: string, t: string, u: string, c: string, md: string)
    requires k != [] && t != [] && u != [] && c != []
    requires NoneOf(k, PIPE) && NoneOf(t, PIPE) && NoneOf(u, PIPE) && NoneOf(c, PIPE) && NoneOf(md, PIPE)
    ensures Tokens(k + ("|" + (t + ("|" + (u + ("|" + (c + ("|" + md))))))), PIPE) ==
      [k, t, u, c] + (if md == [] then [] else [md])
  {
    var r3 := c + ("|" + md);
    var r2 := u + ("|" + r3);
    var r1 := t + ("|" + r2);
    LastTwoFields(c, md);
    FieldThenRest(u, r3);
    FieldThenRest(t, r2);
    FieldThenRest(k, r1);
  }

  lemma LastTwoFields(c: string, md: string)
    requires c != [] && NoneOf(c, PIPE) && NoneOf(md, PIPE)
    ensures Tokens(c + ("|" + md), PIPE) == [c] + (if md == [] then [] else [md])
  {
    FieldThenRest(c, md);
    if md != [] {
      TokensField(md, [], PIPE);
      assert md + [] == md;
    }
  }

  /** A non-empty field without `|`, then `|`, tokenises as that field followed by the rest. */
  lemma FieldThenRest(p: string, rest: string)
    requires p != [] && NoneOf(p, PIPE)
    ensures Tokens(p + ("|" + rest), PIPE) == [p] + Tokens(rest, PIPE)
  {
    TokensField(p, "|" + rest, PIPE);
    TokensSkipDelimiter('|', rest, PIPE);
  }

  /**
   * Serialising into a buffer that holds the whole text and parsing it back gives
   * the type, timestamp, username and content again (and the metadata when it is
   * not empty), provided the text fields are non-empty, contain no `|` and fit.
   */
  lemma SerializeThenParse(m: Message, prior: Message, size: int)
    requires Fits(m) && m.username != [] && m.content != []
    requires NoneOf(m.username, PIPE) && NoneOf(m.content, PIPE) && NoneOf(m.metadata, PIPE)
    requires size > |Format(m)| || size < 0
    ensures ParseSpec(Serialize(Some(m), true, size).buffer, Some(prior))
      == Parsed(true, Some(m.(metadata := if m.metadata == [] then prior.metadata else m.metadata)))
  {
    TokensOfFormat(m);
    StrtoullOfNatToString(m.timestamp);
    AtoiOfIntToString(m.kind);
  }

  /** A `MessageList`: `items` are the nodes from head to tail. */
  class MessageList {
    var items: seq<Message>
    var count: int
    var maxMessages: int

    ghost predicate Valid()
      reads this
    {
      count == |items| && 0 < maxMessages && count <= maxMessages
    }

    constructor (maxMessages: int)
      ensures Valid() && items == []
      ensures this.maxMessages == if maxMessages > 0 then maxMessages else DEFAULT_MAX_MESSAGES
    {
      items, count := [], 0;
      this.maxMessages := if maxMessages > 0 then maxMessages else DEFAULT_MAX_MESSAGES;
    }
  }

  /** `message_list_create`: NULL when the allocation fails. */
  method Create(maxMessages: int, allocOk: bool) returns (list: MessageList?)
    ensures allocOk <==> list != null
    ensures list != null ==> fresh(list) && list.Valid() && list.items == []
    ensures list != null ==> list.maxMessages == if maxMessages > 0 then maxMessages else DEFAULT_MAX_MESSAGES
  {
    if !allocOk {
      return null;
    }
    list := new MessageList(maxMessages);
  }

  /**
   * `message_list_add`: append a copy at the tail and evict from the head while
   * the count exceeds the bound; false, with nothing changed, for a NULL argument
   * or a failed allocation.
   */
  method Add(list: MessageList?, message: Option<Message>, allocOk: bool) returns (ok: bool)
    requires list != null ==> list.Valid()
    modifies list
    ensures ok <==> list != null && message.Some? && allocOk
    ensures list != null ==> list.Valid() && list.maxMessages == old(list.maxMessages)
    ensures list != null ==> list.items == if ok then Push(old(list.items), message.value, list.maxMessages) else old(list.items)
  {
    if list == null || message.None? || !allocOk {
      return false;
    }
    ghost var all := list.items + [message.value];
    list.items := list.items + [message.value];
    list.count := list.count + 1;
    while list.count > list.maxMessages && list.items != []
      invariant list.count == |list.items| <= |all|
      invariant list.items == all[|all| - |list.items|..]
      invariant list.items == all || list.count >= list.maxMessages
      invariant list.maxMessages == old(list.maxMessages) && list.maxMessages > 0
      decreases list.count
    {
      list.items := list.items[1..];
      list.count := list.count - 1;
    }
    return true;
  }

  /** `message_list_clear`: unlink every node from the head; a NULL list is left alone. */
  method Clear(list: MessageList?)
    requires list != null ==> list.Valid()
    modifies list
    ensures list != null ==> list.Valid() && list.items == [] && list.maxMessages == old(list.maxMessages)
  {
    if list == null {
      return;
    }
    ghost var all := list.items;
    while list.items != []
      invariant list.maxMessages == old(list.maxMessages)
      invariant |list.items| <= |all| && list.items == all[|all| - |list.items|..]
      decreases |list.items|
    {
      list.items := list.items[1..];
    }
    list.count := 0;
  }

  /** `message_list_destroy`: clear, then release the list itself. */
  method Destroy(list: MessageList?)
    requires list != null ==> list.Valid()
    modifies list
    ensures list != null ==> list.items == []
  {
    Clear(list);
  }

  /**
   * `message_list_get_latest`: the nodes reachable from the node returned. This is
   * the whole list from its OLDEST message whatever `count` is, and None (NULL)
   * for a NULL or empty list or a `count` that is not positive.
   */
  method GetLatest(list: MessageList?, count: int) returns (r: Option<seq<Message>>)
    requires list != null ==> list.Valid()
    ensures r.None? <==> list == null || count <= 0 || list.items == []
    ensures r.Some? ==> r.value == list.items
  {
    if list == null || count <= 0 || list.items == [] {
      return None;
    }
    return Some(list.items);
  }
}
