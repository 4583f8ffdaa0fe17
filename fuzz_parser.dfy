/**
 * `fuzz_message_parse_from_string` of tests/fuzz/fuzz_message_parser.c: a lenient
 * reader of `{"key":value,...}` text. The input is cut into tokens at any of
 * `:{},"`; a recognised key takes the token after it as its value.
 */
module FuzzParser {
  import opened Wrappers
  import opened Tokenizer
  import opened Decimal
  import opened CStrings

  /** The delimiters handed to `strtok_r`. */
  const DELIMS: set<char> := {':', '{', '}', ',', '"'}

  /** The size of the working buffer; longer input is refused. */
  const BUFFER_SIZE: nat := 2048

  /** The loop stops once this many fields were stored. */
  const MAX_FIELDS: nat := 8

  /** The sizes of the text arrays of `FuzzMessage`. */
  const USERNAME_SIZE: nat := 64
  const CONTENT_SIZE: nat := 1024
  const METADATA_SIZE: nat := 256

  /** A `FuzzMessage`; `kind` is the `FuzzMessageType` value. */
  datatype FuzzMessage = FuzzMessage(timestamp: nat, kind: int, username: string, content: string, metadata: string)

  /** The message as `memset` leaves it. */
  const Zeroed: FuzzMessage := FuzzMessage(0, 0, "", "", "")

  /** Every field within its C type: a 64-bit timestamp, a type 0..4, NUL-terminated arrays. */
  predicate InRange(m: FuzzMessage)
  {
    && m.timestamp <= U64_MAX
    && 0 <= m.kind <= 4
    && |m.username| < USERNAME_SIZE
    && |m.content| < CONTENT_SIZE
    && |m.metadata| < METADATA_SIZE
  }

  /** The message being filled and the loop's `field_count`. */
  datatype Progress = Progress(message: FuzzMessage, fields: nat)

  /** The keys the loop recognises. */
  predicate IsKey(t: string)
  {
    t == "timestamp" || t == "type" || t == "username" || t == "content" || t == "metadata"
  }

  /**
   * Store `value` under `key`. A `type` outside 0..4 is dropped without being
   * counted; every other key counts one field.
   */
  function Assign(p: Progress, key: string, value: string): (r: Progress)
    requires IsKey(key)
    ensures InRange(p.message) ==> InRange(r.message)
    ensures r.fields == p.fields || r.fields == p.fields + 1
  {
    var m := p.message;
    if key == "timestamp" then Progress(m.(timestamp := Strtoull(value)), p.fields + 1)
    else if key == "type" then
      var v := Atoi(value);
      if 0 <= v <= 4 then Progress(m.(kind := v), p.fields + 1) else p
    else if key == "username" then Progress(m.(username := Truncate(value, USERNAME_SIZE - 1)), p.fields + 1)
    else if key == "content" then Progress(m.(content := Truncate(value, CONTENT_SIZE - 1)), p.fields + 1)
    else Progress(m.(metadata := Truncate(value, METADATA_SIZE - 1)), p.fields + 1)
  }

  /**
   * The loop over the remaining tokens `toks`: a key consumes the token after it,
   * anything else is skipped, and nothing is read once `MAX_FIELDS` are stored.
   */
  function Run(toks: seq<string>, p: Progress): (r: Progress)
    ensures InRange(p.message) ==> InRange(r.message)
    ensures p.fields <= r.fields
    ensures p.fields <= MAX_FIELDS ==> r.fields <= MAX_FIELDS
    decreases |toks|
  {
    if toks == [] || p.fields >= MAX_FIELDS then p
    else if IsKey(toks[0]) && |toks| > 1 then Run(toks[2..], Assign(p, toks[0], toks[1]))
    else Run(toks[1..], p)
  }

  /** The return value and the message afterwards (None for a NULL message pointer). */
  datatype FuzzResult = FuzzResult(ok: bool, message: Option<FuzzMessage>)

  /**
   * What the parser returns: 0, with the message untouched, for a NULL argument
   * or input of `BUFFER_SIZE` characters or more; otherwise the zeroed message
   * filled from the tokens, and success exactly when both the user name and the
   * content are non-empty.
   */
  function FuzzSpec(input: Option<string>, dest: Option<FuzzMessage>): (r: FuzzResult)
    ensures input.None? || dest.None? || |input.value| >= BUFFER_SIZE ==> r == FuzzResult(false, dest)
    ensures r.message.None? <==> dest.None?
    ensures input.Some? && dest.Some? && |input.value| < BUFFER_SIZE ==>
      && InRange(r.message.value)
      && (r.ok <==> r.message.value.username != [] && r.message.value.content != [])
  {
    if input.None? || dest.None? || |input.value| >= BUFFER_SIZE then FuzzResult(false, dest)
    else
      var m := Run(Tokens(input.value, DELIMS), Progress(Zeroed, 0)).message;
      FuzzResult(m.username != [] && m.content != [], Some(m))
  }

  /** `fuzz_message_parse_from_string`, with its `strtok_r` loop over the tokens. */
  method FuzzParse(input: Option<string>, dest: Option<FuzzMessage>) returns (ok: bool, message: Option<FuzzMessage>)
    ensures FuzzResult(ok, message) == FuzzSpec(input, dest)
  {
    if input.None? || dest.None? || |input.value| >= BUFFER_SIZE {
      return false, dest;
    }
    var toks := Tokens(input.value, DELIMS);
    var p := Progress(Zeroed, 0);
    var pos := 0;
    while pos < |toks| && p.fields < MAX_FIELDS
      invariant pos <= |toks|
      invariant Run(toks[pos..], p) == Run(toks, Progress(Zeroed, 0))
      decreases |toks| - pos
    {
      var token := toks[pos];
      if IsKey(token) && pos + 1 < |toks| {
        assert toks[pos..][2..] == toks[pos + 2..];
        p := Assign(p, token, toks[pos + 1]);
        pos := pos + 2;
      } else {
        assert toks[pos..][1..] == toks[pos + 1..];
        pos := pos + 1;
      }
    }
    var m := p.message;
    return m.username != [] && m.content != [], Some(m);
  }

  /**
   * Whatever the input, a message the parser filled has every field in range: the
   * type is 0..4 and each text is shorter than its array.
   */
  lemma FilledMessageInRange(input: string, dest: FuzzMessage)
    requires |input| < BUFFER_SIZE
    ensures var r := FuzzSpec(Some(input), Some(dest));
      InRange(r.message.value) && Run(Tokens(input, DELIMS), Progress(Zeroed, 0)).fields <= MAX_FIELDS
  {
  }

  /**
   * `username:<u>:content:<c>` (any delimiters would do in place of ':') parses to
   * the zeroed message with that user name and content, and succeeds.
   */
  lemma ParseOfUserAndContent(u: string, c: string, dest: FuzzMessage)
    requires u != [] && NoneOf(u, DELIMS) && |u| < USERNAME_SIZE
    requires c != [] && NoneOf(c, DELIMS) && |c| < CONTENT_SIZE
    ensures FuzzSpec(Some(Join(["username", u, "content", c], ':')), Some(dest))
         == FuzzResult(true, Some(Zeroed.(username := u, content := c)))
  {
    var parts := ["username", u, "content", c];
    var input := Join(parts, ':');
    assert parts[1..][1..] == parts[2..] && parts[2..][1..] == parts[3..] && parts[3..] == [c];
    assert Join(parts[2..], ':') == "content" + [':'] + c;
    assert Join(parts[1..], ':') == u + [':'] + Join(parts[2..], ':');
    assert input == "username" + [':'] + Join(parts[1..], ':');
    assert |input| == 8 + 1 + |u| + 1 + 7 + 1 + |c|;
    TokensOfJoin(parts, ':', DELIMS);
    var p0 := Progress(Zeroed, 0);
    var p1 := Assign(p0, "username", u);
    var p2 := Assign(p1, "content", c);
    assert p1 == Progress(Zeroed.(username := u), 1);
    assert p2 == Progress(Zeroed.(username := u, content := c), 2);
    assert parts[2..][2..] == [];
    assert Run(parts[2..], p1) == Run([], p2) == p2;
    assert Run(parts, p0) == Run(parts[2..], p1);
  }

  /** A `type` outside 0..4 is ignored: the zeroed type stays and is not counted. */
  lemma OutOfRangeTypeIgnored(value: string, rest: seq<string>, p: Progress)
    requires p.fields < MAX_FIELDS && !(0 <= Atoi(value) <= 4)
    ensures Run(["type", value] + rest, p) == Run(rest, p)
  {
    assert (["type", value] + rest)[2..] == rest;
  }

  /** Once eight fields are stored, no further token is looked at. */
  lemma StopsAfterEightFields(toks: seq<string>, p: Progress)
    requires p.fields >= MAX_FIELDS
    ensures Run(toks, p) == p
  {
  }
}
