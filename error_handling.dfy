/**
 * The defensive helpers of tests/edge_cases/test_error_handling.c: bounded string
 * copy and append into caller buffers, a checked message constructor, a registry
 * of freed pointers guarding against double frees, and input validators.
 */
module ErrorHandling {
  import opened Wrappers
  import opened CStrings
  import opened Decimal

  const MAX_FREED_PTRS: nat := 100
  const MAX_MESSAGE_LENGTH: nat := 1024
  const MAX_USERNAME_LENGTH: nat := 64
  const MESSAGE_MAGIC: nat := 0xDEAD_BEEF_CAFE_BABE
  const MOCK_TIMESTAMP: nat := 1234567890

  // ---------------------------------------------------------------- copy / append

  /**
   * The first `size` characters of the buffer after `safe_string_copy` with a
   * `size` of at least 1: `strncpy` puts the first `size - 1` characters of `src`
   * there and pads with NUL, and the last one is set to NUL.
   */
  function Copied(src: string, size: nat): (r: seq<char>)
    requires size >= 1
    ensures |r| == size && r[size - 1] == NUL
  {
    var t := Truncate(src, size - 1);
    t + seq(size - |t|, _ => NUL)
  }

  /**
   * `safe_string_copy`: -1 for a NULL argument or a size of 0; otherwise the buffer
   * holds the longest prefix of `src` that fits beside the NUL, padded with NULs,
   * and the result is that prefix's length.
   */
  method SafeStringCopy(dest: array?<char>, src: Option<string>, destSize: nat) returns (r: int)
    requires dest != null ==> destSize <= dest.Length
    requires src.Some? ==> CText(src.value)
    modifies dest
    ensures dest == null || src.None? || destSize == 0 <==> r == -1
    ensures r == -1 ==> dest == null || unchanged(dest)
    ensures r >= 0 ==> var t := Truncate(src.value, destSize - 1);
      && r == |t| && dest[..destSize] == Copied(src.value, destSize)
      && dest[..r] == t && NUL !in t && CLength(dest[..]) == r
      && dest[destSize..] == old(dest[destSize..])
  {
    if dest == null || src.None? || destSize == 0 {
      return -1;
    }
    var s := src.value;
    if destSize == 1 {
      dest[0] := NUL;
      assert dest[..1] == Copied(s, 1);
      assert dest[..1][0] == NUL;
      assert CLength(dest[..]) == 0;
      return 0;
    }
    var i := 0;
    while i < destSize - 1
      invariant 0 <= i <= destSize - 1
      invariant forall k :: 0 <= k < i ==> dest[k] == if k < |s| then s[k] else NUL
      invariant forall k :: i <= k < dest.Length ==> dest[k] == old(dest[k])
    {
      dest[i] := if i < |s| then s[i] else NUL;
      i := i + 1;
    }
    dest[destSize - 1] := NUL;
    var t := Truncate(s, destSize - 1);
    assert dest[..destSize] == Copied(s, destSize);
    assert dest[..|t|] == t;
    CLengthAt(dest[..], |t|);
    r := |t|;
  }

  /**
   * `safe_string_append`: -1 for a NULL argument, a size of 0 or a string already
   * as long as the size; 0, with the buffer unchanged, when only the NUL fits;
   * otherwise as much of `src` as fits is appended, NUL-terminated, and the result
   * is the new length.
   */
  method SafeStringAppend(dest: array?<char>, src: Option<string>, destSize: nat) returns (r: int)
    requires dest != null ==> destSize <= dest.Length && NUL in dest[..]
    requires src.Some? ==> CText(src.value)
    modifies dest
    ensures r == -1 <==> dest == null || src.None? || destSize == 0 || CLength(old(dest[..])) >= destSize
    ensures r == -1 ==> dest == null || unchanged(dest)
    ensures r != -1 && CLength(old(dest[..])) == destSize - 1 ==> r == 0 && unchanged(dest)
    ensures r != -1 && CLength(old(dest[..])) < destSize - 1 ==> var n := CLength(old(dest[..]));
      var t := Truncate(src.value, destSize - n - 1);
      && r == n + |t| && dest[..n] == old(dest[..n]) && dest[n..r] == t && dest[r] == NUL
      && CLength(dest[..]) == r && r < destSize
      && dest[r + 1..] == old(dest[r + 1..])
  {
    if dest == null || src.None? || destSize == 0 {
      return -1;
    }
    var s := src.value;
    var n := StrLen(dest);
    if n >= destSize {
      return -1;
    }
    var available := destSize - n - 1;
    if available == 0 {
      return 0;
    }
    var t := Truncate(s, available);
    WriteAt(dest, n, t);
    r := n + |t|;
    ghost var written := dest[..];
    dest[r] := NUL;
    assert dest[..r] == written[..r] && dest[r + 1..] == written[r + 1..];
    assert NUL !in dest[..r] by {
      assert dest[..r] == old(dest[..n]) + t;
      assert NUL !in old(dest[..n]);
    }
    CLengthAt(dest[..], r);
  }

  /** Copies `t` into `dest` from index `n` on, leaving the rest of `dest` alone. */
  method WriteAt(dest: array<char>, n: nat, t: string)
    requires n + |t| <= dest.Length
    modifies dest
    ensures dest[..n] == old(dest[..n]) && dest[n..n + |t|] == t
    ensures dest[n + |t|..] == old(dest[n + |t|..])
  {
    var i := 0;
    while i < |t|
      invariant 0 <= i <= |t|
      invariant dest[..n] == old(dest[..n]) && dest[n..n + i] == t[..i]
      invariant forall k :: n + i <= k < dest.Length ==> dest[k] == old(dest[k])
    {
      dest[n + i] := t[i];
      i := i + 1;
    }
  }

  // ---------------------------------------------------------------- messages

  /** The `Message` of this file; `kind` is the enumeration value as given. */
  datatype CheckedMessage = CheckedMessage(magic: nat, timestamp: nat, kind: int,
                                           username: string, content: string, metadata: string)

  /**
   * `safe_message_create`: NULL for a NULL argument, a username of 64 or more
   * characters, content of 1024 or more characters or a failed allocation;
   * otherwise a message holding both strings whole, the magic number, the type
   * and the mock timestamp.
   */
  function SafeMessageCreate(username: Option<string>, content: Option<string>, kind: int, allocOk: bool): (r: Option<CheckedMessage>)
    ensures r.Some? <==> username.Some? && content.Some? && allocOk
                         && |username.value| < MAX_USERNAME_LENGTH && |content.value| < MAX_MESSAGE_LENGTH
    ensures r.Some? ==> r.value == CheckedMessage(MESSAGE_MAGIC, MOCK_TIMESTAMP, kind, username.value, content.value, "")
  {
    if username.None? || content.None? then None
    else if |username.value| >= MAX_USERNAME_LENGTH || |content.value| >= MAX_MESSAGE_LENGTH then None
    else if !allocOk then None
    else
      Some(CheckedMessage(MESSAGE_MAGIC, MOCK_TIMESTAMP, kind,
                          Truncate(username.value, MAX_USERNAME_LENGTH - 1),
                          Truncate(content.value, MAX_MESSAGE_LENGTH - 1), ""))
  }

  // ---------------------------------------------------------------- freed registry

  /** A message's address; the registry compares addresses only. */
  type Ptr = nat

  /** What one `safe_message_destroy` leaves: the registry and whether `free` ran. */
  datatype Destroyed = Destroyed(freed: seq<Ptr>, released: bool)

  /**
   * `safe_message_destroy` on a registry: a NULL pointer or one already recorded
   * is ignored; any other is recorded while the registry has room, then freed.
   */
  function Destroy(freed: seq<Ptr>, msg: Option<Ptr>): (r: Destroyed)
    ensures r.released <==> msg.Some? && msg.value !in freed
    ensures r.released && |freed| < MAX_FREED_PTRS ==> r.freed == freed + [msg.value]
    ensures !r.released || |freed| >= MAX_FREED_PTRS ==> r.freed == freed
  {
    if msg.None? || msg.value in freed then Destroyed(freed, false)
    else if |freed| < MAX_FREED_PTRS then Destroyed(freed + [msg.value], true)
    else Destroyed(freed, true)
  }

  /** While the registry has room, destroying the same message twice frees it once. */
  lemma DestroyTwiceFreesOnce(freed: seq<Ptr>, p: Ptr)
    requires |freed| < MAX_FREED_PTRS
    ensures var first := Destroy(freed, Some(p));
      var second := Destroy(first.freed, Some(p));
      !(first.released && second.released) && second.freed == first.freed
  {
  }

  /** Once the registry holds 100 pointers, a new message destroyed twice is freed twice. */
  lemma {:induction false} FullRegistryFreesTwice(freed: seq<Ptr>, p: Ptr)
    requires |freed| == MAX_FREED_PTRS && p !in freed
    ensures var first := Destroy(freed, Some(p));
      var second := Destroy(first.freed, Some(p));
      first.released && second.released
  {
    var first := Destroy(freed, Some(p));
    assert first.freed == freed;
  }

  /** The registry never holds more than `MAX_FREED_PTRS` entries. */
  lemma DestroyBounded(freed: seq<Ptr>, msg: Option<Ptr>)
    requires |freed| <= MAX_FREED_PTRS
    ensures |Destroy(freed, msg).freed| <= MAX_FREED_PTRS
  {
  }

  /** The registry `freed_ptrs`/`freed_count`. */
  class Registry {
    var freed: seq<Ptr>

    ghost predicate Valid()
      reads this
    {
      |freed| <= MAX_FREED_PTRS
    }

    /** The registry as `setUp` leaves it. */
    constructor ()
      ensures Valid() && freed == []
    {
      freed := [];
    }

    /** `is_already_freed`: a linear search of the recorded pointers. */
    method IsAlreadyFreed(p: Ptr) returns (found: bool)
      ensures found <==> p in freed
    {
      var i := 0;
      while i < |freed|
        invariant 0 <= i <= |freed|
        invariant p !in freed[..i]
      {
        if freed[i] == p {
          return true;
        }
        i := i + 1;
      }
      assert freed[..i] == freed;
      return false;
    }

    /** `mark_as_freed`: recorded only while there is room. */
    method MarkAsFreed(p: Ptr)
      modifies this
      ensures freed == if |old(freed)| < MAX_FREED_PTRS then old(freed) + [p] else old(freed)
    {
      if |freed| < MAX_FREED_PTRS {
        freed := freed + [p];
      }
    }

    /** `safe_message_destroy`; `released` says whether `free` was called. */
    method SafeMessageDestroy(msg: Option<Ptr>) returns (released: bool)
      requires Valid()
      modifies this
      ensures Valid() && Destroyed(freed, released) == Destroy(old(freed), msg)
    {
      if msg.None? {
        return false;
      }
      var already := IsAlreadyFreed(msg.value);
      if already {
        return false;
      }
      MarkAsFreed(msg.value);
      return true;
    }
  }

  // ---------------------------------------------------------------- validators

  /** `validate_message_type`: the five declared message types. */
  function ValidateMessageType(kind: int): (ok: bool)
    ensures ok <==> 0 <= kind <= 4
  {
    match kind
    case 0 => true
    case 1 => true
    case 2 => true
    case 3 => true
    case 4 => true
    case _ => false
  }

  /** The characters a user name may hold. */
  predicate NameChar(c: char)
  {
    ('a' <= c <= 'z') || ('A' <= c <= 'Z') || ('0' <= c <= '9') || c == '_' || c == '-'
  }

  /** A valid user name: 1 to 63 name characters. */
  predicate ValidUsername(u: string)
  {
    0 < |u| < MAX_USERNAME_LENGTH && forall i :: 0 <= i < |u| ==> NameChar(u[i])
  }

  /** `validate_username`: length checked first, then every character. */
  method ValidateUsername(username: Option<string>) returns (ok: bool)
    ensures ok <==> username.Some? && ValidUsername(username.value)
  {
    if username.None? {
      return false;
    }
    var u := username.value;
    if |u| == 0 || |u| >= MAX_USERNAME_LENGTH {
      return false;
    }
    var i := 0;
    while i < |u|
      invariant 0 <= i <= |u|
      invariant forall k :: 0 <= k < i ==> NameChar(u[k])
    {
      if !NameChar(u[i]) {
        return false;
      }
      i := i + 1;
    }
    return true;
  }

  /** A whole-string decimal integer: an optional sign, then one or more digits. */
  predicate IntegerText(s: string)
  {
    var u := Unsigned(s);
    u != [] && AllDigits(u)
  }

  /** `s` without its sign character, if it has one. */
  function Unsigned(s: string): (u: string)
    ensures |u| <= |s| && u == s[|s| - |u|..]
  {
    if s != [] && (s[0] == '-' || s[0] == '+') then s[1..] else s
  }

  /** The value of an integer text. */
  function IntegerValue(s: string): int
    requires IntegerText(s)
  {
    if s[0] == '-' then -(Value(Unsigned(s)) as int) else Value(Unsigned(s))
  }

  /**
   * `safe_parse_integer`: None (the result left unwritten) for a NULL argument,
   * leading white space, no digits, anything after the digits, or a value outside
   * `int`. With a 64-bit `long`, `strtol` saturating at the bounds of `long`
   * changes nothing here: every saturated value is outside `int` as well.
   */
  function SafeParseInteger(str: Option<string>, resultPresent: bool): (r: Option<int>)
    ensures r.Some? <==> str.Some? && resultPresent && IntegerText(str.value)
                         && INT_MIN <= IntegerValue(str.value) <= INT_MAX
    ensures r.Some? ==> r.value == IntegerValue(str.value)
  {
    if str.None? || !resultPresent then None
    else
      var s := str.value;
      if s != [] && IsSpace(s[0]) then None
      else
        var scan := ScanNumber(s);
        ScanWholeInteger(s);
        if scan.end == 0 || scan.end != |s| then None
        else
          var v := if scan.negative then -(scan.magnitude as int) else scan.magnitude as int;
          if v > INT_MAX || v < INT_MIN then None else Some(v)
  }

  /** Without leading white space, the scan reads the whole string exactly when it is an integer text. */
  lemma ScanWholeInteger(s: string)
    requires s == [] || !IsSpace(s[0])
    ensures var scan := ScanNumber(s);
      (scan.end != 0 && scan.end == |s|) <==> IntegerText(s)
    ensures IntegerText(s) ==> var scan := ScanNumber(s);
      IntegerValue(s) == if scan.negative then -(scan.magnitude as int) else scan.magnitude as int
  {
    if s != [] {
      assert SpaceRun(s) == 0;
      assert s[0..] == s;
      var u := Unsigned(s);
      var k := DigitRun(u);
      if k == |u| && k > 0 {
        assert u[..k] == u;
      }
      if IntegerText(s) {
        DigitRunAll(u);
        assert u[..|u|] == u;
      }
    }
  }

  /** Printing an `int` with `%d` and parsing it back gives it back. */
  lemma ParseOfIntToString(i: int)
    requires INT_MIN <= i <= INT_MAX
    ensures SafeParseInteger(Some(IntToString(i)), true) == Some(i)
  {
    IntToStringIsIntegerText(i);
  }

  /** `%d` prints an integer text whose value is the number printed. */
  lemma IntToStringIsIntegerText(i: int)
    ensures IntegerText(IntToString(i)) && IntegerValue(IntToString(i)) == i
  {
    var s := IntToString(i);
    var n: nat := if i < 0 then -i else i;
    var d := NatToString(n);
    ValueOfNatToString(n);
    if i < 0 {
      assert s == "-" + d && s[1..] == d;
    } else {
      assert s == d && IsDigit(s[0]);
    }
    assert Unsigned(s) == d;
  }

  /** `network_error_to_string`. */
  function NetworkErrorToString(error: int): (r: string)
    ensures (0 <= error <= 5) <==> r != "Unknown error"
    ensures error == 0 <==> r == "No error"
  {
    match error
    case 0 => "No error"
    case 1 => "Connection lost"
    case 2 => "Timeout"
    case 3 => "Malformed data"
    case 4 => "Buffer overflow"
    case 5 => "Authentication failed"
    case _ => "Unknown error"
  }

  /** Each of the six codes has its own message. */
  lemma NetworkErrorStringsDistinct(a: int, b: int)
    requires 0 <= a <= 5 && 0 <= b <= 5 && a != b
    ensures NetworkErrorToString(a) != NetworkErrorToString(b)
  {
  }
}
