/**
 * In-place text editing of the user interface tests:
 * `clay_textbox_handle_input` and `clay_textbox_set_focus`
 * (tests/ui/test_clay_components_advanced.c), `handleTextInput` and
 * `handleBackspace` (tests/ui/test_ui_components.c) and `resetTextBoxFocus`
 * (tests/unit/test_textbox.c).
 */
module TextBox {
  import opened Wrappers
  import opened CStrings

  /** The size of `Clay_TextBox.text`. */
  const TEXT_SIZE: nat := 256

  const BACKSPACE: char := '\U{8}'

  /** The printable ASCII range the text box accepts. */
  predicate Printable(c: char)
  {
    32 <= c as int <= 126
  }

  // ---------------------------------------------------------------- editing, as text

  /** `s` with `c` inserted before position `at`. */
  function InsertAt(s: string, at: nat, c: char): (r: string)
    requires at <= |s|
    ensures |r| == |s| + 1 && r[at] == c
    ensures r[..at] == s[..at] && r[at + 1..] == s[at..]
  {
    s[..at] + [c] + s[at..]
  }

  /** `s` without the character before position `at`. */
  function DeleteBefore(s: string, at: nat): (r: string)
    requires 1 <= at <= |s|
    ensures |r| == |s| - 1
    ensures r[..at - 1] == s[..at - 1] && r[at - 1..] == s[at..]
  {
    s[..at - 1] + s[at..]
  }

  /** Deleting the character just typed gives the text back. */
  lemma DeleteUndoesInsert(s: string, at: nat, c: char)
    requires at <= |s|
    ensures DeleteBefore(InsertAt(s, at, c), at + 1) == s
  {
    var t := InsertAt(s, at, c);
    assert DeleteBefore(t, at + 1) == t[..at] + t[at + 1..];
    assert s == s[..at] + s[at..];
  }

  // ---------------------------------------------------------------- Clay text box

  /** A `Clay_TextBox`. */
  class ClayTextBox {
    var hasFocus: bool
    const text: array<char>
    var cursor: int
    var maxLength: int

    /**
     * The text is a C string in its 256-character array, the cursor lies within
     * it, and `maxLength` does not exceed the array.
     */
    ghost predicate Valid()
      reads this, text
    {
      && text.Length == TEXT_SIZE
      && NUL in text[..]
      && 0 <= cursor <= CLength(text[..])
      && maxLength <= TEXT_SIZE
    }

    /** The text the box shows. */
    ghost function Content(): string
      reads this, text
      requires NUL in text[..]
    {
      text[..CLength(text[..])]
    }

    constructor (maxLength: int)
      requires maxLength <= TEXT_SIZE
      ensures Valid() && !hasFocus && Content() == [] && cursor == 0 && this.maxLength == maxLength
      ensures fresh(text)
    {
      hasFocus := false;
      text := new char[TEXT_SIZE](_ => NUL);
      cursor := 0;
      this.maxLength := maxLength;
      new;
      CLengthAt(text[..], 0);
    }
  }

  /**
   * `clay_textbox_handle_input`. A NULL or unfocused box takes nothing. A
   * backspace with the cursor past the start deletes the character before it; a
   * printable character is inserted at the cursor while the text is shorter than
   * `maxLength - 1`. The result says whether the text changed; otherwise nothing did.
   */
  method HandleInput(box: ClayTextBox?, character: char) returns (changed: bool)
    requires box != null ==> box.Valid()
    modifies box, if box == null then {} else {box.text}
    ensures box != null ==> box.Valid() && box.hasFocus == old(box.hasFocus) && box.maxLength == old(box.maxLength)
    ensures changed <==>
      && box != null && old(box.hasFocus)
      && (if character == BACKSPACE then old(box.cursor) > 0
          else Printable(character) && old(CLength(box.text[..])) < old(box.maxLength) - 1)
    ensures !changed ==> box == null || (unchanged(box.text) && box.cursor == old(box.cursor))
    ensures changed && character == BACKSPACE ==>
      && box.Content() == DeleteBefore(old(box.Content()), old(box.cursor))
      && box.cursor == old(box.cursor) - 1
    ensures changed && character != BACKSPACE ==>
      && box.Content() == InsertAt(old(box.Content()), old(box.cursor), character)
      && box.cursor == old(box.cursor) + 1
  {
    if box == null || !box.hasFocus {
      return false;
    }
    if character == BACKSPACE {
      if box.cursor > 0 {
        Backspace(box);
        return true;
      }
    } else if Printable(character) {
      var len := StrLen(box.text);
      if len < box.maxLength - 1 {
        Insert(box, len, character);
        return true;
      }
    }
    return false;
  }

  /**
   * The backspace branch: shift the text from the cursor one place left over the
   * character before it. The loop bound is `strlen(text)` re-evaluated each time;
   * it stays at the old length until the last step moves the NUL down, after which
   * the loop ends, so the old length is used here.
   */
  method Backspace(box: ClayTextBox)
    requires box.Valid() && box.cursor > 0
    modifies box, box.text
    ensures box.Valid() && box.hasFocus == old(box.hasFocus) && box.maxLength == old(box.maxLength)
    ensures box.cursor == old(box.cursor) - 1
    ensures box.Content() == DeleteBefore(old(box.Content()), old(box.cursor))
  {
    ghost var s := box.text[..];
    var len := StrLen(box.text);
    assert len < TEXT_SIZE;
    var c := box.cursor;
    ShiftLeft(box.text, c, len);
    box.cursor := c - 1;
    var t := DeleteBefore(s[..len], c);
    assert box.text[..len - 1] == t;
    assert box.text[len - 1] == NUL;
    CLengthAt(box.text[..], len - 1);
  }

  /** The insertion branch: shift the text and its NUL one place right, then store. */
  method Insert(box: ClayTextBox, len: nat, character: char)
    requires box.Valid() && len == CLength(box.text[..]) && len < box.maxLength - 1
    requires character != NUL
    modifies box, box.text
    ensures box.Valid() && box.hasFocus == old(box.hasFocus) && box.maxLength == old(box.maxLength)
    ensures box.cursor == old(box.cursor) + 1
    ensures box.Content() == InsertAt(old(box.Content()), old(box.cursor), character)
  {
    ghost var s := box.text[..];
    var c := box.cursor;
    ShiftRight(box.text, c, len);
    box.text[c] := character;
    box.cursor := c + 1;
    var t := InsertAt(s[..len], c, character);
    assert box.text[..len + 1] == t;
    assert box.text[len + 1] == NUL;
    CLengthAt(box.text[..], len + 1);
  }

  /** The shift loop of the backspace branch: `a[c..len]` moves one place left over `a[c - 1]`. */
  method ShiftLeft(a: array<char>, c: nat, len: nat)
    requires 1 <= c <= len < a.Length
    modifies a
    ensures forall k :: 0 <= k < c - 1 ==> a[k] == old(a[k])
    ensures forall k :: c - 1 <= k < len ==> a[k] == old(a[k + 1])
    ensures forall k :: len <= k < a.Length ==> a[k] == old(a[k])
  {
    var i := c - 1;
    while i < len
      invariant c - 1 <= i <= len
      invariant forall k :: 0 <= k < c - 1 ==> a[k] == old(a[k])
      invariant forall k :: c - 1 <= k < i ==> a[k] == old(a[k + 1])
      invariant forall k :: i <= k < a.Length ==> a[k] == old(a[k])
    {
      a[i] := a[i + 1];
      i := i + 1;
    }
  }

  /** The shift loop of the insertion branch: `a[c..len]` and the NUL after it move one place right. */
  method ShiftRight(a: array<char>, c: nat, len: nat)
    requires c <= len && len + 1 < a.Length
    modifies a
    ensures forall k :: 0 <= k <= c ==> a[k] == old(a[k])
    ensures forall k :: c < k <= len + 1 ==> a[k] == old(a[k - 1])
    ensures forall k :: len + 1 < k < a.Length ==> a[k] == old(a[k])
  {
    var i: int := len;
    while i >= c
      invariant c - 1 <= i <= len
      invariant forall k :: i + 1 < k <= len + 1 ==> a[k] == old(a[k - 1])
      invariant forall k :: 0 <= k <= i + 1 || len + 1 < k < a.Length ==> a[k] == old(a[k])
      decreases i
    {
      a[i + 1] := a[i];
      i := i - 1;
    }
  }

  /** `clay_textbox_set_focus`: NULL-safe. */
  method SetFocus(box: ClayTextBox?, focus: bool)
    modifies box
    ensures box != null ==> box.hasFocus == focus && box.cursor == old(box.cursor) && box.maxLength == old(box.maxLength)
  {
    if box != null {
      box.hasFocus := focus;
    }
  }

  // ---------------------------------------------------------------- handleTextInput / handleBackspace

  /** The text after typing `c` into `s` in a buffer of `maxLen` characters. */
  function Typed(s: string, maxLen: nat, c: char): (r: string)
    ensures |s| + 1 < maxLen ==> r == s + [c]
    ensures |s| + 1 >= maxLen ==> r == s
    ensures |s| < maxLen ==> |r| < maxLen
  {
    if |s| + 1 < maxLen then s + [c] else s
  }

  /** The text after a backspace. */
  function Erased(s: string): (r: string)
    ensures s != [] ==> r == s[..|s| - 1]
    ensures s == [] ==> r == []
  {
    if s == [] then [] else s[..|s| - 1]
  }

  /** A backspace undoes a keystroke that was taken. */
  lemma {:induction false} EraseUndoesType(s: string, maxLen: nat, c: char)
    requires |s| + 1 < maxLen
    ensures Erased(Typed(s, maxLen, c)) == s
  {
    assert (s + [c])[..|s|] == s;
  }

  /** Typing into a full buffer leaves it full and unchanged. */
  lemma {:induction false} TypeIntoFull(s: string, maxLen: nat, c: char, d: char)
    requires |s| + 1 == maxLen
    ensures Typed(Typed(s, maxLen, c), maxLen, d) == s
  {
  }

  /** The two keystrokes of the tests: "" then 'H', 'i' is "Hi"; "abc" then 'd', 'e' with 5 is "abcd". */
  lemma TypingScenarios()
    ensures Typed(Typed("", 10, 'H'), 10, 'i') == "Hi"
    ensures Typed(Typed("abc", 5, 'd'), 5, 'e') == "abcd"
  {
  }

  /** `size_t` arithmetic: `maxLen - 1` wraps to the largest value when `maxLen` is 0. */
  const SIZE_MAX: nat := 0xFFFF_FFFF_FFFF_FFFF

  /** The guard of `handleTextInput` as written: `*len < maxLen - 1` in `size_t`. */
  predicate RoomAsWritten(len: nat, maxLen: nat)
    requires maxLen <= SIZE_MAX
  {
    len < (if maxLen == 0 then SIZE_MAX else maxLen - 1)
  }

  /** The guard the function needs: the character and a NUL both fit. */
  predicate Room(len: nat, maxLen: nat)
  {
    len + 1 < maxLen
  }

  /** For every buffer size but 0 the written guard is the intended one. */
  lemma RoomAgrees(len: nat, maxLen: nat)
    requires 1 <= maxLen <= SIZE_MAX
    ensures RoomAsWritten(len, maxLen) <==> Room(len, maxLen)
  {
  }

  /**
   * With a buffer size of 0 the written guard lets a character through: the
   * function then writes `buffer[0]` and `buffer[1]`, two places past a buffer of
   * no characters.
   */
  lemma ZeroSizeWritesPastBuffer()
    ensures RoomAsWritten(0, 0) && !Room(0, 0)
  {
  }

  /**
   * `handleTextInput` with the guard it needs; `len` is `*len`, None for a NULL
   * pointer, and the result is `*len` afterwards. A taken character is stored at
   * `len` and followed by a NUL.
   */
  method HandleTextInput(buffer: array?<char>, len: Option<nat>, maxLen: nat, inputChar: char) returns (newLen: Option<nat>)
    requires buffer != null ==> maxLen <= buffer.Length
    modifies buffer
    ensures buffer == null || len.None? || !Room(len.value, maxLen) ==> newLen == len && (buffer == null || unchanged(buffer))
    ensures buffer != null && len.Some? && Room(len.value, maxLen) ==>
      var n := len.value;
      && newLen == Some(n + 1)
      && buffer[..] == old(buffer[..])[n := inputChar][n + 1 := NUL]
      && buffer[..n + 1] == Typed(old(buffer[..n]), maxLen, inputChar)
  {
    if buffer == null || len.None? {
      return len;
    }
    var n := len.value;
    if n + 1 < maxLen {
      buffer[n] := inputChar;
      buffer[n + 1] := NUL;
      return Some(n + 1);
    }
    return len;
  }

  /** `handleBackspace`: the last character is replaced by NUL and `*len` drops by one. */
  method HandleBackspace(buffer: array?<char>, len: Option<nat>) returns (newLen: Option<nat>)
    requires buffer != null && len.Some? ==> len.value <= buffer.Length
    modifies buffer
    ensures buffer == null || len.None? || len.value == 0 ==> newLen == len && (buffer == null || unchanged(buffer))
    ensures buffer != null && len.Some? && len.value > 0 ==>
      var n := len.value;
      && newLen == Some(n - 1)
      && buffer[..] == old(buffer[..])[n - 1 := NUL]
      && buffer[..n - 1] == Erased(old(buffer[..n]))
  {
    if buffer == null || len.None? {
      return len;
    }
    var n := len.value;
    if n > 0 {
      buffer[n - 1] := NUL;
      return Some(n - 1);
    }
    return len;
  }

  // ---------------------------------------------------------------- resetTextBoxFocus

  /** The focus flags after clearing the first `len`. */
  function Cleared(flags: seq<bool>, len: nat): (r: seq<bool>)
    requires len <= |flags|
    ensures |r| == |flags|
    ensures forall i :: 0 <= i < len ==> !r[i]
    ensures forall i :: len <= i < |flags| ==> r[i] == flags[i]
  {
    seq(|flags|, i requires 0 <= i < |flags| => if i < len then false else flags[i])
  }

  /** Clearing twice is clearing once. */
  lemma ClearedIdempotent(flags: seq<bool>, len: nat)
    requires len <= |flags|
    ensures Cleared(Cleared(flags, len), len) == Cleared(flags, len)
  {
  }

  /** `resetTextBoxFocus`: NULL-safe; every flag below `len` becomes false. */
  method ResetTextBoxFocus(focusList: array?<bool>, len: nat)
    requires focusList != null ==> len <= focusList.Length
    modifies focusList
    ensures focusList != null ==> focusList[..] == Cleared(old(focusList[..]), len)
  {
    if focusList == null {
      return;
    }
    var i := 0;
    while i < len
      invariant 0 <= i <= len
      invariant forall k :: 0 <= k < i ==> !focusList[k]
      invariant forall k :: i <= k < focusList.Length ==> focusList[k] == old(focusList[k])
    {
      focusList[i] := false;
      i := i + 1;
    }
  }
}
