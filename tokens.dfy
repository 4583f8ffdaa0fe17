/**
 * The token sequence that repeated `strtok_r` calls produce: the input is split
 * at every character of the delimiter set and empty tokens are dropped.
 */
module Tokenizer {

  /** Length of the leading token of `s`: the index of the first delimiter, or `|s|`. */
  function TokenLength(s: string, delims: set<char>): (n: nat)
    requires s != [] && s[0] !in delims
    ensures 1 <= n <= |s|
    ensures forall i :: 0 <= i < n ==> s[i] !in delims
    ensures n < |s| ==> s[n] in delims
    decreases |s|
  {
    if |s| == 1 || s[1] in delims then 1 else 1 + TokenLength(s[1..], delims)
  }

  /** The tokens `strtok_r(s, delims)` returns, in order. */
  function Tokens(s: string, delims: set<char>): (r: seq<string>)
    ensures forall i :: 0 <= i < |r| ==> r[i] != [] && NoneOf(r[i], delims)
    decreases |s|
  {
    if s == [] then []
    else if s[0] in delims then Tokens(s[1..], delims)
    else
      var n := TokenLength(s, delims);
      [s[..n]] + Tokens(s[n..], delims)
  }

  /** `s` contains no character of `delims`. */
  predicate NoneOf(s: string, delims: set<char>)
  {
    forall i :: 0 <= i < |s| ==> s[i] !in delims
  }

  /** `parts` separated by `sep`, as a formatter with `%s<sep>%s...` writes them. */
  function Join(parts: seq<string>, sep: char): (r: string)
    decreases |parts|
  {
    if parts == [] then []
    else if |parts| == 1 then parts[0]
    else parts[0] + [sep] + Join(parts[1..], sep)
  }

  lemma {:induction false} TokenLengthOfPrefix(p: string, rest: string, delims: set<char>)
    requires p != [] && NoneOf(p, delims)
    requires rest == [] || rest[0] in delims
    ensures TokenLength(p + rest, delims) == |p|
    decreases |p|
  {
    var s := p + rest;
    if |p| > 1 {
      assert s[1..] == p[1..] + rest;
      TokenLengthOfPrefix(p[1..], rest, delims);
    }
  }

  /** A leading delimiter produces no token. */
  lemma TokensSkipDelimiter(c: char, rest: string, delims: set<char>)
    requires c in delims
    ensures Tokens([c] + rest, delims) == Tokens(rest, delims)
  {
    assert ([c] + rest)[1..] == rest;
  }

  /** A non-empty, delimiter-free field followed by a delimiter is one token. */
  lemma TokensField(p: string, rest: string, delims: set<char>)
    requires p != [] && NoneOf(p, delims)
    requires rest == [] || rest[0] in delims
    ensures Tokens(p + rest, delims) == [p] + Tokens(rest, delims)
  {
    var s := p + rest;
    TokenLengthOfPrefix(p, rest, delims);
    assert s[..|p|] == p;
    assert s[|p|..] == rest;
  }

  /**
   * Tokenising a join of non-empty, delimiter-free fields gives the fields back:
   * the round trip a `%s|%s|...` formatter and a `strtok_r` loop complete.
   */
  lemma {:induction false} TokensOfJoin(parts: seq<string>, sep: char, delims: set<char>)
    requires sep in delims
    requires forall i :: 0 <= i < |parts| ==> parts[i] != [] && NoneOf(parts[i], delims)
    ensures Tokens(Join(parts, sep), delims) == parts
    decreases |parts|
  {
    if |parts| == 1 {
      TokensField(parts[0], [], delims);
      assert parts[0] + [] == parts[0];
    } else if |parts| > 1 {
      var tail := Join(parts[1..], sep);
      assert Join(parts, sep) == parts[0] + ([sep] + tail);
      TokensField(parts[0], [sep] + tail, delims);
      TokensSkipDelimiter(sep, tail, delims);
      TokensOfJoin(parts[1..], sep, delims);
      assert parts == [parts[0]] + parts[1..];
    }
  }

  /** An empty field between two separators is skipped rather than returned as "". */
  lemma {:induction false} TokensDropEmptyField(a: string, b: string, sep: char, delims: set<char>)
    requires sep in delims
    ensures Tokens(a + [sep, sep] + b, delims) == Tokens(a + [sep] + b, delims)
    decreases |a|
  {
    if a == [] {
      assert [sep, sep] + b == [sep] + ([sep] + b);
      TokensSkipDelimiter(sep, [sep] + b, delims);
    } else {
      var s := a + [sep, sep] + b;
      var t := a + [sep] + b;
      assert s[1..] == a[1..] + [sep, sep] + b;
      assert t[1..] == a[1..] + [sep] + b;
      if a[0] in delims {
        TokensDropEmptyField(a[1..], b, sep, delims);
      } else {
        assert s[..|a| + 1] == t[..|a| + 1];
        TokenLengthAgree(s, t, |a|, delims);
        var n := TokenLength(s, delims);
        assert s[..n] == t[..n];
        assert s[n..] == a[n..] + [sep, sep] + b;
        assert t[n..] == a[n..] + [sep] + b;
        TokensDropEmptyField(a[n..], b, sep, delims);
      }
    }
  }

  /** Two strings that agree up to a delimiter at index `k` have the same leading token. */
  lemma {:induction false} TokenLengthAgree(s: string, t: string, k: nat, delims: set<char>)
    requires s != [] && s[0] !in delims
    requires k < |s| && k < |t| && s[..k + 1] == t[..k + 1] && s[k] in delims
    ensures t != [] && t[0] !in delims
    ensures TokenLength(s, delims) == TokenLength(t, delims) <= k
    decreases k
  {
    assert t[0] == s[0];
    assert s[1] == t[1];
    if s[1] !in delims {
      assert s[1..][..k] == t[1..][..k];
      TokenLengthAgree(s[1..], t[1..], k - 1, delims);
    }
  }
}
