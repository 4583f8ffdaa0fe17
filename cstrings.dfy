/** C string helpers shared by the modules that copy text into fixed-size buffers. */
module CStrings {

  const NUL: char := '\0'

  /** The text of a C string: no NUL inside it. */
  predicate CText(s: string)
  {
    NUL !in s
  }

  /** The length `strlen` finds in a buffer holding a NUL. */
  function CLength(a: seq<char>): (n: nat)
    requires NUL in a
    ensures n < |a| && a[n] == NUL && NUL !in a[..n]
    decreases |a|
  {
    if a[0] == NUL then 0 else 1 + CLength(a[1..])
  }

  /** A buffer whose first NUL is at `n` has C length `n`. */
  lemma {:induction false} CLengthAt(a: seq<char>, n: nat)
    requires n < |a| && a[n] == NUL && NUL !in a[..n]
    ensures CLength(a) == n
    decreases n
  {
    if n > 0 {
      assert a[0] in a[..n];
      assert a[1..][..n - 1] == a[..n][1..];
      CLengthAt(a[1..], n - 1);
    }
  }

  /** `strlen` on a buffer holding a NUL. */
  method StrLen(a: array<char>) returns (n: nat)
    requires NUL in a[..]
    ensures n == CLength(a[..])
  {
    n := 0;
    while a[n] != NUL
      invariant n <= CLength(a[..])
      decreases CLength(a[..]) - n
    {
      n := n + 1;
    }
  }

  /**
   * The text a buffer holds after `strncpy(buf, s, n)` followed by `buf[n] = '\0'`:
   * the first `n` characters of `s`, or all of it when it is shorter.
   */
  function Truncate(s: string, n: nat): (r: string)
    ensures |r| == if |s| <= n then |s| else n
    ensures r == s[..|r|]
  {
    if |s| <= n then s else s[..n]
  }
}
