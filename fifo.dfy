/**
 * The eviction rule shared by the relay history, its test-harness copy and the
 * client-side message list: append at the tail, then drop from the head while
 * the count exceeds the bound.
 */
module BoundedFifo {

  /** The last `n` elements of `s` (all of `s` when it is shorter). */
  function KeepLast<T>(s: seq<T>, n: nat): (r: seq<T>)
    ensures |r| == if |s| <= n then |s| else n
  {
    if |s| <= n then s else s[|s| - n..]
  }

  /** Appending `x` to a bounded queue holding the last `n` elements of `s`. */
  function Push<T>(q: seq<T>, x: T, n: nat): (r: seq<T>)
  {
    KeepLast(q + [x], n)
  }

  /** Pushing one element at a time keeps exactly the last `n` of everything pushed. */
  lemma {:induction false} PushKeepsLast<T>(s: seq<T>, x: T, n: nat)
    ensures Push(KeepLast(s, n), x, n) == KeepLast(s + [x], n)
  {
    if |s| > n && n > 0 {
      var k := s[|s| - n..];
      assert KeepLast(s, n) == k;
      assert KeepLast(k + [x], n) == (k + [x])[1..];
      DropSnoc(k, x, 1);
      assert k[1..] == s[|s| - n + 1..];
      assert KeepLast(s + [x], n) == (s + [x])[|s| - n + 1..];
      DropSnoc(s, x, |s| - n + 1);
    }
  }

  /** Dropping a prefix of `a` from `a + [x]` keeps `x` at the end. */
  lemma DropSnoc<T>(a: seq<T>, x: T, j: nat)
    requires j <= |a|
    ensures (a + [x])[j..] == a[j..] + [x]
  {
  }

  /** Pushing every element of `xs`, in order, into an initially empty queue. */
  function PushAll<T>(xs: seq<T>, n: nat): (r: seq<T>)
    decreases |xs|
  {
    if xs == [] then [] else Push(PushAll(xs[..|xs| - 1], n), xs[|xs| - 1], n)
  }

  /** The queue after any sequence of pushes holds the most recent `n` pushes in arrival order. */
  lemma {:induction false} PushAllIsKeepLast<T>(xs: seq<T>, n: nat)
    ensures PushAll(xs, n) == KeepLast(xs, n)
    decreases |xs|
  {
    if xs != [] {
      var init := xs[..|xs| - 1];
      PushAllIsKeepLast(init, n);
      PushKeepsLast(init, xs[|xs| - 1], n);
      assert init + [xs[|xs| - 1]] == xs;
    }
  }

  /** The bound holds after every push, and the new element is the tail when `n > 0`. */
  lemma PushBounded<T>(q: seq<T>, x: T, n: nat)
    ensures |Push(q, x, n)| <= n
    ensures n > 0 ==> Push(q, x, n)[|Push(q, x, n)| - 1] == x
    ensures |q| < n ==> Push(q, x, n) == q + [x]
  {
  }
}
