/** Small shared vocabulary: optional values and bytes. */
module Basics {

  /** A value that may be absent (JavaScript `undefined`/`null`). */
  datatype Option<+T> = None | Some(value: T) {
    function GetOr(default: T): T {
      match this
      case Some(v) => v
      case None => default
    }
  }

  /** An octet, as stored in a Node `Buffer` or a `DataView`. */
  type Byte = x: int | 0 <= x < 256

  /** `xs[..n]` when `n` may exceed the length, like `Array.prototype.slice(0, n)`. */
  function Take<T>(xs: seq<T>, n: nat): (r: seq<T>)
    ensures |r| == if n < |xs| then n else |xs|
    ensures r == xs[..|r|]
  {
    if n < |xs| then xs[..n] else xs
  }

  /** The last `n` elements, like `Array.prototype.slice(-n)` for n > 0. */
  function Last<T>(xs: seq<T>, n: nat): (r: seq<T>)
    ensures |r| == if n < |xs| then n else |xs|
    ensures r != [] ==> r[|r| - 1] == xs[|xs| - 1]
  {
    if n < |xs| then xs[|xs| - n..] else xs
  }

  /** What `Last` keeps is a suffix of the sequence. */
  lemma LastSuffix<T>(xs: seq<T>, n: nat)
    ensures Last(xs, n) == xs[|xs| - |Last(xs, n)|..]
  {
  }

  /** A sequence is the concatenation of its three slices at `a <= b`. */
  lemma Slices3<T>(s: seq<T>, a: nat, b: nat)
    requires a <= b <= |s|
    ensures s == s[..a] + s[a..b] + s[b..]
  {
    assert s[..b] == s[..a] + s[a..b];
  }

  /** Concatenation is associative (stated once for reuse). */
  lemma Concat3<T>(a: seq<T>, b: seq<T>, c: seq<T>)
    ensures a + b + c == a + (b + c)
  {
  }

  /** Dropping within the first part of a concatenation. */
  lemma DropOfAppend<T>(p: seq<T>, u: seq<T>, k: nat)
    requires k <= |p|
    ensures (p + u)[k..] == p[k..] + u
  {
  }

  /** Dropping from a prefix is slicing the whole. */
  lemma SliceOfPrefix<T>(s: seq<T>, a: nat, k: nat)
    requires a <= k <= |s|
    ensures s[..k][a..] == s[a..k]
  {
  }
}
