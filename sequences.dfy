/**
 * Facts about sequences that the string and page proofs use, stated apart from any
 * recursive function so that each is proved by extensionality in a small context.
 */
module Sequences {

  /** Concatenation is associative. */
  lemma ConcatAssoc<T>(x: seq<T>, y: seq<T>, z: seq<T>)
    ensures (x + y) + z == x + (y + z)
  {
  }

  /** The prefix of length `|a|` of `a + b` is `a`. */
  lemma TakeConcat<T>(a: seq<T>, b: seq<T>)
    ensures (a + b)[..|a|] == a
  {
  }

  /** Growing a prefix by one element appends that element. */
  lemma TakeSnoc<T>(s: seq<T>, i: nat)
    requires i < |s|
    ensures s[..i + 1] == s[..i] + [s[i]]
  {
  }

  /** A non-empty sequence is its front followed by its last element. */
  lemma FrontLast<T>(s: seq<T>)
    requires s != []
    ensures s == s[..|s| - 1] + [s[|s| - 1]]
  {
  }

  /** A sequence around its element at `k`. */
  lemma SplitAround<T>(s: seq<T>, k: nat)
    requires k < |s|
    ensures s == s[..k] + [s[k]] + s[k + 1..]
  {
  }

  /** The empty sequence is a unit of concatenation. */
  lemma ConcatEmpty<T>(s: seq<T>)
    ensures s + [] == s && [] + s == s
  {
  }

  /** The slices that cut nothing off. */
  lemma WholeSlice<T>(s: seq<T>)
    ensures s[0..] == s && s[..|s|] == s && s[0..|s|] == s
  {
  }

  /** A sequence cut at `i` and `j` is the concatenation of the three pieces. */
  lemma SplitAt<T>(s: seq<T>, i: nat, j: nat)
    requires i <= j <= |s|
    ensures s == s[..i] + s[i..j] + s[j..]
  {
  }

  /** The first `n` elements after position `i`. */
  lemma TakeOfDrop<T>(s: seq<T>, i: nat, n: nat)
    requires i + n <= |s|
    ensures s[i..][..n] == s[i..i + n]
    ensures s[i..][n..] == s[i + n..]
    ensures s[..i + n] == s[..i] + s[i..][..n]
  {
  }

  /** What follows position `k` of a prefix of length `m`. */
  lemma DropOfTake<T>(s: seq<T>, m: nat, k: nat)
    requires k <= m <= |s|
    ensures s[..m][k..] == s[k..m]
    ensures s[k..] == s[k..m] + s[m..]
  {
  }

  /** The head and tail of a concatenation with a non-empty first part. */
  lemma ConcatTail<T>(w: seq<T>, t: seq<T>)
    requires w != []
    ensures (w + t)[0] == w[0]
    ensures (w + t)[1..] == w[1..] + t
    ensures w + t == [w[0]] + (w[1..] + t)
  {
  }

  /** The last element and front of a concatenation with a non-empty second part. */
  lemma ConcatFront<T>(t: seq<T>, w: seq<T>)
    requires w != []
    ensures (t + w)[|t + w| - 1] == w[|w| - 1]
    ensures (t + w)[..|t + w| - 1] == t + w[..|w| - 1]
  {
  }

  /** Slicing a concatenation inside one of its parts. */
  lemma SliceConcat<T>(a: seq<T>, b: seq<T>, n: nat)
    ensures n <= |b| ==> (a + b)[|a| + n..] == b[n..]
    ensures n <= |a| ==> (a + b)[..n] == a[..n]
  {
  }

  /** Regrouping five concatenated parts. */
  lemma Regroup<T>(a: seq<T>, b: seq<T>, c: seq<T>, d: seq<T>, e: seq<T>)
    ensures a + (b + c + d) + e == (a + b) + c + (d + e)
  {
  }
}
