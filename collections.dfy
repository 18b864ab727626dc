/** Properties of sequences shared by the other modules. */
module Collections {

  /** No element occurs twice. */
  predicate Distinct<T(==)>(s: seq<T>) {
    forall i, j :: 0 <= i < j < |s| ==> s[i] != s[j]
  }

  /** A prefix one longer is the prefix followed by the next element. */
  lemma PrefixGrows<T>(s: seq<T>, b: nat)
    requires b < |s|
    ensures s[..b + 1] == s[..b] + [s[b]]
  {
  }

  /** A slice one longer is the slice followed by the next element. */
  lemma SliceGrows<T>(s: seq<T>, a: nat, b: nat)
    requires a <= b < |s|
    ensures s[a..b + 1] == s[a..b] + [s[b]]
  {
  }

  /** A non-empty sequence is its prefix followed by its last element. */
  lemma SplitLast<T>(s: seq<T>)
    requires |s| > 0
    ensures s == s[..|s| - 1] + [s[|s| - 1]]
  {
  }

  /** The first element and the rest of a concatenation whose left part is not empty. */
  lemma ConcatFirst<T>(a: seq<T>, b: seq<T>)
    requires |a| > 0
    ensures (a + b)[0] == a[0] && (a + b)[1..] == a[1..] + b
  {
  }

  /** A non-empty sequence is its first element followed by the rest. */
  lemma SplitFirst<T>(s: seq<T>)
    requires |s| > 0
    ensures s == [s[0]] + s[1..]
  {
  }

  /** Cutting the rest of `s` after `d` at `n` cuts `s` at `d + n`. */
  lemma SliceOfRest<T>(s: seq<T>, d: nat, n: nat)
    requires d + n <= |s|
    ensures s[..d] + s[d..][..n] == s[..d + n] && s[d..][n..] == s[d + n..]
  {
  }

  lemma ConcatRegroup<T>(p: seq<T>, a: seq<T>, e: seq<T>, b: seq<T>)
    ensures p + (a + e + b) == (p + a) + e + b
  {
  }

  lemma ConcatAssociative<T>(a: seq<T>, b: seq<T>, c: seq<T>)
    ensures a + (b + c) == (a + b) + c
  {
  }

  /** In `w + (b + [x])`, the block `b` follows `w` and `x` follows the block. */
  lemma AppendedAt<T>(w: seq<T>, b: seq<T>, x: T)
    ensures (w + (b + [x]))[|w| + |b|] == x
    ensures (w + (b + [x]))[|w|..|w| + |b|] == b
  {
  }

  /** A sequence agrees with its prefixes on their slices. */
  lemma PrefixSlice<T>(a: seq<T>, b: seq<T>, i: nat, j: nat)
    requires a <= b && i <= j <= |a|
    ensures b[i..j] == a[i..j] && (j < |a| ==> b[j] == a[j])
  {
  }

  /** A sequence is its prefix followed by the rest. */
  lemma PrefixAndRest<T>(s: seq<T>, n: nat)
    requires n <= |s|
    ensures s[..n] + s[n..|s|] == s
  {
  }
}
