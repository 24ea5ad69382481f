/**
 * Identities of sequence concatenation and slicing that the proofs about
 * lists of lines and about the dictionary buffer use to regroup terms.
 */
module SeqFacts {

  /** Taking one more element of a list: the prefix so far, then that element. */
  lemma PrefixSnoc<T>(xs: seq<T>, i: nat)
    requires i < |xs|
    ensures xs[..i + 1] != [] && xs[..i + 1][..i] == xs[..i] && xs[..i + 1][i] == xs[i]
  {
  }

  /** The prefix of a list up to its length is the list. */
  lemma WholePrefix<T>(xs: seq<T>)
    ensures xs[..|xs|] == xs
  {
  }

  /** A list is any of its prefixes followed by the rest. */
  lemma PrefixAndRest<T>(xs: seq<T>, i: nat)
    requires i <= |xs|
    ensures xs[..i] + xs[i..] == xs
  {
  }

  /** A non-empty list is its front followed by its last element. */
  lemma SplitLast<T>(xs: seq<T>)
    requires xs != []
    ensures xs[..|xs| - 1] + [xs[|xs| - 1]] == xs
  {
  }

  /** Appending two elements one at a time. */
  lemma AppendTwo<T>(xs: seq<T>, a: T, b: T)
    ensures xs + [a] + [b] == xs + [a, b]
  {
  }

  /** Two leading elements, a list and a last element, one group at a time. */
  lemma CueLinesSplit<T>(a: T, b: T, xs: seq<T>, z: T)
    ensures [a, b] + xs + [z] == [a] + [b] + xs + [z]
  {
  }

  /** Dropping the first of a list that starts with two given elements. */
  lemma DropFirst<T>(a: T, b: T, xs: seq<T>)
    ensures ([a, b] + xs)[1..] == [b] + xs
  {
  }

  lemma EmptyPlus<T>(xs: seq<T>)
    ensures [] + xs == xs
  {
  }

  /** Regrouping a concatenation of three lists. */
  lemma Regroup3<T>(a: seq<T>, b: seq<T>, c: seq<T>)
    ensures a + b + c == a + (b + c)
  {
  }

  /** Regrouping a concatenation of four lists, the last three together. */
  lemma RegroupFour<T>(a: seq<T>, b: seq<T>, c: seq<T>, d: seq<T>)
    ensures a + b + c + d == a + (b + c + d)
  {
  }

  /** Regrouping a concatenation of four lists, the first two together. */
  lemma RegroupAfter<T>(l: seq<T>, a: seq<T>, y: seq<T>, z: seq<T>)
    ensures l + (a + y + z) == (l + a) + y + z
  {
  }

  /** A slice of the second part of a concatenation, by offsets into that part. */
  lemma SliceOfSuffix<T>(x: seq<T>, y: seq<T>, a: nat, b: nat)
    requires a <= b <= |y|
    ensures (x + y)[|x| + a..|x| + b] == y[a..b]
  {
  }
}
