/**
 * Option and Result, used for the error paths of the encoder and the decoder,
 * and the slicing facts the proofs use, stated once for any element type.
 */
module Common {

  datatype Option<+T> = None | Some(value: T)

  datatype Result<+T, +E> = Ok(value: T) | Err(error: E)

  /** A prefix of a slice is a slice. */
  lemma SliceOfSlice<T>(a: seq<T>, lo: nat, hi: nat, n: nat)
    requires lo <= n <= hi <= |a|
    ensures a[lo..hi][..n - lo] == a[lo..n]
  {
  }

  /** A prefix of a prefix is a prefix. */
  lemma TakeOfTake<T>(a: seq<T>, n: nat, k: nat)
    requires k <= n <= |a|
    ensures a[..n][..k] == a[..k]
  {
  }

  /** A prefix of a suffix is a slice. */
  lemma TakeOfDrop<T>(a: seq<T>, lo: nat, n: nat)
    requires lo + n <= |a|
    ensures a[lo..][..n] == a[lo..lo + n]
  {
  }

  /** A slice of the second part of a concatenation. */
  lemma SliceShift<T>(pre: seq<T>, a: seq<T>, lo: nat, hi: nat)
    requires lo <= hi <= |a|
    ensures (pre + a)[|pre| + lo..|pre| + hi] == a[lo..hi]
  {
  }

  /** A slice of the first part of a concatenation. */
  lemma SliceExtend<T>(a: seq<T>, post: seq<T>, lo: nat, hi: nat)
    requires lo <= hi <= |a|
    ensures (a + post)[lo..hi] == a[lo..hi]
  {
  }
}
