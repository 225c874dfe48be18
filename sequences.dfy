/** Facts about sequences in general that the string and selection proofs cite by name. */
module Sequences {
  /** A sequence is its parts before i, between i and j, and from j. */
  lemma SplitThree<T>(s: seq<T>, i: nat, j: nat)
    requires i <= j <= |s|
    ensures s == s[..i] + s[i..j] + s[j..]
  {
  }

  lemma EndsWith<T>(x: seq<T>, y: seq<T>)
    ensures (x + y)[|x + y| - |y|..] == y
  {
  }

  lemma AppendAssociates<T>(x: seq<T>, y: seq<T>, z: seq<T>)
    ensures x + (y + z) == (x + y) + z
  {
  }
}
