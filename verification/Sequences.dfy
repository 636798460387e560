/** What the linked lists of the IL client do to their contents. */
module Sequences {

  /** The sequence without its entry i. */
  function Drop<T>(s: seq<T>, i: nat): (r: seq<T>)
    requires i < |s|
    ensures |r| == |s| - 1
  {
    s[..i] + s[i + 1..]
  }

  /** The entries in front keep their places, the others move up. */
  lemma DropAt<T>(s: seq<T>, i: nat, k: nat)
    requires i < |s| && k < |s| - 1
    ensures Drop(s, i)[k] == if k < i then s[k] else s[k + 1]
  {}
}
