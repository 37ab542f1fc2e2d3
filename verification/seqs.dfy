/** Generic facts about appending one element to a sequence. */
module Sequences {

  /** Appending keeps every earlier element where it was and puts the new
      one last. */
  lemma SnocKeeps<T>(xs: seq<T>, x: T)
    ensures (xs + [x])[|xs|] == x
    ensures forall k :: 0 <= k < |xs| ==> (xs + [x])[k] == xs[k]
  {
  }

  /** Dropping the head of `xs + [x]`. */
  lemma SnocTail<T>(xs: seq<T>, x: T)
    ensures |xs| == 0 ==> xs + [x] == [x]
    ensures |xs| == 0 ==> (xs + [x])[1..] == []
    ensures |xs| > 0 ==> (xs + [x])[1..] == xs[1..] + [x]
  {
  }
}
