/** Facts about sequences that the proofs need by name. */
module Sequences {
  lemma AppendAssociates<T>(a: seq<T>, b: seq<T>, c: seq<T>)
    ensures (a + b) + c == a + (b + c)
  {
  }

  lemma UpdateBehind<T>(x: T, tail: seq<T>, k: nat, y: T)
    requires k < |tail|
    ensures ([x] + tail)[k + 1 := y] == [x] + tail[k := y]
  {
  }

  lemma TailOfConcat<T>(a: seq<T>, b: seq<T>)
    requires a != []
    ensures (a + b)[0] == a[0] && (a + b)[1..] == a[1..] + b
  {
  }
}
