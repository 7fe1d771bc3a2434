/** The mutation operator `swapkeys`, with the two letters it draws at
    random passed in as parameters. */
module Mutation {
  import opened Layout

  /** Exchanges the slots of letters l1 and l2; the letters are drawn with
      replacement, so l1 == l2 is allowed. */
  function Swap(k: seq<Slot>, l1: Letter, l2: Letter): (r: seq<Slot>)
    requires |k| == AlphabetSize
    ensures |r| == AlphabetSize
    ensures multiset(r) == multiset(k)
    ensures r[Ord(l1)] == k[Ord(l2)] && r[Ord(l2)] == k[Ord(l1)]
    ensures forall i :: 0 <= i < |k| && i != Ord(l1) && i != Ord(l2) ==> r[i] == k[i]
  {
    var a, b := Ord(l1), Ord(l2);
    var r := k[a := k[b]][b := k[a]];
    ExchangeKeepsMultiset(k, a, b);
    r
  }

  /** Exchanging two entries of a sequence permutes it. */
  lemma ExchangeKeepsMultiset<T>(k: seq<T>, a: nat, b: nat)
    requires a < |k| && b < |k|
    ensures multiset(k[a := k[b]][b := k[a]]) == multiset(k)
  {
  }

  /** Swapping keeps a layout a bijection onto the slots of the pad. */
  lemma SwapPreservesLayout(k: seq<Slot>, l1: Letter, l2: Letter)
    requires IsLayout(k)
    ensures IsLayout(Swap(k, l1, l2))
  {
    var r := Swap(k, l1, l2);
    var a, b := Ord(l1), Ord(l2);
    forall i, j | 0 <= i < j < |r|
      ensures r[i] != r[j]
    {
      var i' := if i == a then b else if i == b then a else i;
      var j' := if j == a then b else if j == b then a else j;
      assert r[i] == k[i'] && r[j] == k[j'] && i' != j';
    }
    forall s | ValidSlot(s)
      ensures Occupied(r, s)
    {
      assert Occupied(k, s);
      var i :| 0 <= i < |k| && k[i] == s;
      var i' := if i == a then b else if i == b then a else i;
      assert r[i'] == s;
    }
  }

  /** Swapping the same two letters again restores the layout. */
  lemma SwapTwice(k: seq<Slot>, l1: Letter, l2: Letter)
    requires |k| == AlphabetSize
    ensures Swap(Swap(k, l1, l2), l1, l2) == k
  {
  }

  /** Swapping the same pair in either order gives the same layout. */
  lemma SwapSymmetric(k: seq<Slot>, l1: Letter, l2: Letter)
    requires |k| == AlphabetSize
    ensures Swap(k, l1, l2) == Swap(k, l2, l1)
  {
  }

  /** Drawing the same letter twice leaves the layout unchanged. */
  lemma SwapSameLetter(k: seq<Slot>, l: Letter)
    requires |k| == AlphabetSize
    ensures Swap(k, l, l) == k
  {
  }
}
