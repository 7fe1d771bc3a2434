/** `keylist`: the inverse view of a layout, a grid with one row per key
    and one cell per position, each cell holding the letter on that slot. */
module Keylist {
  import opened Layout

  type Grid = seq<seq<char>>

  /** Eight rows; rows 5 and 7 have four cells, the others three. */
  ghost predicate Shaped(g: Grid) {
    |g| == KeyCount && forall r :: 0 <= r < KeyCount ==> |g[r]| == Capacity(r)
  }

  /** The grid before any letter is placed: every cell is a blank. */
  function Blank(): (g: Grid)
    ensures Shaped(g)
    ensures forall s :: ValidSlot(s) ==> g[s.key][s.pos] == ' '
  {
    seq(KeyCount, r requires 0 <= r => seq(Capacity(r), c => ' '))
  }

  /** Writes character ch into the cell of slot s. */
  function Place(g: Grid, s: Slot, ch: char): (g': Grid)
    requires Shaped(g) && ValidSlot(s)
    ensures Shaped(g')
    ensures g'[s.key][s.pos] == ch
    ensures forall t :: ValidSlot(t) && t != s ==> g'[t.key][t.pos] == g[t.key][t.pos]
  {
    g[s.key := g[s.key][s.pos := ch]]
  }

  /** The grid after the first n letters (in alphabet order, the order in
      which the layout's dictionary yields them) have been written. */
  function Fill(k: seq<Slot>, n: nat): (g: Grid)
    requires WellShaped(k) && n <= |k|
    ensures Shaped(g)
  {
    if n == 0 then Blank() else Place(Fill(k, n - 1), k[n - 1], Chr(n - 1))
  }

  /** No letter after i and before n shares letter i's slot. */
  ghost predicate LastOnSlot(k: seq<Slot>, i: nat, n: nat)
    requires i < n <= |k|
  {
    forall j :: i < j < n ==> k[j] != k[i]
  }

  /** None of the first n letters sits on slot s. */
  ghost predicate Unused(k: seq<Slot>, s: Slot, n: nat)
    requires n <= |k|
  {
    forall i :: 0 <= i < n ==> k[i] != s
  }

  /** After the first n letters are written, a cell holds the last of them
      written there. */
  lemma {:induction false} FillWritten(k: seq<Slot>, n: nat)
    requires WellShaped(k) && n <= |k|
    ensures forall i :: 0 <= i < n && LastOnSlot(k, i, n) ==>
              Fill(k, n)[k[i].key][k[i].pos] == Chr(i)
  {
    if n > 0 {
      FillWritten(k, n - 1);
      var g, g' := Fill(k, n - 1), Fill(k, n);
      forall i | 0 <= i < n && LastOnSlot(k, i, n)
        ensures g'[k[i].key][k[i].pos] == Chr(i)
      {
        if i < n - 1 {
          assert k[n - 1] != k[i];
          assert LastOnSlot(k, i, n - 1);
          assert g'[k[i].key][k[i].pos] == g[k[i].key][k[i].pos];
        }
      }
    }
  }

  /** After the first n letters are written, a cell none of them sits on
      is still blank. */
  lemma {:induction false} FillBlank(k: seq<Slot>, n: nat)
    requires WellShaped(k) && n <= |k|
    ensures forall s :: ValidSlot(s) && Unused(k, s, n) ==> Fill(k, n)[s.key][s.pos] == ' '
  {
    if n > 0 {
      FillBlank(k, n - 1);
      forall s | ValidSlot(s) && Unused(k, s, n)
        ensures Fill(k, n)[s.key][s.pos] == ' '
      {
        assert k[n - 1] != s;
        assert Unused(k, s, n - 1);
      }
    }
  }

  /** `keylist` of a layout whose slots are all on the pad (any other slot
      would make the source raise IndexError). */
  function Keylist(k: seq<Slot>): (g: Grid)
    requires WellShaped(k)
    ensures Shaped(g)
  {
    Fill(k, AlphabetSize)
  }

  /** For a bijective layout, every cell holds exactly the letter mapped to
      it: no cell is left blank and reading a letter's slot gives it back. */
  lemma KeylistOfLayout(k: seq<Slot>)
    requires IsLayout(k)
    ensures forall i :: 0 <= i < AlphabetSize ==> Keylist(k)[k[i].key][k[i].pos] == Chr(i)
    ensures forall s :: ValidSlot(s) ==> IsLetter(Keylist(k)[s.key][s.pos])
  {
    var g := Keylist(k);
    FillWritten(k, AlphabetSize);
    forall i | 0 <= i < AlphabetSize
      ensures g[k[i].key][k[i].pos] == Chr(i)
    {
      assert LastOnSlot(k, i, AlphabetSize);
    }
    forall s | ValidSlot(s)
      ensures IsLetter(g[s.key][s.pos])
    {
      assert Occupied(k, s);
      var i :| 0 <= i < |k| && k[i] == s;
      assert g[k[i].key][k[i].pos] == Chr(i);
    }
  }

  /** When letter i sits in the i-th slot of fill order, the cell of key r,
      position c holds the letter whose index is that slot's place. */
  lemma FillOrderCells(k: seq<Slot>)
    requires IsLayout(k)
    requires forall i :: 0 <= i < AlphabetSize ==> SlotIndex(k[i]) == i
    ensures forall r, c :: 0 <= r < KeyCount && 0 <= c < Capacity(r) ==>
              Keylist(k)[r][c] == Chr(Start(r) + c)
  {
    KeylistOfLayout(k);
    forall r, c | 0 <= r < KeyCount && 0 <= c < Capacity(r)
      ensures Keylist(k)[r][c] == Chr(Start(r) + c)
    {
      var s := Slot(r, c);
      var i := SlotIndex(s);
      SlotIndexInjective(k[i], s);
    }
  }

  /** The canonical layout reads, key by key, abc def ghi jkl mno pqrs tuv wxyz. */
  lemma KeylistCanonical()
    ensures Keylist(Canonical()) == ["abc", "def", "ghi", "jkl", "mno", "pqrs", "tuv", "wxyz"]
  {
    var k := Canonical();
    CanonicalIsLayout();
    FillOrderCells(k);
    FillOrderGrid(Keylist(k));
  }

  /** A grid whose cells hold the letters in fill order is the alphabet
      split into keys of three, with four on keys 5 and 7. */
  lemma FillOrderGrid(g: Grid)
    requires Shaped(g)
    requires forall r, c :: 0 <= r < KeyCount && 0 <= c < Capacity(r) ==> g[r][c] == Chr(Start(r) + c)
    ensures g == ["abc", "def", "ghi", "jkl", "mno", "pqrs", "tuv", "wxyz"]
  {
    assert g[0] == "abc" by { RowIs(g, 0, "abc"); }
    assert g[1] == "def" by { RowIs(g, 1, "def"); }
    assert g[2] == "ghi" by { RowIs(g, 2, "ghi"); }
    assert g[3] == "jkl" by { RowIs(g, 3, "jkl"); }
    assert g[4] == "mno" by { RowIs(g, 4, "mno"); }
    assert g[5] == "pqrs" by { RowIs(g, 5, "pqrs"); }
    assert g[6] == "tuv" by { RowIs(g, 6, "tuv"); }
    assert g[7] == "wxyz" by { RowIs(g, 7, "wxyz"); }
  }

  /** Row r of a shaped grid equals `want` when every cell agrees with it. */
  lemma RowIs(g: Grid, r: nat, want: seq<char>)
    requires Shaped(g) && r < KeyCount && |want| == Capacity(r)
    requires forall c :: 0 <= c < Capacity(r) ==> g[r][c] == want[c]
    ensures g[r] == want
  {
  }
}
