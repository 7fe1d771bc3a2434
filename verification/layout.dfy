/**
  The keypad shape and letter layouts.

  The pad has 8 keys; keys 5 and 7 hold four letters and every other key
  holds three, 26 slots in all.  A layout gives each of the 26 lower-case
  letters a (key, position) slot; it is stored as a sequence indexed by the
  letter's ordinal ('a' is 0, 'z' is 25).
*/
module Layout {

  const AlphabetSize: nat := 26
  const KeyCount: nat := 8

  /** Membership in `string.ascii_lowercase`. */
  predicate IsLetter(c: char) {
    'a' <= c <= 'z'
  }

  type Letter = c: char | IsLetter(c) witness 'a'

  /** The index of a letter in the alphabet. */
  function Ord(c: Letter): (i: nat)
    ensures i < AlphabetSize
  {
    c as int - 'a' as int
  }

  /** The letter with a given index in the alphabet. */
  function Chr(i: nat): (c: Letter)
    requires i < AlphabetSize
    ensures Ord(c) == i
  {
    ('a' as int + i) as char
  }

  /** A position `pos` (0-based, in taps) on key `key`. */
  datatype Slot = Slot(key: nat, pos: nat)

  /** How many letters a key holds. */
  function Capacity(key: nat): nat {
    if key == 5 || key == 7 then 4 else 3
  }

  predicate ValidSlot(s: Slot) {
    s.key < KeyCount && s.pos < Capacity(s.key)
  }

  /** The number of slots on the keys below `key`: the fill-order index of
      the first slot of `key`. */
  function Start(key: nat): (n: nat)
    requires key <= KeyCount
    ensures key == 0 ==> n == 0
    ensures key == KeyCount ==> n == AlphabetSize
  {
    3 * key + (if key > 5 then 1 else 0) + (if key > 7 then 1 else 0)
  }

  /** The place of a slot in fill order (keys left to right, positions in order). */
  function SlotIndex(s: Slot): (n: nat)
    requires ValidSlot(s)
    ensures n < AlphabetSize
  {
    Start(s.key) + s.pos
  }

  /** Distinct valid slots have distinct fill-order indices. */
  lemma SlotIndexInjective(s: Slot, t: Slot)
    requires ValidSlot(s) && ValidSlot(t)
    requires SlotIndex(s) == SlotIndex(t)
    ensures s == t
  {
    if s.key < t.key {
      StartMonotone(s.key + 1, t.key);
      assert false;
    } else if t.key < s.key {
      StartMonotone(t.key + 1, s.key);
      assert false;
    }
  }

  lemma {:induction false} StartMonotone(a: nat, b: nat)
    requires a <= b <= KeyCount
    ensures Start(a) <= Start(b)
  {
    if a < b {
      StartMonotone(a, b - 1);
    }
  }

  /** The m-th slot in fill order: keys 0..4 take three indices each, then
      key 5 takes four, key 6 three and key 7 four. */
  function CanonicalSlot(m: nat): (s: Slot)
    requires m < AlphabetSize
    ensures ValidSlot(s) && SlotIndex(s) == m
  {
    if m < 3 then Slot(0, m)
    else if m < 6 then Slot(1, m - 3)
    else if m < 9 then Slot(2, m - 6)
    else if m < 12 then Slot(3, m - 9)
    else if m < 15 then Slot(4, m - 12)
    else if m < 19 then Slot(5, m - 15)
    else if m < 22 then Slot(6, m - 19)
    else Slot(7, m - 22)
  }

  /** The canonical layout: letters a..z fill the slots in fill order. */
  function Canonical(): (k: seq<Slot>)
    ensures |k| == AlphabetSize
  {
    seq(AlphabetSize, m requires 0 <= m < AlphabetSize => CanonicalSlot(m))
  }

  /** Every letter has a slot, and every slot is on the pad. */
  ghost predicate WellShaped(k: seq<Slot>) {
    |k| == AlphabetSize && forall i :: 0 <= i < |k| ==> ValidSlot(k[i])
  }

  /** No two letters share a slot. */
  ghost predicate Injective(k: seq<Slot>) {
    forall i, j :: 0 <= i < j < |k| ==> k[i] != k[j]
  }

  /** Some letter sits on slot s. */
  ghost predicate Occupied(k: seq<Slot>, s: Slot) {
    exists i :: 0 <= i < |k| && k[i] == s
  }

  /** Every slot of the pad holds some letter. */
  ghost predicate Onto(k: seq<Slot>) {
    forall s {:trigger Occupied(k, s)} :: ValidSlot(s) ==> Occupied(k, s)
  }

  /** A total bijection from the 26 letters onto the 26 slots of the pad. */
  ghost predicate IsLayout(k: seq<Slot>) {
    WellShaped(k) && Injective(k) && Onto(k)
  }

  /** The canonical layout is a bijection onto the slots, and letter m sits
      in the m-th slot of fill order. */
  lemma CanonicalIsLayout()
    ensures IsLayout(Canonical())
    ensures forall i :: 0 <= i < AlphabetSize ==> SlotIndex(Canonical()[i]) == i
  {
    var k := Canonical();
    forall i, j | 0 <= i < j < |k|
      ensures k[i] != k[j]
    {
      assert SlotIndex(k[i]) == i && SlotIndex(k[j]) == j;
    }
    forall s | ValidSlot(s)
      ensures Occupied(k, s)
    {
      var i := SlotIndex(s);
      SlotIndexInjective(k[i], s);
    }
  }

  /** `create_keyboard`: walks the letters a..z, giving each the current
      (key, position) and advancing the position modulo the key's capacity,
      moving to the next key when it wraps to 0. */
  method CreateKeyboard() returns (k: seq<Slot>)
    ensures k == Canonical()
    ensures IsLayout(k)
  {
    k := [];
    var i: nat, j: nat := 0, 0;
    var n: nat := 0;
    while n < AlphabetSize
      invariant n <= AlphabetSize && |k| == n
      invariant n < AlphabetSize ==> i < KeyCount && j < Capacity(i) && Start(i) + j == n
      invariant forall m :: 0 <= m < n ==> k[m] == CanonicalSlot(m)
    {
      SlotIndexInjective(Slot(i, j), CanonicalSlot(n));
      k := k + [Slot(i, j)];
      if i == 5 || i == 7 {
        j := (j + 1) % 4;
      } else {
        j := (j + 1) % 3;
      }
      assert j == 0 <==> Start(i) + Capacity(i) == n + 1;
      if j == 0 {
        assert Start(i + 1) == n + 1;
        i := i + 1;
      }
      n := n + 1;
    }
    CanonicalIsLayout();
  }
}
