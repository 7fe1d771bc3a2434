/** The cost function `get_score`: a left fold over the text that charges
    each letter its position on its key, plus 2 when it is on the same key as
    the previous letter.  Characters outside a..z cost nothing and do not
    reset the previous key. */
module Score {
  import opened Results
  import opened Layout

  /** The loop state: the running score and the key of the last letter
      typed (None before the first letter). */
  datatype Tally = Tally(score: nat, oldKey: Option<nat>)

  /** One pass of the loop body on character c. */
  function Tap(k: seq<Slot>, t: Tally, c: char): Tally
    requires |k| == AlphabetSize
  {
    if IsLetter(c) then
      var s := k[Ord(c)];
      var penalty := if t.oldKey == Some(s.key) then 2 else 0;
      Tally(t.score + penalty + s.pos, Some(s.key))
    else
      t
  }

  /** The loop over the whole text, from the given state. */
  function Fold(k: seq<Slot>, t: Tally, text: seq<char>): Tally
    requires |k| == AlphabetSize
    decreases |text|
  {
    if text == [] then t else Fold(k, Tap(k, t, text[0]), text[1..])
  }

  /** `get_score`. */
  function GetScore(k: seq<Slot>, text: seq<char>): (r: nat)
    requires |k| == AlphabetSize
    ensures text == [] ==> r == 0
  {
    Fold(k, Tally(0, None), text).score
  }

  predicate AllLetters(w: seq<char>) {
    forall i :: 0 <= i < |w| ==> IsLetter(w[i])
  }

  /** The letters of the text, in order, with every other character dropped. */
  function LettersOf(text: seq<char>): (w: seq<char>)
    ensures AllLetters(w) && |w| <= |text|
  {
    if text == [] then []
    else if IsLetter(text[0]) then [text[0]] + LettersOf(text[1..])
    else LettersOf(text[1..])
  }

  lemma {:induction false} LettersOfAppend(u: seq<char>, v: seq<char>)
    ensures LettersOf(u + v) == LettersOf(u) + LettersOf(v)
  {
    if u == [] {
      assert u + v == v;
    } else {
      assert (u + v)[0] == u[0];
      assert (u + v)[1..] == u[1..] + v;
      LettersOfAppend(u[1..], v);
    }
  }

  /** Reference definition: the sum of the positions of the letters of w. */
  function SumPos(k: seq<Slot>, w: seq<char>): nat
    requires |k| == AlphabetSize && AllLetters(w)
  {
    if w == [] then 0 else k[Ord(w[0])].pos + SumPos(k, w[1..])
  }

  /** Reference definition: how many adjacent letters of w share a key. */
  function SameKeyPairs(k: seq<Slot>, w: seq<char>): nat
    requires |k| == AlphabetSize && AllLetters(w)
  {
    if |w| < 2 then 0
    else (if k[Ord(w[0])].key == k[Ord(w[1])].key then 1 else 0) + SameKeyPairs(k, w[1..])
  }

  /** Dropping the non-letters changes neither the score nor the last key. */
  lemma {:induction false} FoldIgnoresNonLetters(k: seq<Slot>, t: Tally, text: seq<char>)
    requires |k| == AlphabetSize
    ensures Fold(k, t, text) == Fold(k, t, LettersOf(text))
    decreases |text|
  {
    if text != [] {
      FoldIgnoresNonLetters(k, Tap(k, t, text[0]), text[1..]);
      if IsLetter(text[0]) {
        assert LettersOf(text)[1..] == LettersOf(text[1..]);
      }
    }
  }

  /** The score of a text is the score of its letters alone. */
  lemma ScoreIgnoresNonLetters(k: seq<Slot>, text: seq<char>)
    requires |k| == AlphabetSize
    ensures GetScore(k, text) == GetScore(k, LettersOf(text))
  {
    FoldIgnoresNonLetters(k, Tally(0, None), text);
  }

  /** Deleting one non-letter anywhere in the text leaves the score as it
      was: such a character does not reset the previous key. */
  lemma DropNonLetter(k: seq<Slot>, u: seq<char>, c: char, v: seq<char>)
    requires |k| == AlphabetSize && !IsLetter(c)
    ensures GetScore(k, u + [c] + v) == GetScore(k, u + v)
  {
    var w := u + [c] + v;
    assert LettersOf([c]) == LettersOf([c][1..]) == [];
    assert w == (u + [c]) + v;
    LettersOfAppend(u + [c], v);
    LettersOfAppend(u, [c]);
    LettersOfAppend(u, v);
    assert LettersOf(w) == LettersOf(u + v);
    ScoreIgnoresNonLetters(k, w);
    ScoreIgnoresNonLetters(k, u + v);
  }

  /** Each letter adds between 0 and 5 to the score. */
  lemma {:induction false} FoldBound(k: seq<Slot>, t: Tally, text: seq<char>)
    requires WellShaped(k)
    ensures t.score <= Fold(k, t, text).score <= t.score + 5 * |LettersOf(text)|
    decreases |text|
  {
    if text != [] {
      FoldBound(k, Tap(k, t, text[0]), text[1..]);
    }
  }

  /** The score is at most 5 times the number of letters in the text. */
  lemma ScoreBound(k: seq<Slot>, text: seq<char>)
    requires WellShaped(k)
    ensures GetScore(k, text) <= 5 * |LettersOf(text)|
  {
    FoldBound(k, Tally(0, None), text);
  }

  /** On a text of letters, the fold adds the positions, 2 per adjacent
      same-key pair, and 2 more when the first letter repeats the key held
      in the state. */
  lemma {:induction false} FoldClosedForm(k: seq<Slot>, t: Tally, w: seq<char>)
    requires |k| == AlphabetSize && AllLetters(w)
    ensures Fold(k, t, w).score ==
              t.score + SumPos(k, w) + 2 * SameKeyPairs(k, w)
              + (if w != [] && t.oldKey == Some(k[Ord(w[0])].key) then 2 else 0)
    decreases |w|
  {
    if w != [] {
      FoldClosedForm(k, Tap(k, t, w[0]), w[1..]);
    }
  }

  /** The score is the sum of the positions of the text's letters plus 2
      for each adjacent pair of its letters on the same key. */
  lemma ScoreClosedForm(k: seq<Slot>, text: seq<char>)
    requires |k| == AlphabetSize
    ensures GetScore(k, text) ==
              SumPos(k, LettersOf(text)) + 2 * SameKeyPairs(k, LettersOf(text))
  {
    ScoreIgnoresNonLetters(k, text);
    FoldClosedForm(k, Tally(0, None), LettersOf(text));
  }

  /** On the canonical layout "aabba" costs 0 + 2 + 3 + 3 + 2 = 10, and a
      space between two a's does not reset the key: "a a" costs 2. */
  lemma ScoreExamples()
    ensures GetScore(Canonical(), "aabba") == 10
    ensures GetScore(Canonical(), "a a") == 2
  {
    var k := Canonical();
    assert k[0] == Slot(0, 0) && k[1] == Slot(0, 1);
    ScoreAB(k);
  }

  /** The two examples on any layout that puts a and b first and second on key 0. */
  lemma ScoreAB(k: seq<Slot>)
    requires |k| == AlphabetSize && k[0] == Slot(0, 0) && k[1] == Slot(0, 1)
    ensures GetScore(k, "aabba") == 10
    ensures GetScore(k, "a a") == 2
  {
    assert Ord('a') == 0 && Ord('b') == 1;
    var a, b := Tally(0, Some(0)), Tally(2, Some(0));
    assert "aabba"[1..] == "abba" && "abba"[1..] == "bba" && "bba"[1..] == "ba";
    assert "ba"[1..] == "a" && "a"[1..] == [];
    assert "a a"[1..] == " a" && " a"[1..] == "a";
    calc {
      Fold(k, Tally(0, None), "aabba");
      Fold(k, a, "abba");
      Fold(k, b, "bba");
      Fold(k, Tally(5, Some(0)), "ba");
      Fold(k, Tally(8, Some(0)), "a");
      Fold(k, Tally(10, Some(0)), []);
    }
    calc {
      Fold(k, Tally(0, None), "a a");
      Fold(k, a, " a");
      Fold(k, a, "a");
      Fold(k, b, []);
    }
  }
}
