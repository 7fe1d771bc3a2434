/** One search worker (`run_experiment`): a hill climb that accepts a
    candidate only on strict improvement, keeps the best layout since the
    last restart (`cur_best`) and the best ever (`best`), counts stagnant
    iterations in `same`, and restarts from the canonical layout once
    `same` exceeds SameLimit.  The two letters `swapkeys` would draw at
    random are given, one Pick per iteration. */
module Search {
  import opened Results
  import opened Layout
  import opened Mutation
  import opened Score

  /** The stagnation threshold `SAMELIMIT`. */
  const SameLimit: nat := 1796

  /** A score, or the `float("+inf")` sentinel a search starts from. */
  datatype Cost = Inf | Fin(value: nat)

  /** `score < c`. */
  predicate Below(score: nat, c: Cost) {
    c.Inf? || score < c.value
  }

  /** `a <= b`, with Inf above every finite score. */
  predicate AtMost(a: Cost, b: Cost) {
    b.Inf? || (a.Fin? && a.value <= b.value)
  }

  /** `a < b`, with Inf above every finite score and not below itself. */
  predicate Less(a: Cost, b: Cost) {
    a.Fin? && (b.Inf? || a.value < b.value)
  }

  /** The two letters drawn by one call of `swapkeys`. */
  datatype Pick = Pick(first: Letter, second: Letter)

  /** The variables the loop of `run_experiment` carries from one
      iteration to the next. */
  datatype State = State(curBest: seq<Slot>, curBestScore: Cost,
                         best: seq<Slot>, bestScore: Cost, same: nat)

  /** Before the first iteration: both layouts canonical, both scores
      +inf, and `same` False, which Python compares and adds as 0. */
  function Init(): State {
    State(Canonical(), Inf, Canonical(), Inf, 0)
  }

  predicate Restarts(st: State) {
    st.same > SameLimit
  }

  /** The state after the restart check at the top of an iteration. */
  function Rebase(st: State): State {
    if Restarts(st) then st.(curBest := Canonical(), curBestScore := Inf, same := 0) else st
  }

  /** The layout an iteration scores: the base with the picked letters swapped. */
  function Candidate(st: State, p: Pick): seq<Slot>
    requires |st.curBest| == AlphabetSize
  {
    Swap(Rebase(st).curBest, p.first, p.second)
  }

  /** Whether an iteration accepts its candidate. */
  predicate Accepts(text: seq<char>, st: State, p: Pick)
    requires |st.curBest| == AlphabetSize
  {
    Below(GetScore(Candidate(st, p), text), Rebase(st).curBestScore)
  }

  /** One iteration of the loop, less the progress report. */
  function Step(text: seq<char>, st: State, p: Pick): (r: State)
    requires |st.curBest| == AlphabetSize
    ensures |r.curBest| == AlphabetSize
    ensures r.same <= SameLimit + 1
    ensures AtMost(r.bestScore, st.bestScore)
    ensures !Restarts(st) ==> AtMost(r.curBestScore, st.curBestScore)
    ensures Restarts(st) ==> r.same == 0 && r.curBest == Candidate(st, p)
    ensures Accepts(text, st, p) ==>
              r.curBest == Candidate(st, p) && r.curBestScore == Fin(GetScore(r.curBest, text)) && r.same == 0
    ensures !Accepts(text, st, p) ==>
              r.curBest == Rebase(st).curBest && r.curBestScore == Rebase(st).curBestScore &&
              r.best == st.best && r.bestScore == st.bestScore && r.same == Rebase(st).same + 1
    ensures Accepts(text, st, p) && Below(GetScore(Candidate(st, p), text), st.bestScore) ==>
              r.best == Candidate(st, p) && r.bestScore == r.curBestScore
    ensures Accepts(text, st, p) && !Below(GetScore(Candidate(st, p), text), st.bestScore) ==>
              r.best == st.best && r.bestScore == st.bestScore
  {
    var b := Rebase(st);
    var cand := Swap(b.curBest, p.first, p.second);
    var score := GetScore(cand, text);
    if Below(score, b.curBestScore) then
      if Below(score, b.bestScore) then
        State(cand, Fin(score), cand, Fin(score), 0)
      else
        State(cand, Fin(score), b.best, b.bestScore, 0)
    else
      b.(same := b.same + 1)
  }

  lemma AtMostTrans(a: Cost, b: Cost, c: Cost)
    requires AtMost(a, b) && AtMost(b, c)
    ensures AtMost(a, c)
  {
  }

  /** An iteration keeps best_score at most cur_best_score, and then ends
      with best_score at most the candidate's score, whether it accepts or
      not. */
  lemma StepOrder(text: seq<char>, st: State, p: Pick)
    requires |st.curBest| == AlphabetSize
    ensures AtMost(st.bestScore, st.curBestScore) ==>
              AtMost(Step(text, st, p).bestScore, Step(text, st, p).curBestScore)
    ensures AtMost(st.bestScore, st.curBestScore) ==>
              AtMost(Step(text, st, p).bestScore, Fin(GetScore(Candidate(st, p), text)))
  {
  }

  /** The base an iteration swaps from: `create_keyboard()` once `same`
      has passed SameLimit, and cur_best otherwise. */
  lemma CandidateBase(text: seq<char>, st: State, p: Pick)
    requires |st.curBest| == AlphabetSize
    ensures Candidate(st, p) == Swap(if Restarts(st) then Canonical() else st.curBest, p.first, p.second)
    ensures Restarts(st) ==> Accepts(text, st, p)
  {
  }

  /** `same` counts the rejections since the last improvement or restart,
      and the restart fires at the top of the iteration that follows the
      (SameLimit + 1)-th of them: a rejection restarts the next iteration
      exactly when `same` was already SameLimit. */
  lemma RestartThreshold(text: seq<char>, st: State, p: Pick)
    requires |st.curBest| == AlphabetSize
    requires !Restarts(st) && !Accepts(text, st, p)
    ensures Step(text, st, p).same == st.same + 1
    ensures Restarts(Step(text, st, p)) <==> st.same == SameLimit
  {
  }

  /** A draw of the same letter twice from a canonical base scores the
      canonical layout itself, as on the first iteration. */
  lemma SelfSwapScoresCanonical(l: Letter)
    ensures Candidate(Init(), Pick(l, l)) == Canonical()
  {
    SwapSameLetter(Canonical(), l);
  }

  /** A second iteration that draws the same two letters as the first
      swaps them back: it scores the canonical layout from a base that is
      not canonical. */
  lemma SwapBackScoresCanonical(text: seq<char>, x: Letter, y: Letter)
    ensures !Restarts(Step(text, Init(), Pick(x, y)))
    ensures Step(text, Init(), Pick(x, y)).curBest == Swap(Canonical(), x, y)
    ensures Candidate(Step(text, Init(), Pick(x, y)), Pick(x, y)) == Canonical()
  {
    SwapTwice(Canonical(), x, y);
  }

  /** What holds of the loop state at the top of every iteration: both
      layouts are bijections, a finite score is the score of its layout, an
      infinite one goes with the canonical layout, the best score is at most
      the current best, and `same` has not gone past SameLimit + 1. */
  ghost predicate Inv(text: seq<char>, st: State) {
    && IsLayout(st.curBest)
    && IsLayout(st.best)
    && (st.curBestScore.Inf? ==> st.curBest == Canonical())
    && (st.curBestScore.Fin? ==> st.curBestScore.value == GetScore(st.curBest, text))
    && (st.bestScore.Inf? ==> st.best == Canonical())
    && (st.bestScore.Fin? ==> st.bestScore.value == GetScore(st.best, text))
    && AtMost(st.bestScore, st.curBestScore)
    && st.same <= SameLimit + 1
  }

  lemma InitInv(text: seq<char>)
    ensures Inv(text, Init())
  {
    CanonicalIsLayout();
  }

  /** An iteration keeps the invariant, ends with a finite best score, and
      that best score is no larger than the candidate's. */
  lemma StepInv(text: seq<char>, st: State, p: Pick)
    requires Inv(text, st)
    ensures Inv(text, Step(text, st, p))
    ensures Step(text, st, p).bestScore.Fin?
    ensures AtMost(Step(text, st, p).bestScore, Fin(GetScore(Candidate(st, p), text)))
  {
    CanonicalIsLayout();
    SwapPreservesLayout(Rebase(st).curBest, p.first, p.second);
  }

  /** The loop over the given picks, one iteration each.  The best score
      never rises over the run, and the loop keeps best_score at most
      cur_best_score. */
  function Iterate(text: seq<char>, st: State, picks: seq<Pick>): (r: State)
    requires |st.curBest| == AlphabetSize
    ensures |r.curBest| == AlphabetSize
    ensures AtMost(r.bestScore, st.bestScore)
    ensures AtMost(st.bestScore, st.curBestScore) ==> AtMost(r.bestScore, r.curBestScore)
    decreases |picks|
  {
    if picks == [] then st
    else
      StepOrder(text, st, picks[0]);
      Iterate(text, Step(text, st, picks[0]), picks[1..])
  }

  /** The scores of the candidates the loop evaluates, in order. */
  function Scores(text: seq<char>, st: State, picks: seq<Pick>): (r: seq<nat>)
    requires |st.curBest| == AlphabetSize
    ensures |r| == |picks|
    decreases |picks|
  {
    if picks == [] then []
    else [GetScore(Candidate(st, picks[0]), text)] + Scores(text, Step(text, st, picks[0]), picks[1..])
  }

  /** Over any run of iterations the invariant holds throughout, the best
      score never increases, and it is finite once an iteration has run. */
  lemma {:induction false} IterateInv(text: seq<char>, st: State, picks: seq<Pick>)
    requires Inv(text, st)
    ensures Inv(text, Iterate(text, st, picks))
    ensures AtMost(Iterate(text, st, picks).bestScore, st.bestScore)
    ensures picks != [] ==> Iterate(text, st, picks).bestScore.Fin?
    decreases |picks|
  {
    if picks != [] {
      StepInv(text, st, picks[0]);
      IterateInv(text, Step(text, st, picks[0]), picks[1..]);
    }
  }

  /** The best score at the end is at most the score of every candidate
      evaluated on the way. */
  lemma {:induction false} IterateBelowScores(text: seq<char>, st: State, picks: seq<Pick>)
    requires |st.curBest| == AlphabetSize && AtMost(st.bestScore, st.curBestScore)
    ensures forall j :: 0 <= j < |picks| ==>
              AtMost(Iterate(text, st, picks).bestScore, Fin(Scores(text, st, picks)[j]))
    decreases |picks|
  {
    if picks != [] {
      var st' := Step(text, st, picks[0]);
      var r := Iterate(text, st, picks);
      StepOrder(text, st, picks[0]);
      IterateBelowScores(text, st', picks[1..]);
      assert r == Iterate(text, st', picks[1..]);
      var s := Scores(text, st, picks);
      assert s == [GetScore(Candidate(st, picks[0]), text)] + Scores(text, st', picks[1..]);
      AtMostTrans(r.bestScore, st'.bestScore, Fin(s[0]));
    }
  }

  /** The best score at the end is the starting one or the score of some
      candidate evaluated on the way. */
  lemma {:induction false} IterateBestSeen(text: seq<char>, st: State, picks: seq<Pick>)
    requires |st.curBest| == AlphabetSize
    ensures var r := Iterate(text, st, picks);
      r.bestScore == st.bestScore || (r.bestScore.Fin? && r.bestScore.value in Scores(text, st, picks))
    decreases |picks|
  {
    if picks != [] {
      var st' := Step(text, st, picks[0]);
      IterateBestSeen(text, st', picks[1..]);
      var s := Scores(text, st, picks);
      assert s == [GetScore(Candidate(st, picks[0]), text)] + Scores(text, st', picks[1..]);
      if st'.bestScore != st.bestScore {
        assert st'.bestScore == Fin(s[0]);
      }
    }
  }

  /** The message a worker puts on the queue when its loop ends. */
  datatype Report = Report(iteration: int, same: nat, bestScore: Cost, curBestScore: Cost,
                           best: seq<Slot>, curBest: seq<Slot>)

  /** With no iteration, the loop variable `i` is unbound when the final
      report is built, and the worker raises UnboundLocalError. */
  datatype RunError = IterationUnbound

  /** How many iterations `range(1, n + 1)` runs. */
  function Iterations(n: int): nat {
    if n > 0 then n else 0
  }

  /** `run_experiment(id_, q, text, n)`: n iterations, the i-th using picks[i-1]. */
  function RunExperiment(text: seq<char>, n: int, picks: seq<Pick>): (r: Result<Report, RunError>)
    requires |picks| == Iterations(n)
    ensures r.Failure? <==> n <= 0
    ensures r.Success? ==> r.value.iteration == n && IsLayout(r.value.best)
    ensures r.Success? ==> r.value.bestScore == Fin(GetScore(r.value.best, text))
    ensures r.Success? ==> forall j :: 0 <= j < n ==> r.value.bestScore.value <= Scores(text, Init(), picks)[j]
    ensures r.Success? ==> r.value.bestScore.value in Scores(text, Init(), picks)
  {
    if n <= 0 then
      Failure(IterationUnbound)
    else
      InitInv(text);
      IterateInv(text, Init(), picks);
      IterateBelowScores(text, Init(), picks);
      IterateBestSeen(text, Init(), picks);
      var st := Iterate(text, Init(), picks);
      Success(Report(n, st.same, st.bestScore, st.curBestScore, st.best, st.curBest))
  }

  /** Every iteration scores a swap of its base, and nothing forces the
      canonical layout itself to be scored, so nothing bounds the best
      score by the canonical layout's score.  On the text "a", one
      iteration that swaps a and c ends with a best score of 2, above the
      canonical layout's 0. */
  lemma BestMayExceedCanonical()
    ensures GetScore(Canonical(), "a") == 0
    ensures RunExperiment("a", 1, [Pick('a', 'c')]) == Success(Report(1, 0, Fin(2), Fin(2),
              Swap(Canonical(), 'a', 'c'), Swap(Canonical(), 'a', 'c')))
  {
    var k := Canonical();
    assert k[0] == Slot(0, 0) && k[2] == Slot(0, 2);
    assert "a"[1..] == [];
    assert GetScore(k, "a") == Fold(k, Tally(0, Some(0)), []).score == 0;
    OneSwapOnA(k);
  }

  /** On the text "a", one iteration from a layout with a and c at
      positions 0 and 2 of key 0 swaps them and scores 2. */
  lemma OneSwapOnA(k: seq<Slot>)
    requires |k| == AlphabetSize && k[0] == Slot(0, 0) && k[2] == Slot(0, 2)
    ensures Iterate("a", State(k, Inf, k, Inf, 0), [Pick('a', 'c')]) ==
              State(Swap(k, 'a', 'c'), Fin(2), Swap(k, 'a', 'c'), Fin(2), 0)
  {
    var st := State(k, Inf, k, Inf, 0);
    var p := Pick('a', 'c');
    var cand := Swap(k, 'a', 'c');
    assert Ord('a') == 0 && Ord('c') == 2 && cand[0] == Slot(0, 2);
    assert "a"[1..] == [];
    assert GetScore(cand, "a") == Fold(cand, Tally(2, Some(0)), []).score == 2;
    assert Candidate(st, p) == cand;
    assert Step("a", st, p) == State(cand, Fin(2), cand, Fin(2), 0);
    assert [p][1..] == [];
  }
}
