/** The arithmetic of `main` around the workers: the split of the iteration
    budget, the table of final reports, and the min-reduction that picks
    the layout to output.  Processes and the queue are not modelled: each
    worker's run is a call of RunExperiment, and whether its final report
    was read is a flag.  Of the displays, only whether the class has the
    `update` method the polling loop calls is modelled. */
module Coordinator {
  import opened Results
  import opened Layout
  import opened Score
  import opened Search

  /** `int(args.tries) // multiprocessing.cpu_count()`.  Python's `//`
      floors; with a positive divisor Dafny's `/` does the same. */
  function WorkerBudget(tries: int, cpus: nat): (n: int)
    requires cpus >= 1
    ensures n * cpus <= tries < n * cpus + cpus
    ensures tries >= 0 ==> n >= 0
  {
    tries / cpus
  }

  /** One row of `results`: a worker's best score and layout, or the
      initial `+inf` / None when no final report arrived. */
  datatype Entry = Entry(score: Cost, keyboard: Option<seq<Slot>>)

  /** Each worker's run, worker w using the picks picks[w]: every worker
      raises when the budget n is not positive, and otherwise reports n
      iterations and a bijective best layout with its true score, at most
      every candidate score it evaluated. */
  function Runs(text: seq<char>, n: int, picks: seq<seq<Pick>>): (r: seq<Result<Report, RunError>>)
    requires forall w :: 0 <= w < |picks| ==> |picks[w]| == Iterations(n)
    ensures |r| == |picks|
    ensures forall w :: 0 <= w < |picks| ==> r[w] == RunExperiment(text, n, picks[w])
    ensures forall w :: 0 <= w < |picks| ==> WorkerOutcome(text, n, picks[w], r[w])
  {
    var r := seq(|picks|, w requires 0 <= w < |picks| => RunExperiment(text, n, picks[w]));
    assert forall w :: 0 <= w < |picks| ==> WorkerOutcome(text, n, picks[w], r[w]) by {
      forall w | 0 <= w < |picks|
        ensures WorkerOutcome(text, n, picks[w], r[w])
      {
        RunOutcome(text, n, picks[w]);
      }
    }
    r
  }

  /** What one worker's run promises: it raises exactly when the budget n
      is not positive, and otherwise reports n iterations and a bijective
      best layout with its true score, at most every candidate score it
      evaluated. */
  ghost predicate WorkerOutcome(text: seq<char>, n: int, ws: seq<Pick>, res: Result<Report, RunError>) {
    && (res.Failure? <==> n <= 0)
    && (res.Success? ==>
          && res.value.iteration == n && IsLayout(res.value.best)
          && res.value.bestScore == Fin(GetScore(res.value.best, text))
          && BelowAll(res.value.bestScore, Scores(text, Init(), ws)))
  }

  lemma RunOutcome(text: seq<char>, n: int, ws: seq<Pick>)
    requires |ws| == Iterations(n)
    ensures WorkerOutcome(text, n, ws, RunExperiment(text, n, ws))
  {
    var res := RunExperiment(text, n, ws);
    if res.Success? {
      forall j | 0 <= j < |ws|
        ensures AtMost(res.value.bestScore, Fin(Scores(text, Init(), ws)[j]))
      {
        assert res.value.bestScore.value <= Scores(text, Init(), ws)[j];
      }
    }
  }

  /** c is at most every score in scores. */
  ghost predicate BelowAll(c: Cost, scores: seq<nat>) {
    forall j :: 0 <= j < |scores| ==> AtMost(c, Fin(scores[j]))
  }

  /** What a worker's row may hold: its best layout, bijective and with its
      true score, at most every candidate score it evaluated, when its
      final report was read and the budget was positive; the initial
      `+inf` / None row otherwise. */
  ghost predicate RowFacts(text: seq<char>, n: int, ws: seq<Pick>, wasRead: bool, e: Entry) {
    if n > 0 && wasRead then
      && e.keyboard.Some? && IsLayout(e.keyboard.value)
      && e.score == Fin(GetScore(e.keyboard.value, text))
      && BelowAll(e.score, Scores(text, Init(), ws))
    else
      e == Entry(Inf, None)
  }

  /** The `results` table when the polling loop ends: a worker's row is
      filled in from its final report if that report was read off the queue
      (read[w]); a worker that raised, or whose report was still unread when
      the last process ended, keeps its initial row. */
  function Collect(reports: seq<Result<Report, RunError>>, read: seq<bool>): (es: seq<Entry>)
    requires |read| == |reports|
    ensures |es| == |reports|
    ensures forall w :: 0 <= w < |reports| && read[w] && reports[w].Success? ==>
              es[w] == Entry(reports[w].value.bestScore, Some(reports[w].value.best))
    ensures forall w :: 0 <= w < |reports| && !(read[w] && reports[w].Success?) ==>
              es[w] == Entry(Inf, None)
  {
    seq(|reports|, w requires 0 <= w < |reports| =>
      if read[w] && reports[w].Success? then Entry(reports[w].value.bestScore, Some(reports[w].value.best))
      else Entry(Inf, None))
  }

  /** The three displays `main` can choose between. */
  datatype Ui = QuietUi | DefaultUi | CursesUi

  /** Whether the display class has the `update` method the polling loop
      calls on every message: QuietUI defines only `update_thread`,
      DefaultUI inherits from QuietUI, and only CursesUI defines `update`. */
  predicate HasUpdate(ui: Ui) {
    ui.CursesUi?
  }

  /** `ui.update(data)` on a display without `update` raises
      AttributeError, which `main` re-raises after `ui.exit()`. */
  datatype MainError = NoUpdateMethod

  /** Whether some worker's final report is on the queue and read: a
      worker that raised put no report there. */
  predicate SomeReportRead(reports: seq<Result<Report, RunError>>, read: seq<bool>)
    requires |read| == |reports|
  {
    exists w :: 0 <= w < |reports| && read[w] && reports[w].Success?
  }

  /** The polling loop as written: the first message read is handed to
      `ui.update`, so on QuietUI and DefaultUI it raises before any row of
      `results` is filled. */
  function PollAsWritten(ui: Ui, reports: seq<Result<Report, RunError>>, read: seq<bool>)
    : (r: Result<seq<Entry>, MainError>)
    requires |read| == |reports|
    ensures r.Failure? <==> !HasUpdate(ui) && SomeReportRead(reports, read)
    ensures r.Success? ==> r.value == Collect(reports, read)
    ensures !HasUpdate(ui) ==>
              r.Failure? || forall w :: 0 <= w < |r.value| ==> r.value[w] == Entry(Inf, None)
  {
    if !HasUpdate(ui) && SomeReportRead(reports, read) then Failure(NoUpdateMethod)
    else Success(Collect(reports, read))
  }

  /** The polling loop as evidently intended: every display accepts the
      message (QuietUI ignores it, DefaultUI prints the progress line its
      `update_thread` formats), and the rows are filled the same way
      whatever the display.  Each row then holds what its worker's run
      promises, and where the loop as written does not raise, the two
      agree. */
  function Poll(ui: Ui, text: seq<char>, n: int, picks: seq<seq<Pick>>, read: seq<bool>): (es: seq<Entry>)
    requires forall w :: 0 <= w < |picks| ==> |picks[w]| == Iterations(n)
    requires |read| == |picks|
    ensures |es| == |picks|
    ensures forall w :: 0 <= w < |picks| ==> RowFacts(text, n, picks[w], read[w], es[w])
    ensures forall u: Ui :: PollAsWritten(u, Runs(text, n, picks), read).Success? ==>
              PollAsWritten(u, Runs(text, n, picks), read).value == es
    ensures HasUpdate(ui) ==> PollAsWritten(ui, Runs(text, n, picks), read) == Success(es)
  {
    var es := Collect(Runs(text, n, picks), read);
    assert forall w :: 0 <= w < |picks| ==> RowFacts(text, n, picks[w], read[w], es[w]) by {
      forall w | 0 <= w < |picks|
        ensures RowFacts(text, n, picks[w], read[w], es[w])
      {
        EntryFacts(text, n, picks, read, w);
      }
    }
    es
  }

  /** On QuietUI or DefaultUI, a single worker whose final report is read
      makes `main` raise instead of printing its layout; CursesUI prints
      it. */
  lemma PlainUiRaises(text: seq<char>, p: Pick)
    ensures var reports := [RunExperiment(text, 1, [p])];
      && PollAsWritten(QuietUi, reports, [true]) == Failure(NoUpdateMethod)
      && PollAsWritten(DefaultUi, reports, [true]) == Failure(NoUpdateMethod)
      && PollAsWritten(CursesUi, reports, [true]).Success?
      && Poll(DefaultUi, text, 1, [[p]], [true])[0].keyboard.Some?
  {
    var reports := [RunExperiment(text, 1, [p])];
    assert reports[0].Success?;
  }

  /** Python's `min(results, key=score)` from position j on, with the
      minimum of es[..j] at cur: the current minimum is replaced only by a
      strictly smaller score. */
  function MinFrom(es: seq<Entry>, cur: nat, j: nat): (i: nat)
    requires cur < j <= |es|
    requires forall k :: 0 <= k < j ==> AtMost(es[cur].score, es[k].score)
    requires forall k :: 0 <= k < cur ==> Less(es[cur].score, es[k].score)
    ensures cur <= i < |es|
    ensures forall k :: 0 <= k < |es| ==> AtMost(es[i].score, es[k].score)
    ensures forall k :: 0 <= k < i ==> Less(es[i].score, es[k].score)
    decreases |es| - j
  {
    if j == |es| then cur
    else if Less(es[j].score, es[cur].score) then
      assert forall k :: 0 <= k < j ==> Less(es[j].score, es[k].score) by {
        forall k | 0 <= k < j
          ensures Less(es[j].score, es[k].score)
        {
          assert AtMost(es[cur].score, es[k].score);
        }
      }
      MinFrom(es, j, j + 1)
    else
      MinFrom(es, cur, j + 1)
  }

  /** The index `min` returns: the first entry of least score; None for an
      empty table, where `min` raises ValueError. */
  function FirstMin(es: seq<Entry>): (r: Option<nat>)
    ensures r.None? <==> |es| == 0
    ensures r.Some? ==> r.value < |es|
    ensures r.Some? ==> forall k :: 0 <= k < |es| ==> AtMost(es[r.value].score, es[k].score)
    ensures r.Some? ==> forall k :: 0 <= k < r.value ==> Less(es[r.value].score, es[k].score)
  {
    if |es| == 0 then None else Some(MinFrom(es, 0, 1))
  }

  /** The `results` table `main` holds when its polling loop ends: one
      worker per CPU, each running the per-worker budget. */
  function Table(ui: Ui, tries: int, cpus: nat, text: seq<char>, picks: seq<seq<Pick>>,
                 read: seq<bool>): (es: seq<Entry>)
    requires cpus >= 1 && |picks| == cpus && |read| == cpus
    requires forall w :: 0 <= w < cpus ==> |picks[w]| == Iterations(WorkerBudget(tries, cpus))
    ensures |es| == cpus
    ensures forall w :: 0 <= w < cpus ==>
              RowFacts(text, WorkerBudget(tries, cpus), picks[w], read[w], es[w])
  {
    Poll(ui, text, WorkerBudget(tries, cpus), picks, read)
  }

  /** `main` from the budget split to the entry whose layout is printed.
      The result is the first row of least score.  When the budget per
      worker is not positive every worker raises, and when no final report
      was read, the entry printed is the first initial row, with no layout.
      Otherwise it holds a bijective layout with its true score, no larger
      than the score of any candidate a read worker evaluated. */
  function Coordinate(ui: Ui, tries: int, cpus: nat, text: seq<char>, picks: seq<seq<Pick>>,
                      read: seq<bool>): (r: Entry)
    requires cpus >= 1 && |picks| == cpus && |read| == cpus
    requires forall w :: 0 <= w < cpus ==> |picks[w]| == Iterations(WorkerBudget(tries, cpus))
    ensures WorkerBudget(tries, cpus) <= 0 || (forall w :: 0 <= w < cpus ==> !read[w]) ==>
              r == Entry(Inf, None)
    ensures WorkerBudget(tries, cpus) > 0 && (exists w :: 0 <= w < cpus && read[w]) ==>
              r.keyboard.Some? && IsLayout(r.keyboard.value) &&
              r.score == Fin(GetScore(r.keyboard.value, text))
    ensures forall w :: 0 <= w < cpus && read[w] ==> BelowAll(r.score, Scores(text, Init(), picks[w]))
    ensures var es := Table(ui, tries, cpus, text, picks, read);
              exists i :: 0 <= i < cpus && r == es[i] && FirstMin(es) == Some(i)
  {
    var es := Table(ui, tries, cpus, text, picks, read);
    var i := FirstMin(es).value;
    ReducedEntry(text, WorkerBudget(tries, cpus), picks, read, es, i);
    es[i]
  }

  /** What a row of the table holds: the initial row, or the best layout of
      a worker whose report was read, with its true score, at most the
      score of every candidate that worker evaluated. */
  lemma EntryFacts(text: seq<char>, n: int, picks: seq<seq<Pick>>, read: seq<bool>, w: nat)
    requires forall v :: 0 <= v < |picks| ==> |picks[v]| == Iterations(n)
    requires |read| == |picks| && w < |picks|
    ensures RowFacts(text, n, picks[w], read[w], Collect(Runs(text, n, picks), read)[w])
  {
  }

  /** The row the reduction picks, given that it is the first of least
      score: the initial row when no worker could report, else a read
      worker's best layout with its true score, no larger than any score a
      read worker evaluated. */
  lemma ReducedEntry(text: seq<char>, n: int, picks: seq<seq<Pick>>, read: seq<bool>,
                     es: seq<Entry>, i: nat)
    requires forall v :: 0 <= v < |picks| ==> |picks[v]| == Iterations(n)
    requires |read| == |picks| && |es| == |picks|
    requires forall w :: 0 <= w < |picks| ==> RowFacts(text, n, picks[w], read[w], es[w])
    requires FirstMin(es) == Some(i)
    ensures n <= 0 || (forall w :: 0 <= w < |picks| ==> !read[w]) ==> es[i] == Entry(Inf, None)
    ensures n > 0 && (exists w :: 0 <= w < |picks| && read[w]) ==>
              es[i].keyboard.Some? && IsLayout(es[i].keyboard.value) &&
              es[i].score == Fin(GetScore(es[i].keyboard.value, text))
    ensures forall w :: 0 <= w < |picks| && read[w] ==>
              BelowAll(es[i].score, Scores(text, Init(), picks[w]))
  {
    assert RowFacts(text, n, picks[i], read[i], es[i]);
    if n > 0 && exists w :: 0 <= w < |picks| && read[w] {
      var w :| 0 <= w < |picks| && read[w];
      assert RowFacts(text, n, picks[w], read[w], es[w]);
      LeastIsFinite(es, i, w);
    }
    forall w | 0 <= w < |picks| && read[w]
      ensures BelowAll(es[i].score, Scores(text, Init(), picks[w]))
    {
      var sc := Scores(text, Init(), picks[w]);
      assert RowFacts(text, n, picks[w], read[w], es[w]);
      assert AtMost(es[i].score, es[w].score);
      assert n <= 0 ==> sc == [];
      forall j | 0 <= j < |sc|
        ensures AtMost(es[i].score, Fin(sc[j]))
      {
        AtMostTrans(es[i].score, es[w].score, Fin(sc[j]));
      }
    }
  }

  lemma LeastIsFinite(es: seq<Entry>, i: nat, w: nat)
    requires i < |es| && w < |es|
    requires forall k :: 0 <= k < |es| ==> AtMost(es[i].score, es[k].score)
    requires es[w].score.Fin?
    ensures es[i].score.Fin?
  {
    assert AtMost(es[i].score, es[w].score);
  }

  /** Worker results scoring 12, 7 and 19 reduce to the second one; on a
      tie the first wins; a worker that reported nothing never beats one
      that did. */
  lemma FirstMinExamples(a: seq<Slot>, b: seq<Slot>, c: seq<Slot>)
    ensures FirstMin([Entry(Fin(12), Some(a)), Entry(Fin(7), Some(b)), Entry(Fin(19), Some(c))]) == Some(1)
    ensures FirstMin([Entry(Fin(7), Some(a)), Entry(Fin(7), Some(b))]) == Some(0)
    ensures FirstMin([Entry(Inf, None), Entry(Fin(7), Some(b))]) == Some(1)
  {
  }
}
