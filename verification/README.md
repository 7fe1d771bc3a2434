# dvorak9 search engine in Dafny

dvorak9 searches for a letter layout for a 9-key phone pad. The layout should
make a text corpus cheap to type by multi-tap. The pad has 8 letter keys:
keys 5 and 7 carry four letters and the others carry three, 26 slots in all.
A layout gives each lower-case letter a `(key, position)` slot. The cost of a
text is the sum of the letters' positions, plus 2 whenever a letter is on
the same key as the previous letter. Each worker runs a hill climb that
swaps two letters per iteration and keeps a candidate only if it strictly
improves the score. `same` counts the rejections since the last
improvement. Once it exceeds `SAMELIMIT`, that is after 1797 rejections in a
row, the next iteration restarts from the alphabetical layout. `main` splits
the iteration budget over one worker per CPU. It collects each worker's
final report and outputs the layout with the least score. Only the curses
display (`-f`) lets `main` get that far; see "Findings".

This project models that engine as pure functions over immutable values and
proves properties of it:

- `results.dfy`, module `Results`: `Option` (Python's `None`) and `Result`
  (an operation that may raise).
- `layout.dfy`, module `Layout`: the keypad shape and letters.
  - A layout is a `seq<Slot>` indexed by letter ordinal.
  - `IsLayout` says the layout is a total bijection from the 26 letters onto
    the 26 slots.
  - `Canonical` is the alphabetical layout, defined slot by slot.
  - `CreateKeyboard` is the `create_keyboard` loop. It is proved to build
    exactly `Canonical`.
- `mutation.dfy`, module `Mutation`: `swapkeys`. The two letters that
  `random.choice` would draw are parameters.
- `score.dfy`, module `Score`: `get_score` as a left fold, and reference
  definitions the fold is proved against.
- `keylist.dfy`, module `Keylist`: `keylist`, the key → letters grid.
- `search.dfy`, module `Search`: the loop of `run_experiment`.
  - The loop is a state-transition function `Step` over the loop variables
    `cur_best`, `cur_best_score`, `best`, `best_score` and `same`.
  - Each iteration's two letters are passed in as one `Pick` per iteration.
  - `float("+inf")` is modelled by `Cost.Inf`.
- `coordinator.dfy`, module `Coordinator`: the arithmetic of `main`. This is
  the budget split, the `results` table filled from the workers' final
  reports, and the `min` reduction.
  - `Coordinate` uses the corrected polling loop `Poll`. `PollAsWritten`
    keeps the loop as written, which raises on QuietUI and DefaultUI (see
    "Findings").

Modelling choices that follow the code:

- `same` starts as `False`. Python compares and adds `False` as 0, so the
  model starts it at 0.
- With `n <= 0` (including `tries < cpu_count()`), `range(1, n + 1)` is empty.
  `i` is then unbound when the final report is built (dvorak9.py:123), so
  `RunExperiment` returns `Failure(IterationUnbound)`.
  - The worker's row in `results` then stays at `+inf` / `None`.
  - When every row is `+inf` / `None`, `min` returns the first row, whose
    layout is `None`. `Coordinate` returns `Entry(Inf, None)` in that case.
    The default `human` format and `keylist` then raise, because `None` has
    no `items`. `-d` prints `None`.
- The polling loop in `main` stops once no worker process is alive. A final
  report still unread at that point is lost. `Coordinate` takes a `read`
  flag per worker to cover both outcomes.
- Every iteration scores a swap of its base, and nothing forces the
  canonical layout itself to be scored. The picks can lead back to it: a
  self-swap from a canonical base (`Search.SelfSwapScoresCanonical`), or
  the first iteration's two letters drawn again on the second
  (`Search.SwapBackScoresCanonical`). So nothing bounds a worker's best
  score by the canonical layout's score.
  `Search.BestMayExceedCanonical` gives the input: the text `"a"` with one
  iteration that swaps `a` and `c` ends with best score 2, while the
  canonical layout scores 0.
- Characters outside `a`–`z` neither cost anything nor reset the previous
  key. For example, `"a a"` costs 2 on the canonical layout.
- Python's `//` floors. For the positive divisor `cpu_count()`, Dafny's `/`
  gives the same result, and `WorkerBudget` states the floor property
  directly.

## Model

| member | source | states |
|---|---|---|
| Layout.CanonicalIsLayout | dvorak9.py:32-44 | the alphabetical layout is a total bijection from the 26 letters onto the slots {(k,p) : k < 8, p < 4 if k is 5 or 7, else p < 3}, and letter number m sits in the m-th slot of left-to-right fill order |
| Layout.CreateKeyboard | dvorak9.py:32-44 | the loop that advances the position modulo 3 (4 on keys 5 and 7) and moves to the next key when it wraps builds exactly the fill-order layout, and the result is a bijection onto the slots |
| Keylist.KeylistCanonical | dvorak9.py:32-44 | the canonical layout puts abc, def, ghi, jkl, mno, pqrs, tuv, wxyz on keys 0..7 |
| Mutation.Swap | dvorak9.py:47-52 | the result gives l1 the old slot of l2 and l2 the old slot of l1, leaves every other letter's slot unchanged, and holds the same multiset of slots |
| Mutation.SwapPreservesLayout | dvorak9.py:47-52 | swapping any two letters of a bijective layout yields a bijective layout |
| Mutation.SwapTwice | dvorak9.py:51 | swapping the same two letters twice restores the layout |
| Mutation.SwapSameLetter | dvorak9.py:49-51 | when both draws give the same letter the layout is unchanged |
| Mutation.SwapSymmetric | dvorak9.py:49-51 | the order of the two draws does not matter |
| Score.GetScore | dvorak9.py:55-65 | an empty text scores 0 |
| Score.FoldIgnoresNonLetters | dvorak9.py:58-64 | from any loop state, running the loop over a text gives the same score and the same previous key as running it over the text's letters alone |
| Score.ScoreIgnoresNonLetters | dvorak9.py:58-64 | the score of a text equals the score of the text with every character outside a..z removed |
| Score.DropNonLetter | dvorak9.py:57-64 | deleting one non-letter anywhere in the text leaves the score unchanged, so such a character does not reset the previous key |
| Score.FoldBound | dvorak9.py:58-64 | on a layout whose slots are all on the pad, each letter adds between 0 and 5 to the running score |
| Score.ScoreBound | dvorak9.py:55-65 | the score is at most 5 times the number of a..z characters in the text |
| Score.FoldClosedForm | dvorak9.py:58-64 | on a letters-only text, the loop adds the sum of positions, 2 per adjacent same-key pair, and 2 more if the first letter repeats the key held in the state |
| Score.ScoreClosedForm | dvorak9.py:56-64 | the score equals the sum of the letters' positions plus 2 for each adjacent pair of letters (non-letters dropped) on the same key |
| Score.ScoreExamples | dvorak9.py:55-65 | on the canonical layout "aabba" scores 0+2+3+3+2 = 10 and "a a" scores 2 |
| Keylist.Keylist | dvorak9.py:68-71 | the grid has 8 rows, rows 5 and 7 with four cells and the others with three |
| Keylist.FillWritten | dvorak9.py:72-73 | after the first n letters are written, each of them that no later one overwrote is in its slot's cell |
| Keylist.FillBlank | dvorak9.py:69-73 | after the first n letters are written, a cell none of them maps to still holds a blank |
| Keylist.KeylistOfLayout | dvorak9.py:68-74 | for a bijective layout every cell of the grid holds a letter, and the cell of each letter's slot holds exactly that letter |
| Search.CandidateBase | dvorak9.py:99-112 | an iteration swaps from `create_keyboard()` once same exceeds SAMELIMIT and from cur_best otherwise; after a restart the candidate is always accepted |
| Search.RestartThreshold | dvorak9.py:99-122 | a rejection adds 1 to same, and it makes the next iteration restart exactly when same was already SAMELIMIT, i.e. after SAMELIMIT + 1 rejections in a row |
| Search.SelfSwapScoresCanonical | dvorak9.py:92-112 | drawing the same letter twice on the first iteration scores the canonical layout itself |
| Search.SwapBackScoresCanonical | dvorak9.py:98-113 | the first iteration always accepts, so its swap becomes cur_best without a restart; drawing the same two letters on the second iteration scores the canonical layout again |
| Search.StepOrder | dvorak9.py:98-122 | when best_score <= cur_best_score at the top of an iteration, it still holds after it, and best_score ends at most the candidate's score whether the candidate is accepted or not |
| Search.Step | dvorak9.py:98-122 | one iteration leaves same at most SAMELIMIT + 1 and never raises best_score; without a restart cur_best_score does not rise; after a restart the candidate is always accepted; an accepted candidate becomes cur_best with its score and same 0, and also becomes best exactly when it is strictly below best_score, best being kept on a tie; a rejected one keeps best and the (after a restart, reset) current best, and same grows by 1 |
| Search.InitInv | dvorak9.py:91-97 | the initial state satisfies the loop invariant |
| Search.StepInv | dvorak9.py:98-122 | an iteration keeps both layouts bijective and each finite score equal to its layout's score. It keeps an infinite cur_best_score paired with the canonical layout, keeps best_score <= cur_best_score and same <= SAMELIMIT + 1. It leaves best_score finite and at most the candidate's score |
| Search.Iterate | dvorak9.py:98-122 | over any sequence of iterations best_score never rises, and best_score <= cur_best_score is kept |
| Search.IterateInv | dvorak9.py:98-122 | over any number of iterations the invariant holds and best_score never increases; after at least one iteration it is finite |
| Search.IterateBelowScores | dvorak9.py:112-122 | the final best_score is at most the score of every candidate evaluated |
| Search.IterateBestSeen | dvorak9.py:114-120 | the final best_score is the starting one or the score of some candidate evaluated |
| Search.RunExperiment | dvorak9.py:90-126 | a run raises exactly when n <= 0. Otherwise it reports iteration n and a bijective best layout whose score is its true score. That score is the least of all candidate scores evaluated |
| Search.OneSwapOnA | dvorak9.py:98-122 | on the text "a", from a fresh state on any layout with a and c at positions 0 and 2 of key 0, one iteration swapping a and c accepts the swap as both cur_best and best, with score 2 |
| Search.BestMayExceedCanonical | dvorak9.py:93-120 | a worker's best score is not bounded by the canonical layout's score: on "a", one iteration swapping a and c ends with best score 2 although the canonical layout scores 0 |
| Coordinator.WorkerBudget | dvorak9.py:341 | n is the floor of tries / cpus: n*cpus <= tries < n*cpus + cpus, so the workers together run at most tries iterations and drop a remainder below cpus |
| Coordinator.Runs | dvorak9.py:341-344 | every worker runs on the same text and budget n; each raises exactly when n <= 0, and otherwise reports n iterations and a bijective best layout with its true score, at most every candidate score it evaluated |
| Coordinator.PollAsWritten | dvorak9.py:361-374 | the polling loop as written raises exactly when the display has no `update` (QuietUI, DefaultUI) and some final report is read; so on those displays it either raises or leaves every row at +inf / None, and no layout can be printed |
| Coordinator.PlainUiRaises | dvorak9.py:353-374 | with one worker whose final report is read, QuietUI and DefaultUI make `main` raise, while CursesUI and the corrected loop yield a row holding the worker's layout |
| Coordinator.Poll | dvorak9.py:345-370 | the corrected polling loop gives every display the same table: each row is a read worker's bijective best layout with its true score, at most every candidate score that worker evaluated, or the initial +inf / None row when the budget is not positive or the report was not read; it agrees with the loop as written wherever that one does not raise |
| Coordinator.Table | dvorak9.py:341-370 | the `results` table holds one row per CPU, each as the corrected polling loop describes |
| Coordinator.MinFrom | dvorak9.py:388 | the left-to-right scan that replaces the current minimum only by a strictly smaller score ends at a least-score row that is strictly below every earlier row |
| Coordinator.FirstMin | dvorak9.py:388 | min returns the first row of least score, and nothing for an empty table |
| Coordinator.EntryFacts | dvorak9.py:341-370 | each row is either the initial +inf / None row, or a read worker's bijective best layout with its true score, at most every candidate score that worker evaluated |
| Coordinator.ReducedEntry | dvorak9.py:341-388 | the selected row is the initial row when no worker could report. Otherwise it is a bijective layout with its true score, at most every candidate score of every read worker |
| Coordinator.Coordinate | dvorak9.py:341-388 | the output row is the row `min` returns from the table (the first of least score). With a positive budget and some report read, it is a bijective layout with its true score, at most any candidate score a read worker evaluated. With no positive budget or no report read, it is +inf with no layout |
| Coordinator.FirstMinExamples | dvorak9.py:388 | scores 12, 7, 19 reduce to the row scoring 7; ties go to the first row; a row left at +inf never beats a finite one |

## Findings

| source | as written | input that shows it | evidently intended | confidence | as-written member | corrected member |
|---|---|---|---|---|---|---|
| dvorak9.py:353-367 | the polling loop calls `ui.update(data)`, but QuietUI and DefaultUI define only `update_thread`, so the first message read raises AttributeError and `main` re-raises it | `tries` at least the CPU count, without `-f`: the first report read ends the program before any row of `results` is filled | QuietUI ignores the message and DefaultUI prints its progress line, and the rows are filled as with CursesUI | high, not executed | Coordinator.PollAsWritten, Coordinator.PlainUiRaises | Coordinator.Poll |

## Left out

- `remove_accents` (dvorak9.py:26-29): it relies on Unicode NFKD normalisation, a foreign library. The model takes the text as an arbitrary `seq<char>`.
- Randomness in `swapkeys` (`random.choice`): the two letters are parameters, one `Pick` per iteration. No claim is made about how they are distributed.
- The timed progress reports (dvorak9.py:106-111) and the queue: they are wall-clock and inter-process messaging. They do not affect the search state. The content of the final report (dvorak9.py:123-126) is modelled as `Report`.
- Processes, the queue, the polling loop and exception handling in `main` (dvorak9.py:342-374): concurrency is not modelled. Each worker is a call of `RunExperiment`. Whether a worker's final report was read is a parameter. `Coordinator.Collect` only copies a read report into its row; what a row then holds is stated on `Coordinator.Poll` and `Coordinator.EntryFacts`.
- `QuietUI`, `DefaultUI`, `CursesUI` (dvorak9.py:129-285): terminal display.
- `human` (dvorak9.py:77-87): display formatting that depends on Python's `str.center`.
- `create_parser`, reading `data.txt`, lower-casing, output formats, the output file and its backup (dvorak9.py:288-391): command line and I/O.
- Keylist.Keylist: requires every slot to be on the pad. The IndexError the source raises for an off-pad slot is not modelled, because every layout the program builds is on the pad.
- Score.GetScore: requires a layout with all 26 letters. The KeyError for a missing letter is not modelled, because every layout the program builds is total.
- Coordinator.PollAsWritten: raises only when a final report is read. The same AttributeError also follows a progress report read first, and progress reports are not modelled.
- Mutation.Swap: requires a layout with all 26 letters, because `random.choice` draws from the layout's own keys.
