# Physics quiz widget: session, scoring, sampling and result reporting

This project models the logic of a browser quiz in Dafny. The quiz draws five
multiple-choice physics questions and walks the player through them in modal
dialogs. It then grades the run from 1 to 5 and reports the result to a
spreadsheet web app. If that send throws, the result is kept as a local backup,
and the backups can be exported as CSV.

The model has one module per concern:

- `QuizData` (`quiz_data.dfy`): the values shared by everything else. These are
  the question, the answer record, the player's identity, the percentage and
  the result object handed to the reporter.
- `Scoring` (`scoring.dfy`): the pure part of `public/js/modal.js`. It holds
  the answer record, the count of right answers, the grade band, the
  "perfect score" test and the grading of a quiz ended early.
- `Session` (`session.dfy`): the page's global state in `public/js/modal.js`,
  as the class `Quiz`. It has the drawn `questions`, the append-only
  `answers`, the `currentQuestionIndex` cursor, `questionsCompleted`, the
  question whose option buttons are live, the results modal, and the result
  objects handed to the reporter. Its object invariant `Valid()` includes
  `|answers| == currentQuestionIndex`. The methods a caller drives
  (`ShowNextQuestion`, `ClickOption`, `ForceEndQuiz`, `CloseResults`) keep
  it and state the whole new state. `SaveAnswer`, `ResetAnswers`,
  `GetRecommendations` and `ShowRecommendationsModal` are steps inside
  `ClickOption`, and each states only the fields it changes.
  `FourOfFiveScenario` is a check of a whole run: four right answers and one
  wrong one give exactly one report, with 4 of 5 right and grade 4, and an
  early end afterwards changes nothing.
- `Sampling` (`sampling.dfy`): `shuffleArray` and `getQuestions` in
  `public/js/questions.js`. The Fisher–Yates loop runs in place on an array
  copy of the input. Each random draw is a parameter `picks[i]` in `[0, i]`.
- `Text` (`text.dfy`): decimal rendering of whole numbers, `startsWith`,
  `join`, and `split` on one character.
- `Sheets` (`sheets.dfy`): `public/js/sheets.js`. It covers the payload
  defaults, the outcome of a send, `localStorage` as a class over a list of
  entries with one entry per key, the listing of backups newest first, and
  the CSV export.

Percentages are exact fractions (`Percent = NaN | Ratio(num, den)`). The
source's test `percentage >= 90` becomes `num >= 90 * den`. A `NaN` percentage
fails every comparison, as in JavaScript. `getRecommendations` on no answers
computes `0 / 0`, so its grade is 1.

The model follows the code as written:

- An early end (`forceEndQuiz`) does not reset the session. The answers are
  reset only when its results screen is closed.
- The guard of `forceEndQuiz` is only "the results modal is not displayed".
- The `total` reported by an early end is the number of answers recorded,
  not the number of questions.

## Model

| member | source | states |
|---|---|---|
| `Scoring.AnswerFor` | public/js/modal.js:131-137 | the record of a click: `isCorrect` iff the chosen index equals `correctAnswer`; question id, index and chosen option text (none when the index is out of range) |
| `Scoring.CountCorrect` | public/js/modal.js:207 | the count of correct answers is at most the number of answers; it equals it iff every answer is correct, and is 0 iff none is |
| `Scoring.BandOf` | public/js/modal.js:210-216 | the grade is in 1..5; it is 5 iff the percentage is at least 90, and 1 iff it is below 30 (NaN included) |
| `Scoring.BandIsHighestReached` | public/js/modal.js:212-216 | against a separate table of lowest percentages (0, 30, 50, 70, 90): the band is the highest one reached, with inclusive boundaries |
| `Scoring.ScorePercentage` | public/js/modal.js:206-210 | the percentage of `correct` right answers out of `total` recorded is NaN exactly when nothing was recorded (`0 / 0`); otherwise it is `100 * correct / total`, at most 100, and reaches 100 exactly when every answer is right |
| `Scoring.Grade` | public/js/modal.js:206-216 | the grade of `correct` out of `total` is in 1..5, and is 1 when there are no answers (0/0 is NaN) |
| `Scoring.GradeMonotone` | public/js/modal.js:210-216 | for a fixed total, more right answers never give a lower grade |
| `Scoring.BandBoundaries` | public/js/modal.js:212-215 | exactly 90, 70, 50 and 30 reach bands 5, 4, 3 and 2; 89.999, 69.999, 49.999 and 29.999 fall one band lower |
| `Scoring.FiveQuestionGrades` | public/js/modal.js:210-216 | with five questions, 0..5 right answers give grades 1, 1, 2, 3, 4, 5 |
| `Scoring.PerfectIffTopBand` | public/js/modal.js:149-152 | the "perfect score" title and button are chosen exactly when the grade is 5 |
| `Scoring.ForcedPercentage` | public/js/modal.js:354-355 | the early-end percentage is a number, 0 when nothing was answered, and otherwise the same ratio as a normal end |
| `Scoring.ForcedGrade` | public/js/modal.js:356-366 | with fewer answers than questions the early-end grade is 1 whatever the accuracy; otherwise it equals the normal grade |
| `Scoring.CompletionData` | public/js/modal.js:204-228 | the object a normal end reports: the player's name, e-mail and grade; total equals the number of answers; the count of right answers; the percentage of that count; the grade of that percentage, in 1..5 and 5 iff perfect score; no early-end marker |
| `Scoring.ForcedData` | public/js/modal.js:352-380 | the object an early end reports: the player's identity, the reason, the answers so far as total, their count of right answers, the early-end percentage (0 with no answers) and the early-end grade: 1 with unanswered questions, otherwise the normal-end grade |
| `Scoring.PenaltyIgnoresAccuracy` | public/js/modal.js:356-360 | two of two answered correctly with five questions drawn: the early-end grade is 1, although the same answers would grade 5 |
| `Session.Quiz.constructor` | public/js/modal.js:1-15 | a new session holds the drawn questions, no answers, cursor 0, not completed, nothing on screen, nothing reported |
| `Session.Quiz.ResetAnswers` | public/js/modal.js:28-35 | the cursor is 0 and the answers are empty |
| `Session.Quiz.ShowNextQuestion` | public/js/modal.js:37-45 | shows `questions[currentQuestionIndex]` when the cursor is below the number of questions; otherwise hands back to the game and changes nothing |
| `Session.Quiz.SaveAnswer` | public/js/modal.js:131-142 | appends exactly one record, the one for the chosen option; earlier records are unchanged |
| `Session.Quiz.GetRecommendations` | public/js/modal.js:204-228 | hands exactly one result object, the normal-end one for the current answers, to the reporter |
| `Session.Quiz.ShowRecommendationsModal` | public/js/modal.js:144-163 | shows the results; the title is "perfect score" iff the recorded answers reach 90 percent |
| `Session.Quiz.ClickOption` | public/js/modal.js:88-123 | records the answer, then advances the cursor by one, keeping `|answers| == currentQuestionIndex`; it was the last question iff the advanced cursor reaches the number of questions; only then is the run completed with exactly as many answers as questions, reported once, shown with its title, and reset; otherwise play continues and nothing else changes |
| `Session.Quiz.ForceEndQuiz` | public/js/modal.js:347-401 | the reason defaults to `"manual"`; does nothing while the results are displayed; otherwise reports the answers so far once with the early-end grade, shows the early-end screen and installs the resetting close handler; the answers and the cursor are untouched |
| `Session.Quiz.CloseResults` | public/js/modal.js:394-401 | either close handler (the early-end one here, or the normal-end `{ once: true }` listener at lines 186-200 of the same file) hides the results; resets the answers and the cursor once an early end has installed that handler, and leaves them otherwise; the title, the reports and the rest stay as they were |
| `Session.FourOfFiveScenario` | public/js/modal.js:88-123 | driving a five-question run with four right answers and one wrong one hands exactly one report to the reporter: 4 right of 5, 80 percent and grade 4 with no early-end marker; an early end afterwards does nothing |
| `Session.FourOfFiveReport` | public/js/modal.js:204-228 | four right answers followed by a wrong one give a report of 4 of 5 and grade 4 |
| `Sampling.Swap` | public/js/questions.js:18 | swapping two positions keeps the length and the multiset of elements, and moves exactly those two elements |
| `Sampling.ShuffleArray` | public/js/questions.js:14-21 | the in-place loop on the array copy, from the last index down to 1, produces the Fisher–Yates result for the draws; the input sequence is a value and is not changed |
| `Sampling.ShuffleStepsPermutes` | public/js/questions.js:16-19 | the remaining loop steps keep the length and the multiset of elements |
| `Sampling.FisherYates` | public/js/questions.js:14-21 | the shuffled list is a permutation of its input, with the same length and the same multiset of elements; inputs of length 0 or 1 come back unchanged |
| `Sampling.ShuffleStepsLocal` | public/js/questions.js:16-18 | the steps below `n` read no draw at or above `n` |
| `Sampling.ReachablePrefix` | public/js/questions.js:16-18 | any arrangement of the first `n` elements can be produced by some draws in range |
| `Sampling.EveryOrderReachable` | public/js/questions.js:14-21 | every permutation of the input is the result of some draws with each `j` in `[0, i]` |
| `Sampling.SwapKeepsDistinct` | public/js/questions.js:18 | a swap keeps a list without repeats without repeats |
| `Sampling.ShuffleStepsKeepDistinct` | public/js/questions.js:16-19 | the shuffle keeps a list without repeats without repeats |
| `Sampling.FirstQuestions` | public/js/questions.js:30 | `slice(0, 5)` has length `min(n, 5)` and is a prefix of its input |
| `Sampling.Sample` | public/js/questions.js:28-30 | a run's questions number `min(n, 5)` and all come from the loaded list |
| `Sampling.SampleNoRepeats` | public/js/questions.js:28-30 | no question repeats in a run when the loaded list has no repeats |
| `Sampling.GetQuestions` | public/js/questions.js:23-36 | a failed load hands over nothing; a successful one hands over the first five of the shuffled list |
| `Text.NatText` | public/js/sheets.js:86 | the decimal text of a whole number is non-empty and all digits, and starts with `0` only for 0, which is `"0"` |
| `Text.ParseNatText` | public/js/sheets.js:86 | reading the decimal text back gives the number |
| `Text.NatTextInjective` | public/js/sheets.js:86 | different numbers have different decimal texts |
| `Text.SplitJoin` | public/js/sheets.js:149-152 | splitting a join on its one-character separator gives the parts back when no part holds the separator |
| `Sheets.IsConfigured` | public/js/sheets.js:28 | exactly the empty address and the placeholder `TU_URL_DEL_WEB_APP_AQUI` count as not configured |
| `Sheets.ShippedUrlIsConfigured` | public/js/sheets.js:10-11 | the shipped web app address passes the "configured" test, so the page always tries to send |
| `Sheets.TextOr` | public/js/sheets.js:44-46 | `s || fallback`: a set, non-empty text passes through; an unset or empty one becomes the fallback |
| `Sheets.PercentOrZero` | public/js/sheets.js:49 | `p || 0`: a non-zero number passes through; NaN and 0 become 0 |
| `Sheets.BuildPayload` | public/js/sheets.js:42-52 | the payload never has an empty name or grade and never a NaN percentage; truthy fields pass through unchanged, falsy ones take "Anónimo", "", "N/A" or 0 |
| `Sheets.Put` | public/js/sheets.js:93 | `setItem` grows the list by at most one; every entry afterwards is the new one or an old one; a store with one entry per key keeps one entry per key |
| `Sheets.Get` | public/js/sheets.js:110 | `getItem` finds nothing exactly when no entry has the key; what it finds is the value of an entry with that key |
| `Sheets.GetEntry` | public/js/sheets.js:110 | with one entry per key, `getItem` reads each entry's own value |
| `Sheets.PutThenGet` | public/js/sheets.js:93 | after `setItem(key, value)` the key reads `value` and every other key reads as before |
| `Sheets.LocalStorage.constructor` | public/js/sheets.js:107-108 | the store starts with the given entries, one per key |
| `Sheets.LocalStorage.SetItem` | public/js/sheets.js:93 | the entries become `Put` of the old entries, still one per key |
| `Sheets.BackupKey` | public/js/sheets.js:86 | a backup key is `quiz_result_` followed by the decimal digits of the clock reading, and nothing else |
| `Sheets.BackupKeys` | public/js/sheets.js:86 | a backup key starts with `quiz_result_`, and backups at different times get different keys |
| `Sheets.SaveToLocalStorage` | public/js/sheets.js:84-98 | one entry under `quiz_result_` + the first clock reading, holding the data, the second clock reading and `savedLocally: true`; a failing write leaves the store as it was; one entry per key is kept |
| `Sheets.SaveToGoogleSheets` | public/js/sheets.js:26-78 | with no configured address: `success: false, localSave: true`, nothing posted or stored; otherwise the defaulted payload is posted, a post that does not throw gives `success: true` and stores nothing, and a post that throws gives `success: false, localSave: true`; in that case one backup is written when the write succeeds, and the store is left as it was when the write fails, although the outcome still says `localSave: true` |
| `Sheets.Collected` | public/js/sheets.js:107-116 | the loop keeps only entries whose key starts with `quiz_result_`, each listed key and backup being an entry of the store |
| `Sheets.ParsedEntryIsListed` | public/js/sheets.js:107-113 | every entry under the prefix that parses is listed when no unparsable entry under the prefix comes before it |
| `Sheets.UnparsableEndsListing` | public/js/sheets.js:106-116 | a failed parse ends the loop: nothing at or after an unparsable entry under the prefix is listed |
| `Sheets.ListedValuesStored` | public/js/sheets.js:108-111 | with one entry per key, each listed backup is what `getItem` reads under its key |
| `Sheets.BackupIsListed` | public/js/sheets.js:84-116 | when every entry under the prefix in the store parses, a backup just written is listed |
| `Sheets.SortNewestFirst` | public/js/sheets.js:117 | the sorted list is newest first and holds the same backups, each as often as before |
| `Sheets.InsertBag` | public/js/sheets.js:117 | inserting adds exactly the element |
| `Sheets.InsertKeepsOrder` | public/js/sheets.js:117 | inserting into a newest-first list keeps it newest first and adds exactly that element |
| `Sheets.InsertStable` | public/js/sheets.js:117 | inserting never reorders elements with the same timestamp |
| `Sheets.SortProperties` | public/js/sheets.js:117 | the sort is newest first, a permutation, and stable for equal timestamps |
| `Sheets.GetLocalResults` | public/js/sheets.js:104-118 | the loop over the store followed by the sort returns the collected backups, newest first |
| `Sheets.PercentCell` | public/js/sheets.js:145 | the percentage cell ends in `%`; it is `0%` for NaN and for 0, and the number's text followed by `%` otherwise |
| `Sheets.RowCells` | public/js/sheets.js:138-147 | eight cells, one per header; a missing name or grade becomes `N/A`; the percentage cell ends in `%` |
| `Sheets.RowLine` | public/js/sheets.js:151 | a data line opens with the quoted date cell and closes with the quoted grade cell |
| `Sheets.RowLines` | public/js/sheets.js:151 | one line per backup, in order |
| `Sheets.HeaderLine` | public/js/sheets.js:150 | the header line holds no line break, and splitting it at its commas gives back the eight column names |
| `Sheets.CsvText` | public/js/sheets.js:126-152 | the CSV is empty exactly when there are no backups |
| `Sheets.CsvLines` | public/js/sheets.js:149-152 | with at least one backup, and when no backup's name, e-mail or grade holds a line break and the date and number texts hold none, the CSV split at its line breaks is the header line followed by one line per backup in the same order, each cell wrapped in double quotes |
| `Sheets.ExportLocalResultsToCsv` | public/js/sheets.js:124-153 | the export renders the listed backups, newest first |

## Left out

- Rendering is left out: the modal contents, CSS animation classes, inline
  styles and the result HTML (`public/js/modal.js:56-80`, `98-110`, `154-200`,
  `230-340`, `383-393`). The model keeps only the results title that depends on
  the score, and whether each modal is displayed.
- The `setTimeout` delays are presentation pacing. The deferred continuation
  of a click runs at once.
- Floating point is left out. Percentages are exact fractions, and
  `toFixed` is not modelled. At the boundaries 30, 50, 70 and 90 the
  correctly rounded `(correct / total) * 100` equals the exact value, so the
  bands agree there. This agreement is argued, not proved.
- `Math.random` is the parameter `picks`. Only its range is modelled, so the
  uniformity of the shuffle is not stated.
- `fetch`, the dynamic `import('/js/sheets.js')`, `JSON.stringify` and
  `JSON.parse`, and `Date` are left out. The send's result is the parameter
  `sendError`, and a failing `setItem` is the parameter `writeOk`. Times are
  milliseconds passed in, and `toLocaleString` and JavaScript's number-to-text
  are the parameters `dateText` and `numberText`. A stored backup is kept as a
  value, not as JSON text. A NaN percentage that JSON would write as `null` is
  left as NaN; both are falsy, so they give the same CSV cell.
- `Scoring.ScorePercentage`: requires `correct <= total`. The source only
  passes the count of right answers among the recorded ones, so the
  `Infinity` that JavaScript gives for a positive count over 0 is never
  computed and is not modelled.
- `Sheets.SaveToGoogleSheets`: the `message` and `error` texts of the outcome
  are reduced to the optional error string. Console logging is left out.
- `Sheets.BuildPayload`: the timestamp is kept as milliseconds, not as its
  ISO-8601 text, because date formatting is left out.
- `Sheets.Collected`: an entry under the prefix that parses as JSON but is not
  a backup is not modelled. A stored value is either a backup or text that
  fails to parse.
- `Sheets.CsvLines`: the line structure is proved only when no name, e-mail or
  grade holds a line break and the date and number texts hold none. The
  source does not escape such breaks, so those inputs produce extra lines.
- `localStorage.key(i)` order is unspecified in browsers. The model uses
  first-insertion order.
- `downloadLocalResults` (the `Blob`, the hidden link and the alert) is I/O
  and is left out.
- `public/js/main.js` is not part of this model. The `Quiz` constructor
  stands for its assignment of the drawn questions.
- The game's callback and `game.status = 'gameover'` belong to the game loop,
  which is not part of this model. Apart from hiding the modal, which
  `Session.Quiz.CloseResults` models, the `{ once: true }` close listener of
  the normal results screen only calls them.
- The `window.quizState` getters only expose `answers`, `currentQuestionIndex`
  and `questions.length`, so they add no state.
- The `alert` fallback of `forceEndQuiz` is not modelled. The page always has
  the results modal, so that branch does not run. The `try`/`catch` around
  `forceEndQuiz` is not modelled either.
