# Quiz session model

A Dafny model of the session logic of a single-page timed quiz (an exam
simulation). The page shows multiple-choice questions one at a time. The user can
move between them, answer them, flag them for review and submit. A countdown runs
alongside. Progress is kept in one browser storage slot so that a reload resumes
the attempt.

The model covers the part of `script.js` that is logic rather than DOM work:

- **Session state** (`QuizSession.Session`): a class with the page's `state` fields.
  These are the questions, `currentIndex`, `answers` (a choice index or null per
  question), `marked` and `startTime`, plus the constant `duration` of 195 minutes.
  `Valid()` is the invariant: the index is in bounds, there is one answer per
  question, and the flagged indices are distinct and in bounds.
- **Operations**: `SelectAnswer`, `ToggleMark`, the three navigation methods and
  `HandleKeydown` change the object in place. Each states the whole new state as
  an update of the old one. Navigation does not write to storage; answering and
  flagging do.
- **Specification functions** beside them (`Navigation`, `Marks`, `Keyboard`): the
  index after each move, the flagged list after a toggle, and the key-to-command map.
  Lemmas cover bounds, undo and double toggle.
- **Scoring** (`Scoring`): the tally loop of `submitAnswers` is proved against a
  recursive score. That score is proved equal to the number of correctly answered
  indices. Each result record carries the choice text, or the `'Tidak dijawab'`
  label when the question is unanswered.
- **Timer arithmetic** (`Timer`): remaining seconds from elapsed milliseconds,
  their split into hours, minutes and seconds, and the zero-padded `HH:MM:SS` text.
  The text is proved to read back as the remaining seconds.
- **Review grid** (`ReviewGrid`): the `current`/`answered`/`marked` classes of each
  grid item. Restyling an item for a new state is proved to give the same classes
  as building it afresh.
- **Progress record** (`Persistence`): what `saveProgress` writes and how
  `loadProgress` reads it back, including the `||` fallbacks. Saving then loading
  gives back the same index, answers and flags, and the same start time unless it
  was 0, which the `||` fallback replaces by the load time.

The JavaScript `Set` of flagged questions is modelled as a duplicate-free list in
insertion order. That is what `Array.from` writes and `new Set(list)` rebuilds.
`null` and `undefined` are `None` of an `Option`.

## Model

| member | source | states |
|---|---|---|
| QuizTypes.Unanswered | script.js:36 | a fresh answer list has one null slot per question |
| Navigation.PrevIndex | script.js:131-136 | moves back by one exactly when the index is above 0; otherwise no change; stays in [0, n) |
| Navigation.NextIndex | script.js:138-143 | moves on by one exactly when the index is below n-1; otherwise no change; stays in [0, n) |
| Navigation.JumpIndex | script.js:145-150 | goes to the target iff 0 <= target < n; otherwise no change; stays in [0, n) |
| Marks.Without | script.js:123 | `Set.delete`: removes exactly that member, keeps the others and their distinctness |
| Marks.Toggled | script.js:121-129 | only the toggled index changes membership; an added index goes last; distinctness kept |
| Marks.ToggleTwice | script.js:121-129 | two toggles restore the flagged members; if the index was unflagged, the very same list |
| Marks.WithoutLast | script.js:123-125 | deleting a just-added index restores the list |
| Navigation.PrevUndoesNext | script.js:131-143 | Prev after a Next that moved returns to the start |
| Navigation.NextUndoesPrev | script.js:131-143 | Next after a Prev that moved returns to the start |
| Navigation.NavigateStaysInBounds | script.js:131-150 | any sequence of Prev/Next/jump requests keeps the index in [0, n) |
| Keyboard.DigitKey | script.js:212-213 | digit key k+1 stands for choice index k |
| Keyboard.Dispatch | script.js:207-220 | ArrowLeft iff Prev, ArrowRight iff Next, 'm'/'M' iff toggle; '1'..'4' selects k-1 iff k-1 < choice count; every other key is ignored |
| Keyboard.DispatchKeyFor | script.js:207-220 | every command except Ignore is produced by some key, digits reaching exactly the existing choices up to four |
| Keyboard.DigitBeyondChoicesIgnored | script.js:212-216 | a digit past the question's last choice changes nothing |
| ReviewGrid.StatusClasses | script.js:176-184 | 'current' iff i is the current index, 'answered' iff answer i is not null, 'marked' iff i is flagged |
| ReviewGrid.Restyled | script.js:175-184 | after an update, classes other than the three status ones are untouched and the status ones are exactly those of the state |
| ReviewGrid.BuiltItem | script.js:156-165 | a new item has 'review-item' plus exactly its status classes |
| ReviewGrid.RestyleMatchesRebuild | script.js:152-186 | restyling an item built for any earlier state equals building it for the new one (no stale flag) |
| Scoring.ChoiceText | script.js:262-263 | choice text when the index is a choice, `undefined` otherwise |
| Scoring.IsCorrect | script.js:257 | strict equality: correct iff an answer was given and it is the correct index, so a null answer never matches |
| Scoring.ResultOf | script.js:257-265 | correct iff the answer equals the correct index; unanswered gives the 'Tidak dijawab' label and is never correct |
| Scoring.Score | script.js:253-258 | the score never exceeds the number of questions |
| Scoring.ScoreCountsCorrect | script.js:253-258 | the score is the number of indices whose answer equals the correct index |
| Scoring.FullScoreIff | script.js:253-258 | full score iff every question is answered correctly |
| Scoring.NothingAnsweredScoresZero | script.js:257-258 | all-null answers score 0 |
| Scoring.Tally | script.js:253-266 | the loop's score equals Score (hence the number of correctly answered indices, at most n) and its i-th result is the record of question i |
| Scoring.ScoreExample | script.js:253-266 | correct 0,1,2,3 answered 0,null,2,1 scores 2, with question 2 unanswered and wrong |
| Timer.Remaining | script.js:191-192 | zero iff elapsed ms >= duration*1000; otherwise elapsed time lies in the second the value names |
| Timer.Split | script.js:194-196 | hours*3600 + minutes*60 + seconds is the total, minutes and seconds below 60 |
| Timer.DecimalString | script.js:198 | `String(n)`: digits only, no leading zero, reads back as n, at most two digits below 100 |
| Timer.PadStart | script.js:198 | `padStart`: the text keeps its end and is filled on the left to the width |
| Timer.Pad2 | script.js:198 | `String(x).padStart(2, '0')`: digits only, at least two of them and exactly two below 100, reading back as x |
| Timer.Pad2Digits | script.js:198 | below 100 the padded field is the tens digit and the units digit |
| Timer.LeadingZeros | script.js:198 | zero padding does not change the value read back |
| Timer.Display | script.js:194-198 | three zero-padded fields joined by ':', the last two two digits each and below 60, reading back as the remaining seconds |
| Timer.ReadsAsSplit | script.js:194-198 | any such text for a number of seconds shows exactly the hours, minutes and seconds of its split, so the display's fields are determined |
| Timer.ExpiredDisplay | script.js:191-200 | a 10 s session read at 10.5 s shows 00:00:00 and has expired |
| Timer.FreshDisplay | script.js:191-198 | the full 195-minute session shows 03:15:00 |
| Persistence.Dedup | script.js:239 | `new Set(list)`: same members, no repeats |
| Persistence.DedupDistinct | script.js:226-239 | a list without repeats is rebuilt unchanged |
| Persistence.Snapshot | script.js:222-228 | the saved record holds the index, answers, flagged list and start time |
| Persistence.NumberOr | script.js:237-240 | JavaScript's logical-or fallback on a number: 0 and a missing value fall back |
| Persistence.Restore | script.js:236-240 | present fields are taken (flags deduplicated); missing ones become 0, all-null, empty, now |
| Persistence.RestoreConsistentIff | script.js:237-239 | the loaded state satisfies the invariant iff there are questions and the record fits them |
| Persistence.SnapshotWellFormed | script.js:222-228 | a consistent session saves a record that fits it |
| Persistence.RestoreSnapshot | script.js:222-240 | load after save gives the same index, answers and flags, and the same start time unless it was 0 |
| QuizSession.Storage.constructor | script.js:229-233 | the storage slot holds the given record |
| QuizSession.Session.constructor | script.js:1-8 | first question, all answers null, nothing flagged, started now, 195 minutes; valid iff there is a question |
| QuizSession.Session.SaveProgress | script.js:222-230 | the slot holds the snapshot of the current fields |
| QuizSession.Session.SelectAnswer | script.js:115-119 | only answer[current] changes, to the index; invariant kept; progress saved |
| QuizSession.Session.ToggleMark | script.js:121-129 | only the flagged list changes, by toggling the current index; progress saved |
| QuizSession.Session.GoToPrevQuestion | script.js:131-136 | only the index changes, as PrevIndex; nothing saved |
| QuizSession.Session.GoToNextQuestion | script.js:138-143 | only the index changes, as NextIndex; nothing saved |
| QuizSession.Session.GoToQuestion | script.js:145-150 | only the index changes, as JumpIndex; an out-of-range target changes nothing |
| QuizSession.Session.HandleKeydown | script.js:207-220 | the state changes exactly as the dispatched command's operation does, and only answering and flagging save |
| QuizSession.Session.LoadProgress | script.js:232-246 | no record: nothing changes; a record: the fields are its restore, valid iff it fits |
| QuizSession.Session.RenderReviewGrid | script.js:152-170 | one item per question with 'review-item' and its status classes |
| QuizSession.Session.UpdateReviewGrid | script.js:172-186 | each item's classes become its restyle for the current state |
| QuizSession.Session.TimerTick | script.js:189-205 | expired iff elapsed ms >= duration*1000 iff nothing remains; the display is exactly the zero-padded `HH:MM:SS` text of the remaining seconds and reads back as them |
| QuizSession.Session.SubmitAnswers | script.js:248-286 | declined: nothing happens; confirmed: score is the number of correct indices, one record per question, slot cleared |
| QuizSession.Reload | script.js:222-246 | save, new session, load: same index, answers, flags and start time, invariant holds |

## Left out

- Rendering: the question HTML, `escapeHtml`, the counter text, the mark-button label and event wiring are browser DOM work. The progress-bar percentage is floating-point.
- Question loading: `loadQuestions` reads an environment global and `generateSampleQuestions` uses `Math.random`. The questions are a constructor parameter instead.
- Clock, dialogs and scheduling: `Date.now`, `setInterval`, `alert` and `confirm` are foreign. The current time and the confirm answer are parameters. `TimerTick` reports expiry and does not itself call `SubmitAnswers`.
- After expiry the source's interval submits again on every tick. Nothing in the source stops it and there is no "submitted" state, so the model claims no once-only submission.
- Storage and JSON: `localStorage` and `JSON.stringify`/`JSON.parse` are a browser store and a library parser. The slot holds the parsed record as a value. The parse-failure path, empty stored strings and non-integer JSON values are not modelled.
- Number representation: JavaScript numbers are doubles, and the model uses unbounded integers. `Math.floor(.../1000)` and `String(n)` agree with `Remaining` and `DecimalString` only while values are exact integers below 2^53 and below 1e21; beyond that `String` writes exponent form. Such values can only arise from a corrupt stored `startTime`.
- Results output: the summary HTML, the hidden panels and `console.table` are output only.
- Keyboard.Dispatch: key names longer than one character other than the arrows are one `Other` key. None of the standard ones starts with a digit, so none falls in the string range "1".."4" that the source tests.
- QuizSession.Session.SelectAnswer: like the other session methods, it requires `Valid()`. Invalid states come only from a stale or corrupt stored record, and the model sets them aside by requiring `Valid()`. In the source they do reach the handlers. Flagged indices out of range load without complaint, and every handler is then wired while the state is invalid. An answer list of the wrong length loads the same way. A restored index out of range makes `renderQuestion` throw at script.js:245, outside the `try`, so `init` (script.js:63-77) never wires the buttons or the key listener. Even then three sets of listeners are already live. The choice-click listeners come from the first `renderQuestion` call (script.js:64, attached at script.js:103-108). The review-grid click listeners are at script.js:167, and the timer at script.js:190. So `selectAnswer` still writes `answers` at the bad index (script.js:116) and then throws again before `saveProgress`. `goToQuestion` still runs on a grid click, and `submitAnswers` still runs when time runs out (script.js:202).
- Scoring.Tally: requires one answer per question. The source would read `undefined` past the end of a shorter answer list after a bad load.
- QuizSession.Session.UpdateReviewGrid: requires at most one grid item per question. The grid is empty before `renderReviewGrid` runs and has one item per question after.
- QuizSession.Session.LoadProgress: it does not require a well-formed record. Instead it states that the invariant holds afterwards exactly when the record fits, as the source checks no bounds.
