# Mock test runner — verified model of its core

The application is a single-page multiple-choice test runner (`app.js`). It
loads a bank of questions worth 3, 4 or 5 points. From each tier it draws 8
questions with a Fisher–Yates shuffle, and it arranges them in a 24-question
test ordered 3-point, then 4-point, then 5-point. It then runs a 60-minute
countdown while the candidate answers, navigates and marks questions, and at
submission it scores the test. This project models that core in Dafny and
proves what the code promises about it.

Modules:

- `Wrappers`: an `Option` type.
- `Questions`: the question record, its points, and the rule that decides
  which of the choices A–E are displayed. That rule uses JavaScript's
  `String.prototype.trim` whitespace set. The module also holds the review
  page's three-way verdict.
- `FisherYates`: `shuffleArray`. This is a method over a fresh array copy,
  proved equal to a recursive specification `Shuffle`. `Shuffle` is proved to
  be a permutation and to reach every permutation. `Math.random()` is replaced
  by a sequence of draws `js`, where `0 <= js[i] <= i` is the index drawn at
  step `i`.
- `TestGeneration`: `generateTest`, which is the tier filters, three shuffles,
  `slice(0, 8)` and the concatenation.
- `TimeFormat`: the `m:ss` formatting. It models JavaScript's truncating `%`,
  proves the format round-trips, and includes the elapsed-seconds computation
  and the timer's colour thresholds.
- `Scoring`: `calculateResults`. The scoring loop is a method whose counters
  are tied to prefix-recursive specification functions. The module also holds
  the partition of the test into correct, wrong and unanswered questions, the
  score bounds, and the exact value and range of the accuracy.
- `Session`: the page's `state` record. It is a class whose methods are
  `startTest`, `selectAnswer`, `navigateQuestion`, a click on the question
  grid, `toggleMark`, `confirmSubmit`, `submitTest` and one tick of the
  countdown. All of them keep the session invariant `Valid()`: the current
  index, the answered positions and the marked positions are positions of the
  test (or 0 while the test is empty), and a running countdown is positive.

Choices made to match the code:

- `question.answer` is an `Option`. In `calculateResults`, a question whose
  answer field is missing compares equal (`undefined === undefined`) to a
  missing user answer, so such a question counts as correct. Statements about
  "no answers" therefore assume every question has an answer label
  (`HasAnswerKeys`).
- A `startTime` that was never set (`null`) counts as 0 in the subtraction of
  `calculateResults`, as it does in JavaScript.
- The code does not refuse a bank whose tiers hold fewer than 8 questions. It
  takes what there is, and the model does the same. It also reports
  `maxScore` as the constant 96. `MaxScoreMatchesTest` shows that 96 is the
  test's real total exactly when every tier has at least 8 questions; otherwise
  96 exceeds it.

## Model

| member | source | states |
|---|---|---|
| Questions.TrimEmptyIffBlank | app.js:220 | `trim()` yields the empty string exactly when every character of the string is JavaScript whitespace or a line terminator |
| Questions.ChoiceShown | app.js:217-222 | a choice is displayed iff its key is present, its value is not `null`, and it is not a string that trims to empty (a number such as 0 is shown) |
| Questions.ShownAmongInOrder | app.js:214-216 | the shown labels keep the order of the label list and occur once each (their positions in the list strictly increase) |
| Questions.VisibleChoices | app.js:214-222 | the displayed labels are exactly those of A–E whose choice is shown, each once, in the order A, B, C, D, E |
| Questions.Classify | app.js:373-419 | the review verdict is Correct iff the user's answer equals the answer key; it is Wrong iff they differ and the user answer is a non-empty label; otherwise it is Not Answered |
| FisherYates.Swap | app.js:71 | the swap exchanges the two positions, leaves every other position unchanged, keeps the length and keeps the multiset of elements |
| FisherYates.ShufflePermutes | app.js:67-74 | the shuffled sequence has the input's length and the same elements with the same multiplicities |
| FisherYates.ShuffleReachesEvery | app.js:69-72 | every rearrangement of the input is produced by some admissible sequence of random draws |
| FisherYates.ShuffleArray | app.js:67-74 | copies the input and swaps from the last index down to 1 with the drawn index; the result is the specified shuffle, a permutation of the input, and the input is left as it was |
| TestGeneration.TierCounts | app.js:48-50 | a tier filter keeps every question of that point value with its multiplicity, and no other question |
| TestGeneration.BlockFacts | app.js:53-55 | a shuffled-and-sliced tier has min(8, tier size) questions, all of that point value |
| TestGeneration.BlockCounts | app.js:53-55 | a block never holds a question more often than the bank does, and holds the whole tier when the tier has at most 8 questions |
| TestGeneration.TestShape | app.js:53-58 | the test is the 3-point block, then the 4-point block, then the 5-point block, each of size min(8, tier size) |
| TestGeneration.PointsNonDecreasing | app.js:57-58 | points never decrease along the test |
| TestGeneration.FullTestIff | app.js:53-58 | the test has 24 questions iff every tier holds at least 8 questions |
| TestGeneration.DrawnFromBank | app.js:48-58 | every question of the test comes from the bank, never more often than it occurs there |
| TestGeneration.ExactTiersUseWholeBank | app.js:48-58 | when every tier has exactly 8 questions, the test holds every 3-, 4- and 5-point question of the bank with its multiplicity, and nothing else |
| TestGeneration.MaxScoreMatchesTest | app.js:320 | the test's total points are at most 96, with equality iff every tier has at least 8 questions |
| TestGeneration.DrawTest | app.js:47-58 | returns the specified test; its points never decrease, it is drawn from the bank, and it has 24 questions iff every tier has at least 8 |
| TimeFormat.FloorDiv | app.js:110 | `Math.floor(a / b)` for positive `b`: the largest q with b·q ≤ a |
| TimeFormat.JsRem | app.js:111 | JavaScript `%`: magnitude below the divisor, equal to the mathematical remainder for non-negative operands, and never positive for negative ones |
| TimeFormat.JsRemOdd | app.js:341 | the truncating remainder of −a is the negation of that of a |
| TimeFormat.NatToString | app.js:112 | `toString()` of a non-negative integer is a non-empty string of decimal digits, a single digit iff the value is below 10, with no leading zero |
| TimeFormat.NatToStringRoundTrip | app.js:112 | reading the decimal digits back gives the number |
| TimeFormat.PadStart2 | app.js:112 | `padStart(2, '0')` returns a string of two or more characters unchanged, and left-pads a shorter one (the empty string included) with '0' to exactly two characters |
| TimeFormat.TwoDigitSeconds | app.js:111-112 | a seconds value below 60 prints as exactly two digits that read back as that value |
| TimeFormat.MinSecRoundTrip | app.js:110-112 | for a non-negative number of seconds, the `m:ss` text parses back to the same number, its seconds field is below 60, and it has at least four characters |
| TimeFormat.ElapsedSeconds | app.js:339 | `Math.floor((end - start) / 1000)`: the whole seconds between the two millisecond timestamps |
| TimeFormat.UrgencyMonotone | app.js:119-124 | less remaining time never gives a calmer timer colour (danger at 300 s or less, warning at 600 s or less) |
| Scoring.Partition | app.js:322-334 | over any prefix, correct + wrong + unanswered equals the prefix length |
| Scoring.ScoreBounds | app.js:326-328 | the score is the sum of the points of the correctly answered questions: between 0 and the prefix's total points when points are non-negative |
| Scoring.NoAnswersScoresNothing | app.js:322-334 | with no answers, and every question carrying an answer key, nothing is correct or wrong, every question is unanswered and the score is 0 |
| Scoring.AnsweredIsCorrectPlusWrong | app.js:281 | when every question has an answer key, the number of answered positions equals correct + wrong |
| Scoring.Accuracy | app.js:335-337 | 0 for an empty test; otherwise `Math.round(100·c/n)` in exact arithmetic: the integer nearest to 100·c/n, halves rounded up |
| Scoring.AccuracyRange | app.js:335-337 | for 0 ≤ correct ≤ n the accuracy lies in 0..100 |
| Scoring.CalculateResults | app.js:316-352 | the results agree with the specification counts, score, maxScore 96, accuracy and `m:ss` elapsed time; the three counts sum to the test length and the accuracy is within 0..100 |
| Scoring.ReviewAgreesWithScore | app.js:372-419 | for answered labels, the review page's Correct / Wrong / Not Answered verdict for a question agrees with how `calculateResults` counts it |
| Session.Toggled | app.js:261-265 | toggling flips membership of the given position and of no other |
| Session.ToggleTwice | app.js:260-265 | toggling the same position twice restores the marked set |
| Session.SubmitPrompt | app.js:281-288 | the confirmation shows the number of answer entries out of the test length, and it has an unanswered line, carrying the positive difference, iff fewer answers than questions |
| Session.PromptMatchesScore | app.js:281-287 | the confirmation's answered count is correct + wrong, and its unanswered line appears iff some question is unanswered, carrying exactly that count |
| Session.TestSession.constructor | app.js:2-12 | the initial state: empty bank and test, index 0, no answers, no marks, no times, a full hour on a stopped clock |
| Session.TestSession.LoadQuestions | app.js:18-20 | stores the parsed bank and changes nothing else |
| Session.TestSession.GenerateTest | app.js:47-58 | the stored test is the specified test drawn from the bank |
| Session.TestSession.StartTest | app.js:77-88 | a new test from the bank, index 0, no answers, no marks, start time now and a full hour; the clock is started iff the test has a question (for an empty test, showing question 0 fails before the timer starts, so the clock is left as it was); the bank and the end time are unchanged |
| Session.TestSession.ResetForNewTest | app.js:79-83 | resets index, answers, marks, start time and countdown without touching the bank, the test or whether the clock runs |
| Session.TestSession.SelectAnswer | app.js:243-244 | records the choice for the current question, replacing any earlier one, and changes nothing else |
| Session.TestSession.NavigateQuestion | app.js:250-257 | moves by the given step iff the target is a position of the test, otherwise stays; the index stays within the test; nothing else changes |
| Session.TestSession.GoToQuestion | app.js:136-139 | jumps to the clicked question and changes nothing else |
| Session.TestSession.ToggleMark | app.js:260-265 | flips the mark of the current question only and changes nothing else |
| Session.TestSession.SubmitTest | app.js:298-306 | stops the clock, records the end time and returns the results scored from the answers with the start time (`null` as 0); the answers and the test are unchanged |
| Session.TestSession.ConfirmSubmit | app.js:280-295 | shows the confirmation figures; submits iff the user confirms, and otherwise leaves the clock and end time as they were |
| Session.TestSession.Tick | app.js:96-104 | one second less; the clock stops and the test is submitted exactly when the countdown reaches 0, and otherwise it keeps running |

## Left out

- The DOM and all presentation are not modelled: screens, the question text and image, the choice elements, grid classes, the
  "Question n of 24" heading and the result and review HTML. This includes the results page's displayed sum of wrong and unanswered,
  and `scrollToQuestion` / `window.scrollTo`. Only the decisions these functions make are modelled: which choices show, the review
  verdict and the timer colour.
- `init`'s `fetch` and JSON parsing, and the `console.log` lines, are I/O. `LoadQuestions` models only the assignment of the parsed
  bank. A question's JSON fields are taken as typed: the id and points are integers, and the answer key is a label or absent.
- `Math.random()` is not modelled. Each draw is a parameter, so the model says which tests are possible, not how likely each one is.
- `Date.now()` is not modelled. Timestamps are parameters, in milliseconds.
- `setInterval` / `clearInterval` scheduling is not modelled. The model has one countdown tick (`Tick`) and a flag saying whether the
  interval is live. Re-entrancy of several intervals is not modelled.
- `alert` and `confirm` are not modelled. The dialog's answer is the `confirmed` parameter.
- `retakeTest`, `backToResults` and `showScreen` only switch screens (`retakeTest` after a confirmation dialog), so they are not modelled.
- Scoring.Accuracy: uses exact rational half-up rounding, not double-precision `Math.round(c / n * 100)`. The two agree except where
  floating-point error crosses a .5 boundary.
- FisherYates.ShuffleArray: takes the caller's array as a sequence value. That the caller's array is unchanged therefore holds by
  construction, and aliasing between the caller's array and the copy is not modelled.
- Questions.Classify: models the review's "Not Answered" test (`userAnswer` falsy) over labels. A user answer is always one of
  the labels A–E, so the empty string never occurs; `ReviewAgreesWithScore` therefore assumes every recorded answer is non-empty.
- Session.SubmitPrompt: counts the answer map's keys as integers. In JavaScript they are the property names of `userAnswers`.
- Session.TestSession.Tick: requires a running, positive countdown, which the session invariant guarantees. The source's
  `timeRemaining <= 0` guard is therefore reached only at 0.
- Session.TestSession.StartTest: for an empty test the source throws a TypeError in `displayQuestion`. The model stops at the
  same point (no timer is started), but it does not model the exception itself or the page that is left half set up.
