# RizziBizzi quiz core in Dafny

RizziBizzi turns study notes into a multiple-choice interview quiz. A
language model writes the questions. The user answers them one at a time
against a per-question clock, then sees a results screen. That screen shows
the score, the time spent, a generated study cheatsheet that can be
downloaded, and a follow-up tutor that answers a question about any quiz
question.

This project models the sequential logic around those screens and proves
properties of it:

- `types.dfy` (module `Types`): the session data model — questions, the
  quiz session with its parallel answer and time arrays, tutor follow-ups,
  the difficulty levels and the four application states.
- `strings.dfy` (module `Strings`): the JavaScript string behaviour the
  application relies on, namely:
  - decimal rendering of a number in a template literal;
  - `trim` over the ECMAScript whitespace set;
  - `replace(/\s+/g, '_')`;
  - `join`.
- `gemini_service.dfy` (module `GeminiService`): what the generation client
  does around each provider call, namely:
  - the difficulty guidance table;
  - the empty-response failure;
  - sequential `q-<index>` identifiers;
  - the `||` fallbacks of the clarification and summary calls;
  - the summary context string.

  The provider's response text is a parameter. So is `JSON.parse`, as a
  function that may fail.
- `app.dfy` (module `App`): the root component as a class with `state`,
  `session` and `error`, and its render guards. `startQuiz` runs in two
  steps: BeginStartQuiz up to the `await`, CompleteStartQuiz after it.
  The class invariant: the quiz and results states always have a session
  whose arrays match its questions.
- `quiz_screen.dfy` (module `QuizScreen`): the quiz screen as a class
  with the current index and two arrays (answers and seconds). It has
  select, next, previous and the one-second timer tick, plus the `m:ss`
  clock format. The class invariant: every question before the current one
  is answered, so the arrays handed over at the end hold a valid answer for
  every question.
- `results_screen.dfy` (module `ResultsScreen`), which holds:
  - the score loop and the review marks;
  - total-time rounding and both duration formats;
  - the language of a code snippet;
  - the cheatsheet file name;
  - a class for the screen's own state: the summary, the tutor map and
    the open form, and the download dialog.

Each asynchronous operation is a method that takes the settled outcome of
its provider call as a parameter (`Result` for quiz generation, `ModelCall`
for the clarification and the summary). `Date.now()` and the ISO date are
parameters too.

## Model

| member | source | states |
|---|---|---|
| Types.DifficultyLabel | types.ts:2-6 | the enum's string value for each of the three levels |
| Strings.NatToString | services/geminiService.ts:53 | a rendered number is a canonical numeral: a non-empty run of decimal digits, with no leading zero unless the number is zero |
| Strings.CanonicalReadsBack | services/geminiService.ts:53 | every canonical numeral is the rendering of the number it reads as, so rendering is onto the canonical numerals |
| Strings.ParseNatToString | services/geminiService.ts:53 | reading a rendered number back gives the number |
| Strings.NatToStringInjective | services/geminiService.ts:53 | different numbers render as different strings |
| Strings.TrimStart | components/ResultsScreen.tsx:79 | the result is the suffix left after the leading whitespace run; what was removed is whitespace; the result does not start with whitespace |
| Strings.TrimEnd | components/ResultsScreen.tsx:79 | the result is the prefix left before the trailing whitespace run; what was removed is whitespace; the result does not end with whitespace |
| Strings.Trim | components/ResultsScreen.tsx:79 | the result is the slice of the input after its leading whitespace run, with only whitespace before and after it, and it neither starts nor ends with whitespace |
| Strings.TrimEmptyIffBlank | components/ResultsScreen.tsx:79 | a trimmed string is empty if and only if the string is whitespace only (both directions) |
| Strings.TrimsToEmpty | components/ResultsScreen.tsx:79 | `!s.trim()` holds exactly when the string is whitespace only |
| Strings.ReplaceWhitespaceRuns | components/ResultsScreen.tsx:121 | the result contains no whitespace and is no longer than the input |
| Strings.ReplaceWhitespaceRunsNoWhitespace | components/ResultsScreen.tsx:121 | a string without whitespace is left unchanged |
| Strings.TrimStartBlankPrefix | components/ResultsScreen.tsx:121 | a whitespace prefix followed by a non-whitespace character, or by nothing, is removed exactly |
| Strings.ReplaceWhitespaceRunsRun | components/ResultsScreen.tsx:121 | a whitespace run of any length, after whitespace-free text and before a non-whitespace character or the end, becomes exactly one `_`, with the text before it kept in order |
| Strings.ReplaceWhitespaceRunsOneSpace | components/ResultsScreen.tsx:121 | two whitespace-free words around one space come out joined by one underscore (the one-space case of the general run lemma) |
| Strings.Join | services/geminiService.ts:79 | no parts give the empty string; otherwise the result begins with the first part |
| Strings.JoinSnoc | services/geminiService.ts:79 | appending a part appends the separator and the part (just the part when there were none before) |
| Strings.JoinEndsWithLast | services/geminiService.ts:79 | the joined string ends with the last part |
| Strings.JoinLength | services/geminiService.ts:79 | the joined string is as long as all parts plus one separator between each two neighbours |
| GeminiService.DifficultyGuidance | services/geminiService.ts:8-12 | the guidance lookup is total over the three levels and never empty |
| GeminiService.QuestionId | services/geminiService.ts:53 | an identifier is `q-` followed by a canonical numeral (no leading zero unless the index is 0) |
| GeminiService.QuestionIdExact | services/geminiService.ts:53 | the part after `q-` is exactly the decimal rendering of the index, as `q-${index}` writes it |
| GeminiService.QuestionIdReadsBack | services/geminiService.ts:53 | an identifier is `q-` followed by digits that read back as the index |
| GeminiService.QuestionIdInjective | services/geminiService.ts:51-54 | different indices give different identifiers |
| GeminiService.WithId | services/geminiService.ts:51-53 | the id is `q-<index>`, overriding any raw id, and every other field is the raw element's own |
| GeminiService.AssignIds | services/geminiService.ts:50-54 | the output has the input's length; element i has id `q-i`, overriding any raw id; every other field is element i's own |
| GeminiService.AssignedIdsDistinct | services/geminiService.ts:51-54 | the identifiers in a generated quiz are pairwise distinct |
| GeminiService.GenerateQuiz | services/geminiService.ts:47-54 | an absent or empty text fails with "No response from AI"; a text that does not parse fails; success holds exactly when the text is non-empty and parses, and then element i is parsed element i with id `q-i` |
| GeminiService.TextOr | services/geminiService.ts:73 | a non-empty text is returned as is; an absent or empty one selects the fallback |
| GeminiService.Clarification | services/geminiService.ts:73 | the clarification is never empty: it is the model text when that is non-empty, else the fixed apology |
| GeminiService.Summary | services/geminiService.ts:99 | the summary is never empty: it is the model text when that is non-empty, else "Could not generate summary." |
| GeminiService.ConceptBlocks | services/geminiService.ts:79 | one `Concept: …\nKey Detail: …` block per question, in question order |
| GeminiService.SummaryContext | services/geminiService.ts:79 | empty without questions; otherwise the context opens with the first question's block and closes with the last one's |
| GeminiService.SummaryContextSnoc | services/geminiService.ts:79 | adding a question appends a blank line and that question's block to the context |
| App.NewSession | App.tsx:21-27 | the new session has the generated questions, every answer -1, every time 0, start time now, the chosen level, and no end time |
| App.FinishedSession | App.tsx:37-42 | finishing replaces only the answers, the times and the end time (now) |
| App.DefaultsOffered | components/SetupScreen.tsx:16-17 | the preselected count is one of the offered counts and the preselected level is the medium one |
| App.AppComponent.constructor | App.tsx:12-14 | the component starts at setup, with no session and no error |
| App.AppComponent.Rendered | App.tsx:80-93 | the setup screen shows exactly in the setup state and the loading screen exactly in the loading state; the quiz and results screens show exactly in their own states with a session present, and receive that session's questions or the session itself; under the invariant some screen always renders |
| App.AppComponent.BeginStartQuiz | App.tsx:16-18 | loading starts and the error clears; the session is untouched; the invariant is kept |
| App.AppComponent.CompleteStartQuiz | App.tsx:19-33 | success starts a new session and enters the quiz state; failure sets the fixed error and returns to setup with no new session; the invariant is kept |
| App.AppComponent.Finish | App.tsx:36-44 | the session becomes the finished session and the state becomes results; the error is unchanged; the invariant is kept |
| App.AppComponent.Restart | App.tsx:46-49 | the session is dropped and the state returns to setup; the error banner is unchanged |
| App.EmptyResponseScenario | App.tsx:16-33 | an empty response leaves the component at setup with the error message and no session |
| QuizScreen.QuizScreenState.constructor | components/QuizScreen.tsx:12-14 | the first question is current; every answer is -1 and every time is 0, one slot per question |
| QuizScreen.QuizScreenState.SelectOption | components/QuizScreen.tsx:32-36 | only the current answer changes, to the selected option; times and index stay; the invariant is kept |
| QuizScreen.QuizScreenState.Tick | components/QuizScreen.tsx:17-27 | the current time grows by exactly one and no other slot changes, so no time decreases |
| QuizScreen.QuizScreenState.Next | components/QuizScreen.tsx:38-44 | below the last question the index advances; on the last question the arrays are handed over with a valid answer for every question |
| QuizScreen.QuizScreenState.Prev | components/QuizScreen.tsx:46-50 | the index decreases only when above zero; answers and times are unchanged |
| QuizScreen.FormatClock | components/QuizScreen.tsx:52-56 | minutes without a leading zero, a colon and two second digits; the fields read back as the whole minutes and the seconds below sixty |
| QuizScreen.FormatClockUnique | components/QuizScreen.tsx:52-56 | any text of that shape whose fields read back as the minutes and seconds of a time is the clock text for that time |
| QuizScreen.TwoDigitsDetermined | components/QuizScreen.tsx:55 | two two-digit fields that read back as the same number are equal |
| QuizScreen.TwoDigitSeconds | components/QuizScreen.tsx:55 | the seconds field, padded with "0" below ten, has two digits that read back as the seconds |
| ResultsScreen.AnsweredCorrectly | components/ResultsScreen.tsx:56 | a correct answer exists only for a question with a recorded answer slot; an unanswered question (-1) is never correct when its correct index is an option index |
| ResultsScreen.CalculateScore | components/ResultsScreen.tsx:53-59 | the score is the number of questions answered with their correct option, at most the number of questions |
| ResultsScreen.ReviewMarks | components/ResultsScreen.tsx:277 | one mark per question, true exactly when that question was answered correctly |
| ResultsScreen.ScoreMatchesReview | components/ResultsScreen.tsx:277 | the score equals the number of review rows marked correct |
| ResultsScreen.ElapsedMs | components/ResultsScreen.tsx:131 | the elapsed milliseconds run from the start time to the end time, or to now when the end time is absent or 0 |
| ResultsScreen.TotalTimeSeconds | components/ResultsScreen.tsx:131 | the result is the elapsed milliseconds (end time, or now when it is absent or 0) rounded to the nearest second |
| ResultsScreen.FormatDuration | components/ResultsScreen.tsx:133-138 | a minute suffix appears exactly from sixty seconds on; the text reads back, with canonical numerals, as the whole minutes and the remaining seconds |
| ResultsScreen.ReadDurationExact | components/ResultsScreen.tsx:133-138 | a text that reads back as a duration is exactly `<s>s` when it has no minute suffix (and then the minutes are zero), and `<m>m <s>s` otherwise |
| ResultsScreen.FormatDurationUnique | components/ResultsScreen.tsx:133-138 | the per-question duration text is the only text that reads back as the time and writes minutes exactly from one minute on |
| ResultsScreen.ScoreCardTime | components/ResultsScreen.tsx:193 | the total-time text always writes the minutes, even below one minute (`0m 5s`), reads back as the whole minutes and the remaining seconds, and from one minute on equals the per-question duration format |
| ResultsScreen.ScoreCardTimeUnique | components/ResultsScreen.tsx:193 | the total-time text is the only text that reads back as the time and writes the minutes |
| ResultsScreen.FirstFence | components/ResultsScreen.tsx:62 | the leftmost position of three backticks followed by a word character, or none when there is no such position |
| ResultsScreen.WordRun | components/ResultsScreen.tsx:62 | the longest run of word characters at a position, the greedy `\w+` |
| ResultsScreen.SnippetLanguage | components/ResultsScreen.tsx:61-63 | the language is "javascript" when no fence has a word after it, else the maximal word after the first such fence; it is never empty |
| ResultsScreen.CheatsheetFilename | components/ResultsScreen.tsx:121 | the name starts with `RizziBizzi_Cheatsheet_` and ends with the date followed by `.md` |
| ResultsScreen.LevelWord | components/ResultsScreen.tsx:199 | the level word shown on the score card has no whitespace |
| ResultsScreen.LabelWords | components/ResultsScreen.tsx:199 | each level's label is its level word, a space and "Developer", so the shown word is the label's first word |
| ResultsScreen.DifficultySlug | components/ResultsScreen.tsx:121 | each level's label with its whitespace run replaced is `<Word>_Developer` |
| ResultsScreen.CheatsheetFilenameByLevel | components/ResultsScreen.tsx:121 | the full file name for each level is `RizziBizzi_Cheatsheet_<Word>_Developer_<date>.md` |
| ResultsScreen.StorePreservesWellFormed | components/ResultsScreen.tsx:84-91 | storing a response under its own question's id keeps every entry keyed by its question |
| ResultsScreen.ResultsScreenState.constructor | components/ResultsScreen.tsx:23-31 | no form is open, no responses, an empty query, not asking, no summary, the summary loading, and the dialog closed |
| ResultsScreen.ResultsScreenState.TutorFormOpen | components/ResultsScreen.tsx:408 | a question's follow-up form is open only while the tutor is toggled for that question and no response is stored for it (row expansion is not modelled) |
| ResultsScreen.ResultsScreenState.OneFormAtATime | components/ResultsScreen.tsx:408 | at most one question's follow-up form is open at a time |
| ResultsScreen.ResultsScreenState.CompleteSummary | components/ResultsScreen.tsx:33-45 | a reply stores the summary text (with its fallback); a thrown error stores none; loading ends either way |
| ResultsScreen.ResultsScreenState.ToggleTutor | components/ResultsScreen.tsx:68-76 | the open question closes and keeps the query; any other question opens with an empty query; nothing else changes |
| ResultsScreen.ResultsScreenState.EditQuery | components/ResultsScreen.tsx:418 | the query becomes the typed text; nothing else changes |
| ResultsScreen.ResultsScreenState.CancelTutor | components/ResultsScreen.tsx:437 | the form closes; nothing else changes |
| ResultsScreen.ResultsScreenState.StoreClarification | components/ResultsScreen.tsx:84-92 | the follow-up (question id, query, reply) is stored under the question's id, replacing any earlier one; the form closes; nothing else changes; the invariant is kept |
| ResultsScreen.ResultsScreenState.SubmitToTutor | components/ResultsScreen.tsx:78-98 | a blank query changes nothing; a reply stores exactly one entry under the question's id (the query and the clarification) and closes the form; a thrown error changes no entry and leaves the form open; the request is not in flight afterwards |
| ResultsScreen.ResultsScreenState.RequestDownload | components/ResultsScreen.tsx:110-112 | the dialog opens; nothing else changes |
| ResultsScreen.ResultsScreenState.CancelDownload | components/ResultsScreen.tsx:157 | the dialog closes; nothing else changes |
| ResultsScreen.ResultsScreenState.ConfirmDownload | components/ResultsScreen.tsx:114-127 | without a summary nothing happens; otherwise the summary text is saved under the cheatsheet name and the dialog closes |

## Left out

- The provider SDK calls, the prompt texts, API keys and `JSON.parse` (services/geminiService.ts:6-45, 58-71, 81-97) are foreign library and network code. Their results are parameters: the response text, a parse function that may fail, and a `ModelCall` outcome.
- `components/SetupScreen.tsx` is not part of this model apart from its rules. Its `localStorage` persistence and file upload are browser I/O. Its rules appear as preconditions of BeginStartQuiz (non-blank material at line 165, counts from {5, 10, 15, 20} at line 42) and as constants for its defaults (medium, 10, at lines 16-17).
- `components/LoadingScreen.tsx` is not part of this model. It is presentation only.
- React rendering, styling, Prism highlighting, the clipboard and the copy badge's `setTimeout` are left out as UI. So is the `Blob`/URL/anchor mechanics of the download; the model returns the file name and the contents instead.
- `setInterval`, `useEffect` scheduling and interleavings of asynchronous calls are left out. Each effect is a discrete event (Tick, CompleteStartQuiz, CompleteSummary). A late CompleteStartQuiz after a restart is allowed, as in the code, since nothing checks the state first. Its effect on a quiz screen that is already mounted is not modelled (see the Finish line below).
- The accuracy percentage and the progress bar (components/ResultsScreen.tsx:130, components/QuizScreen.tsx:30) are left out because they use floating point.
- The code-cleaning regular expression of `parseCodeSnippet` (components/ResultsScreen.tsx:64) is left out. Only the language rule is modelled.
- The regular-expression `\w` is the ASCII word class, as without the unicode flag.
- The `FeedbackCategory` type (types.ts:8) has no use in the modelled code.
- App.AppComponent.Finish: requires the quiz state. The handler is only reachable from the quiz screen, which renders only in that state with a session. So the `prev ? … : null` branch for an absent session cannot run, and it is not modelled.
- App.AppComponent.Finish: assumes that a mounted quiz screen belongs to one session, and requires answer and time arrays sized for the current questions. The code does not ensure this. Suppose a quiz is started, the header restarts it, and a second quiz is started before both generation calls settle (App.tsx:19-28). The later success replaces the session while React keeps the mounted quiz screen's arrays, which are sized for the earlier questions (components/QuizScreen.tsx:12-14). The Next guard lets an undefined slot through, because `undefined === -1` is false (components/QuizScreen.tsx:137). `handleFinish` then stores arrays whose length differs from the question count. The model does not capture this: a quiz screen is created for exactly one session, and the class invariant assumes it.
- QuizScreen.QuizScreenState.SelectOption: requires at least one question. The screen reads `questions[currentIndex]` while rendering, so it cannot show an empty quiz. The same holds for Tick and Next. Nothing in `generateQuiz` rejects an empty array: an empty generated quiz enters the quiz state with a screen that cannot render.
- ResultsScreen.ResultsScreenState.SubmitToTutor: modelled as one atomic step taking the settled call. The in-flight state between setting and clearing `isAsking` is not observable in the model. The precondition that the question's form is open comes from the render guard at components/ResultsScreen.tsx:408.
- ResultsScreen.TotalTimeSeconds: integer milliseconds with ties rounded up. This matches `Math.round` for every integer input; double-precision effects on huge timestamps are not modelled.
- Row expansion on the results screen (`expandedIndex`, components/ResultsScreen.tsx:22, toggled at line 291) is not modelled: the explanation, the Ask button and the follow-up form are drawn only inside an expanded row (line 318), so `TutorFormOpen` says when the form is open, not whether its row is currently expanded.
- ResultsScreen.ScoreCardTime: takes a non-negative total. A negative total, which only a clock running backwards could produce, would render through JavaScript's truncating `%`; that case is not modelled.
- App.AppComponent.Restart: `handleRestart` (App.tsx:46-49) resets only the session and the state, so the error banner of a failed generation stays on screen after a restart; the model keeps the banner as the code does.
