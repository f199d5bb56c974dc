# Mental Health Tracker: assessment core in Dafny

This project models the logic of the tracker's single page component (`Home` in
`pages/index.tsx`). The user picks a mood, types free-text answers to five fixed
questions, may write a journal entry, and presses "Analyze". The page then counts
the answers that are one of the negative words `no`, `not really`, `bad` or `low`,
ignoring letter case. It shows one of three feedback messages chosen by that
count and appends the selected mood to a rolling history of at most five entries.
It also sends a record of the submission to a remote store.

The page's React state is modelled as an immutable record, `Session.State`. Every
event handler is a pure function from state to state. Submit also returns the
record it hands to the store. A mood choice or an answer edit takes a catalog
mood or question. The page creates buttons and input boxes only for catalog
entries, so no other value can reach these handlers.

Modules:

- `Catalog` (`catalog.dfy`): the mood and question catalogs, the negative
  vocabulary, the three feedback messages and the score thresholds.
- `Text` (`text.dfy`): ASCII lower-casing, standing in for `toLowerCase`.
- `Scoring` (`scoring.dfy`): the severity score and the feedback tiers.
  - The score is defined as the page computes it: every stored answer counts
    once, whatever key it sits under.
  - `CatalogScore` is a second definition. It walks the question catalog and
    reads an unanswered question as `""`, the value its input box shows.
  - The two definitions are proved equal for every answer map whose keys are
    catalog questions.
- `History` (`history.dfy`): `Array.prototype.slice` with a negative start, the
  five-entry mood window, and the theorem that any run of submits keeps exactly
  the last five moods, in order.
- `Session` (`session.dfy`): the state record and the initial state. It defines
  the event handlers: mood choice, answer edit, journal edit, theme toggle and
  submit. Runs of events are modelled too, with an invariant that every run
  preserves.

Two behaviours of the code are worth stating plainly:

- The handler lower-cases an answer but does not trim it, so `" no "` does not
  count (`Scoring.PaddedAnswerNeverCounts`, `Scoring.OtherAnswersDoNotCount`).
- The share links interpolate `window.location.href` unencoded. They are not
  modelled.

Data and catalogs, with the lines they model:

- `Catalog.Moods` (pages/index.tsx:209) and `Catalog.Questions`
  (pages/index.tsx:219-225) are the mood buttons and the question prompts.
- `Catalog.NegativeWords` (pages/index.tsx:230) is the list `includes` tests
  against.
- The three message constants are the texts at pages/index.tsx:237-241.
- `Session.State` holds the `useState` variables of pages/index.tsx:210-217,
  except `copied`.
- `Session.Submission` is the row inserted at pages/index.tsx:249-255, without
  `created_at`.
- `Session.Valid` is the state invariant that every event preserves.

## Model

| member | source | states |
|---|---|---|
| Text.ToLower | pages/index.tsx:230 | The lower-cased answer has the same length, and each character is the ASCII lower case of the character at the same position. |
| Text.ToLowerDecidesCase | pages/index.tsx:230 | Two strings lower-case to the same text exactly when they differ at most in letter case. |
| Scoring.Score | pages/index.tsx:228-233 | The score is a natural number no larger than the number of stored answers. |
| Scoring.CountNegative | pages/index.tsx:228-233 | The handler's loop visits each stored answer once, adds one per counting answer, and ends with exactly the score. |
| Catalog.MoodsDistinct | pages/index.tsx:209 | The mood catalog has five entries, no two alike. |
| Scoring.QuestionsDistinct | pages/index.tsx:219-225 | The question catalog has five prompts, no two alike, so each prompt is a distinct answer key. |
| Scoring.IsNegative | pages/index.tsx:230 | An answer that counts has the length of one of the four negative words: 2, 3 or 10 characters. |
| Scoring.NegativeWordsAreLower | pages/index.tsx:230 | The negative words contain no capital letters, so lower-casing an answer can produce them. |
| Scoring.NegativeIffWordUpToCase | pages/index.tsx:230 | An answer counts if and only if it equals one of "no", "not really", "bad", "low" up to letter case. |
| Scoring.PaddedAnswerNeverCounts | pages/index.tsx:230 | An answer with a leading or trailing blank never counts, because nothing is trimmed. |
| Scoring.CapitalsStillCount | pages/index.tsx:230 | "NO" and "Not Really" count: matching ignores case. |
| Scoring.OtherAnswersDoNotCount | pages/index.tsx:230 | " no ", the empty answer, "yes" and "nope" do not count. |
| Scoring.AnswerTo | pages/index.tsx:300 | The text shown for a question counts only if it is the answer stored under that question; an unanswered question shows text that does not count. |
| Scoring.EmptyNeverCounts | pages/index.tsx:300 | The empty text, shown for an unanswered question, never counts. |
| Scoring.ScoreSplit | pages/index.tsx:229-232 | Each stored answer contributes exactly 1 when it counts and 0 otherwise. The score is the rest plus that contribution. |
| Scoring.ScoreOfUpdate | pages/index.tsx:229-232 | Storing text v under a key leaves the other keys' contributions alone and adds 1 exactly when v counts. |
| Scoring.ScoreAddNew | pages/index.tsx:229-232 | Answering a question for the first time raises the score by that answer's contribution. |
| Scoring.CatalogScore | pages/index.tsx:219-225 | Walking a list of prompts scores at most one point per prompt. |
| Scoring.CountedAmongCons | pages/index.tsx:229-232 | The counting keys among a list of prompts are those among its tail, plus its head when the head's answer counts; an unanswered head never counts. |
| Scoring.CatalogScoreCounts | pages/index.tsx:219-233 | Walking distinct prompts, with unanswered ones read as "", counts exactly the stored answers under those prompts that count. |
| Scoring.ScoreWalksCatalog | pages/index.tsx:219-233 | When every key is a catalog question, the count over stored values equals the walk over the question catalog. |
| Scoring.ScoreAtMostCatalogSize | pages/index.tsx:219-233 | With only catalog keys, the score is at most 5. |
| Scoring.Feedback | pages/index.tsx:235-242 | The feedback is always one of the three fixed messages. |
| Scoring.MessagesDistinct | pages/index.tsx:237-241 | The three messages are pairwise different, so the message shown identifies its tier. |
| Scoring.FeedbackThresholds | pages/index.tsx:235-242 | High concern exactly when the score is at least 3; moderate exactly when it is 2; low exactly when it is at most 1. |
| Scoring.FeedbackMonotone | pages/index.tsx:235-242 | A higher score never gives a less severe tier. |
| Scoring.FeedbackBoundaries | pages/index.tsx:235-242 | Scores 1, 2, 3 and 10 give low, moderate, high and high concern. |
| Scoring.EmptyAnswersLowConcern | pages/index.tsx:227-242 | With no answers at all the score is 0 and the message is the low-concern one; there is no error path. |
| History.SliceFrom | pages/index.tsx:246 | slice with one start index returns a suffix; a negative start -n keeps min(n, length) elements. |
| History.Append | pages/index.tsx:246 | The new history is the last min(4, length) old entries followed by the submitted mood, even the empty one. It never has more than 5 entries. |
| History.AppendAll | pages/index.tsx:246 | Repeated submits from a history of at most five entries keep at most five entries, and the newest entry is the last mood submitted. |
| History.AppendDrawsFrom | pages/index.tsx:246 | Every entry after an append was already in the history or is the submitted mood. |
| History.AppendSlidesWindow | pages/index.tsx:246 | One append equals taking the last five of the whole record of moods with the new mood added. |
| History.AppendAllKeepsLastFive | pages/index.tsx:246 | After any number of submits from a history of at most five, the history is exactly the last five moods of the whole record, in order. |
| History.SevenSubmits | pages/index.tsx:246 | Seven submits from an empty history leave the last five moods in order. |
| Session.Initial | pages/index.tsx:210-217 | The page starts with no mood, no answers, an empty journal, no suggestion, no result shown, no history and the light theme, and this state satisfies the invariant. |
| Session.ToggleTheme | pages/index.tsx:265 | Toggling always changes the theme. |
| Session.ToggleThemeTwice | pages/index.tsx:265 | Toggling twice restores the original theme. |
| Session.PressToggle | pages/index.tsx:265 | The theme button flips the theme and changes nothing else. |
| Session.SelectMood | pages/index.tsx:286 | A mood button selects its mood and changes nothing else. |
| Session.EditAnswer | pages/index.tsx:301 | Typing into question q stores the text under q. Every other answer and every other field is unchanged, and the key set grows by q only. |
| Session.EditAnswerScore | pages/index.tsx:301 | Typing into question q changes the score by q's contribution only. |
| Session.EditJournal | pages/index.tsx:312 | Typing into the journal sets the journal text and changes nothing else. |
| Session.Submit | pages/index.tsx:227-256 | Submit shows the result with the feedback for the answers' score and appends the selected mood to the history. It leaves mood, answers, journal and theme unchanged and emits the record {mood, answers, journal}. |
| Session.SubmitDependsOnAnswersOnly | pages/index.tsx:227-242 | The message depends on the answers only, not on mood, journal, history or earlier results. |
| Session.SubmitKeepsValid | pages/index.tsx:244-246 | Submit keeps the invariant: the history stays within five entries of catalog moods or the empty mood, and a result is shown with a feedback message. |
| Session.Step | pages/index.tsx:285-316 | Each event sends one record to the store if it is a submit and none otherwise. |
| Session.StepKeepsValid | pages/index.tsx:285-316 | Every event keeps the state invariant: answers only under catalog questions, at most five history entries, result shown exactly when something was submitted. |
| Session.Run | pages/index.tsx:285-316 | A run of events sends exactly one record per submit, with no deduplication. |
| Session.RunKeepsValid | pages/index.tsx:210-316 | Every run of events from a valid state (the freshly loaded page among them) ends in a valid state. |
| Session.ValidScoreAtMostFive | pages/index.tsx:219-233 | In a state satisfying the invariant, the score is at most 5. |
| Session.RunScoreAtMostFive | pages/index.tsx:219-301 | However the user edits answers, the score stays at most 5. |
| Session.TwoRapidSubmits | pages/index.tsx:244-256 | Two submits in a row send two records with identical content, show the same message, and put the mood into the history twice. |
| Session.SubmitOnFreshPage | pages/index.tsx:210-256 | Submitting on a fresh page shows the low-concern message and records the empty mood as the single history entry. |
| Session.ThreeNegativeAnswersHighConcern | pages/index.tsx:219-242 | "no", "no", "no", "yes", "high" for the five questions score 3 and give the high-concern message. |
| Session.ThreeOfFiveScore | pages/index.tsx:228-233 | Those five answers under any five distinct keys score exactly 3. |

## Left out

- Text.ToLower: folds only the ASCII letters. The page calls the host's full Unicode `toLowerCase`. No non-ASCII character lower-cases to a letter of the negative words, so matching against them is unaffected.
- The write to the remote store (pages/index.tsx:249-256) is asynchronous and its result is never checked. The model replaces it with the `Submission` record that `Session.Submit` returns. The `created_at` timestamp comes from the clock and is not modelled. Write failures and ordering against later events are not modelled.
- `copyLink` and the `copied` flag (pages/index.tsx:259-263) use the clipboard and a timer, so they are not modelled.
- The share links (pages/index.tsx:329, 336) only interpolate the browser's current URL, so they are not modelled.
- Rendering is not modelled: styled components, themes' colours, the conditional result panel and the history joined with arrows (pages/index.tsx:1-206, 267-370).
- `components/ui/button.tsx` and `styles/styled.d.ts` hold presentation and type declarations only.
