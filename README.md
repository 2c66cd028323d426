# AI interviewer front end: session coordinator, interview screen and results parser

This project models the core of a React front end for an AI-run job interview. The core has three
parts:

- **The session coordinator** (`InterviewProvider`). It starts an interview for a job title, asks
  a question service for five questions one at a time, and sends the whole question/answer
  history for evaluation after the fifth answer. It also starts a proctoring session and polls it,
  and it raises a 3-second warning banner whenever the proctor's warning count goes up.
- **The interview screen.** It shows the current question and lets the candidate type or dictate
  an answer, with a 60-second recording countdown. It shows its own warning toast, replaces
  everything with an overlay once the proctor stops the test, and redirects away when there is no
  job title or when the interview is complete.
- **The results screen.** It reads the score, the PASS/FAIL decision, the strengths and the areas
  for improvement out of the free-text assessment using fixed patterns, and it derives the
  display from them.

Modules:

- `Strings` (`strings.dfy`): JavaScript's white-space set and `trim`, digit runs and `parseInt`
  of them, the decimal numerals template literals produce, ASCII case-insensitive matching (a
  regular expression with the `i` flag), substring search and a leftmost-match scanner.
- `InterviewContext` (`interview_context.dfy`):
  - the coordinator's state as a `Session` value, with one function per event: start, each reply,
    submit, poll, banner timer;
  - traces of events (`Step`, `Run`) and the lemmas about them;
  - the class `Coordinator`, whose fields mirror `Session` and whose methods perform each event in
    place; each method is proved equal to its function.
- `InterviewView` (`interview_view.dfy`):
  - the pure rules: the clock text, the speech-result merge, the screen choice, the redirects, the
    submit guard;
  - the recording countdown and the toast as values;
  - the class `InterviewScreen`, which holds the component's local state and whose methods perform
    the same events in place.
- `Results` (`results.dfy`): the assessment parser and the display rules. Each regular expression
  is written out as a scanner for that one pattern, applied at the leftmost position where it
  succeeds.

How the outside world is modelled:

- Network requests are split into two events: the moment a request is issued and the moment its
  reply arrives.
- A reply is one of three things: a 2xx reply with its payload, a non-2xx reply, or a thrown error
  carrying its message.
- Timers (the 1-second poll, the 3000 ms banner and toast hides, the 1-second countdown tick) are
  explicit events. A poll reply and a warnings change seen by the screen carry the time they
  arrive at; that time only records when the hide they schedule is due (`Due(at)`). The events
  that fire a timer (the banner hide, the toast hide, the countdown tick) carry no time. They
  can happen whenever their timer is pending, and nothing compares the clock against `at`.
- The three state setters of one poll callback are applied as a single update, as React 18
  batches them. The banner effect then runs at most once per poll (`ApplyPoll`).
- The beep and the spoken warning appear as boolean results of the methods that would trigger
  them. So does the order to stop the speech recognizer: the countdown and the tick report it
  when recording reaches 0, and the Stop button always reports it.

Behaviours these proofs make explicit:

- **A reason-only poll can leave the banner up.** The banner effect re-runs when only the reason
  changes. That re-run's cleanup cancels the pending hide and schedules no new one, so the banner
  stays up until the next increase (`BannerOutlivesReasonChange`).
- **The toast keeps its hide timer.** The toast effect has no cleanup, so the same change leaves
  its hide pending (`ToastKeepsTimerWhereBannerLosesIt`).
- **The provider does not ignore blank answers.** `submitAnswer` appends them like any other
  answer. Only the screen's `handleSubmit` ignores an answer that is blank after trimming.
- **`stopped` is not latched.** Every poll overwrites it, so a later poll can clear it again
  (`StoppedIsOverwritten`).
- **Only a capital "PASS" counts.** The decision is PASS only when the matched text contains
  upper-case "PASS", so "Decision: pass" reads as FAIL.
- **No extras.** No request falls back to a "Tab switched" reason, and nothing fetches the status
  beyond the poll.

## Model

| member | source | states |
|---|---|---|
| Strings.Trim | src/components/Interview.jsx:951 | `trim` gives a slice of the text with only white space before and after it, no white space at either end, and the empty string exactly when the text is all JavaScript white space |
| Strings.TrimBlank | src/components/Interview.jsx:951 | once the leading white space and then the trailing white space are cut off, the empty string is left exactly when the text was all white space |
| Strings.TrimSlice | src/components/Interview.jsx:951 | cutting white space off the front and then off the back leaves a slice of the text with only white space around it |
| Strings.SpaceThenRest | src/components/Interview.jsx:951 | one white-space character followed by white space and then `r` is white space followed by `r` |
| Strings.TrimOfTrimmed | src/components/Results.jsx:44 | trimming a string with no white space at its ends changes nothing |
| Strings.TrimSpaceLead | src/components/Results.jsx:41 | white space in front of a text that does not start with white space is exactly what the leading-space cut removes |
| Strings.TrimTrailingSpace | src/components/Results.jsx:44 | a non-empty trimmed text followed by white space trims back to the text |
| Strings.TrimOfPadded | src/components/Results.jsx:44 | a text whose first n characters start and end with non-space and are followed only by white space trims to those n characters |
| Strings.SpacePrefixBefore | src/components/Interview.jsx:951 | a non-space character lies after any all-white-space prefix |
| Strings.SpaceSuffixAfter | src/components/Interview.jsx:951 | a non-space character lies before any all-white-space suffix |
| Strings.Decimal | src/components/Interview.jsx:958 | the template-literal numeral of n is a digit string without leading zeros whose `parseInt` value is n |
| Strings.DigitsValue | src/components/Results.jsx:28 | `parseInt` of a digit run: the decimal value of the digits (its meaning is pinned by `Decimal`, `LeadingZero` and the clock round trip) |
| Strings.LeadingZero | src/components/Interview.jsx:957 | a leading zero, as the clock's seconds padding writes it, does not change the value read back |
| Strings.Contains | src/components/Results.jsx:35 | `includes`: case-sensitive substring test |
| Strings.ContainsIff | src/components/Results.jsx:35 | the substring test holds exactly when the part sits at some position of the text |
| Strings.FindLiteralAt | src/components/Results.jsx:39 | a search for a literal from `from` finds position i when the literal matches at i and at no earlier position from `from` |
| Strings.FindLiteralEnd | src/components/Results.jsx:39 | a search finds nothing before the end when the literal matches nowhere from `from` |
| Strings.FirstMatch | src/components/Results.jsx:25 | a pattern applied without `g` yields the match at the leftmost position where it succeeds, and fails only when it succeeds nowhere |
| Strings.FirstMatchLeftmost | src/components/Results.jsx:25 | the scan finds exactly the position where the pattern first succeeds, with what it matched there |
| InterviewContext.Initial | src/context/InterviewContext.jsx:557-577 | the provider starts with an empty title, history and question, question number 0, no assessment, not loading, no error, zero warnings, no session and no banner |
| InterviewContext.Start | src/context/InterviewContext.jsx:649-663 | `startInterview` sets loading, clears the error, history and assessment, sets question 1 and issues the start request; it keeps the current question and all proctoring state |
| InterviewContext.ReceiveStart | src/context/InterviewContext.jsx:664-675 | a question moves on to starting proctoring and stays loading; a bad status records "Failed to start interview" and a thrown error its message, and both end loading |
| InterviewContext.ReceiveProctorStart | src/context/InterviewContext.jsx:580-585 | the session id is stored and loading ends; a bad status is read as a body without an id; only a thrown error records an error; the warning count, reason, stopped flag and seen count are kept |
| InterviewContext.Submit | src/context/InterviewContext.jsx:679-724 | ignored while loading; otherwise appends (question, answer), clears the error and asks for the evaluation from question 5 on, else for question number + 1, with the updated history |
| InterviewContext.ReceiveEvaluation | src/context/InterviewContext.jsx:692-710 | success stores the assessment and completes; a bad status records "Failed to evaluate" and an error its message; loading ends either way |
| InterviewContext.ReceiveNextQuestion | src/context/InterviewContext.jsx:714-732 | success shows the new question and advances the number; a bad status records "Failed to get next question"; loading ends either way; the history is kept |
| InterviewContext.WarningEffect | src/context/InterviewContext.jsx:602-625 | a strict increase over the previously seen count raises the banner with the reason and schedules a hide after 3000 ms; otherwise the cleanup leaves no hide pending; the seen count is updated |
| InterviewContext.EffectRuns | src/context/InterviewContext.jsx:625 | the banner effect's dependency list: it re-runs when the warning count or the reason changed |
| InterviewContext.ApplyPoll | src/context/InterviewContext.jsx:588-599 | a poll overwrites warnings, reason and stopped verbatim and re-runs the banner effect only when warnings or reason changed |
| InterviewContext.FireAlertTimer | src/context/InterviewContext.jsx:619-621 | the pending hide clears the banner and nothing else |
| InterviewContext.InitialConsistent | src/context/InterviewContext.jsx:557-577 | the initial state is consistent |
| InterviewContext.StepKeepsConsistent | src/context/InterviewContext.jsx:649-733 | every event keeps the invariant: an assessment exists exactly when complete, loading exactly while a request is outstanding, and the seen warning count equals the current one |
| InterviewContext.RunKeepsConsistent | src/context/InterviewContext.jsx:649-733 | every trace of events from a consistent state ends consistent |
| InterviewContext.RunAppend | src/context/InterviewContext.jsx:649-733 | running two traces one after the other is running their concatenation |
| InterviewContext.SecondSubmitIgnored | src/context/InterviewContext.jsx:680 | a second submit while the first is outstanding changes nothing |
| InterviewContext.RoundsAdvance | src/context/InterviewContext.jsx:713-727 | k successful answer/next-question rounds advance the number by k and append one turn per answer pairing it with the question shown then |
| InterviewContext.OneRound | src/context/InterviewContext.jsx:713-727 | one answer and a successful next-question reply record the turn (question shown, answer), show the new question, advance the number by one and clear the error |
| InterviewContext.AnsweredAt | src/context/InterviewContext.jsx:684-687 | the i-th appended turn pairs the question shown at round i with the i-th answer |
| InterviewContext.FullInterview | src/context/InterviewContext.jsx:649-733 | from any state, a fully successful interview completes with the evaluation verbatim and a five-entry history pairing each question with its answer |
| InterviewContext.MockedScenario | src/context/InterviewContext.jsx:679-710 | against a mocked backend, five answers for "Frontend Developer Basic Fresher" complete with the returned assessment and the first turn is the first question and answer |
| InterviewContext.StoppedIsOverwritten | src/context/InterviewContext.jsx:596 | a poll reporting stopped followed by one reporting not stopped clears the flag again |
| InterviewContext.DwellRestarts | src/context/InterviewContext.jsx:617-621 | after two increases the banner shows the latest reason and the only pending hide is 3000 ms after the latest |
| InterviewContext.BannerOutlivesReasonChange | src/context/InterviewContext.jsx:624 | a poll changing only the reason keeps the banner up and leaves no hide pending |
| InterviewContext.NoIncreaseNoBanner | src/context/InterviewContext.jsx:603 | a poll without an increase never changes the banner text |
| InterviewContext.Coordinator.constructor | src/context/InterviewContext.jsx:557-577 | the fields start as the initial state |
| InterviewContext.Coordinator.StartInterview | src/context/InterviewContext.jsx:649-663 | the fields become `Start` of the old fields |
| InterviewContext.Coordinator.OnStartReply | src/context/InterviewContext.jsx:664-675 | the fields become `ReceiveStart` of the old fields |
| InterviewContext.Coordinator.OnProctorStartReply | src/context/InterviewContext.jsx:580-585 | the fields become `ReceiveProctorStart` of the old fields |
| InterviewContext.Coordinator.SubmitAnswer | src/context/InterviewContext.jsx:679-724 | the fields become `Submit` of the old fields; it reports a request exactly when it was not loading |
| InterviewContext.Coordinator.OnEvaluationReply | src/context/InterviewContext.jsx:692-710 | the fields become `ReceiveEvaluation` of the old fields |
| InterviewContext.Coordinator.OnNextQuestionReply | src/context/InterviewContext.jsx:714-732 | the fields become `ReceiveNextQuestion` of the old fields |
| InterviewContext.Coordinator.OnPoll | src/context/InterviewContext.jsx:588-625 | the fields become `ApplyPoll` of the old fields; beep and speech are cued exactly when the effect runs on an increase |
| InterviewContext.Coordinator.RunWarningEffect | src/context/InterviewContext.jsx:602-625 | the fields become `WarningEffect` of the old fields; the beep and speech are cued exactly on a strict increase over the seen count |
| InterviewContext.Coordinator.OnAlertTimer | src/context/InterviewContext.jsx:619-621 | the fields become `FireAlertTimer` of the old fields |
| InterviewView.FormatTime | src/components/Interview.jsx:956-959 | the clock text is the minute numeral, a colon and exactly two digits whose value is the seconds |
| InterviewView.ParseClock | src/components/Interview.jsx:956-959 | a text that reads back is a run of digits, a colon and two digits; its minutes are the value of the digits before the colon and its seconds, below 60, the value of the two after; a text shorter than four characters or without a colon third from the end reads as nothing |
| InterviewView.ClockRoundTrip | src/components/Interview.jsx:956-959 | reading the clock text back gives the number of seconds |
| InterviewView.ClockExamples | src/components/Interview.jsx:1038 | 60 s shows as 1:00, 9 s as 0:09, 59 s as 0:59 |
| InterviewView.TextsAppend | src/components/Interview.jsx:938-941 | the final and the interim texts of joined runs of results are the joins of their texts |
| InterviewView.FinalTextAppend | src/components/Interview.jsx:938-941 | the final text of two joined runs of results is the final text of the first followed by that of the second |
| InterviewView.InterimTextAppend | src/components/Interview.jsx:938-941 | the interim text of two joined runs of results is the interim text of the first followed by that of the second |
| InterviewView.MergeTranscript | src/components/Interview.jsx:936-943 | the draft is the final transcripts from `resultIndex` on, in order, or the interim ones when those are empty; an index past the end gives the empty draft |
| InterviewView.AllFinalOrNone | src/components/Interview.jsx:940-942 | all-final results have no interim text, and results with no final one have no final text |
| InterviewView.ChooseScreen | src/components/Interview.jsx:906-924 | the stop overlay exactly when stopped, else the loading screen while loading or without a question, else the form |
| InterviewView.SubmitEnabled | src/components/Interview.jsx:1049 | the submit button is enabled exactly when not loading and the trimmed draft is not empty (used by `EnabledSubmitIssues`) |
| InterviewView.EnabledSubmitIssues | src/components/Interview.jsx:1049 | a submit the enabled button allows appends exactly one turn and issues a request |
| InterviewView.StoppedHidesForm | src/components/Interview.jsx:906-914 | after a poll reporting stopped only the overlay is shown |
| InterviewView.Navigations | src/components/Interview.jsx:843-845 | '/' exactly for an empty job title, '/results' exactly when complete, in that order when both |
| InterviewView.Settle | src/components/Interview.jsx:876-884 | the countdown effect leaves a tick pending exactly while recording with time left, and stops recording at 0 |
| InterviewView.StartRecording | src/components/Interview.jsx:927-929 | starting records with 60 seconds left and a tick pending |
| InterviewView.StopRecording | src/components/Interview.jsx:1031 | stopping ends recording with no tick pending and keeps the time left |
| InterviewView.Tick | src/components/Interview.jsx:878 | a tick takes one second off and keeps the countdown invariant: 0..60 seconds, a tick pending exactly while recording, recording exactly while time is left |
| InterviewView.CountdownSteps | src/components/Interview.jsx:876-884 | k ticks while recording take k seconds off, and recording lasts exactly until time runs out |
| InterviewView.CountdownFrom | src/components/Interview.jsx:876-884 | after k ticks from a start, 60 - k seconds are left and recording goes on exactly while k < 60 |
| InterviewView.ToastEffect | src/components/Interview.jsx:887-903 | an increase shows "Warning: " and the reason and schedules a hide after 3000 ms; otherwise text and pending hide are untouched; the seen count is updated |
| InterviewView.HideToast | src/components/Interview.jsx:900 | the hide clears the toast |
| InterviewView.NoRiseNoToast | src/components/Interview.jsx:888 | counts that never rise leave the toast and its hide unchanged |
| InterviewView.ToastDwellRestarts | src/components/Interview.jsx:899-900 | after two increases the toast shows the latest reason and hides 3000 ms after the latest |
| InterviewView.ToastKeepsTimerWhereBannerLosesIt | src/components/Interview.jsx:887-903 | a reason-only change that leaves the provider's banner with no hide pending leaves the toast's hide in place |
| InterviewView.InterviewScreen.constructor | src/components/Interview.jsx:827-834 | empty draft, not recording, 60 seconds, no toast, seen count 0 |
| InterviewView.InterviewScreen.EditAnswer | src/components/Interview.jsx:1020 | typing replaces the draft |
| InterviewView.InterviewScreen.OnSpeechResult | src/components/Interview.jsx:936-943 | a recognition result replaces the draft with the merged transcript |
| InterviewView.InterviewScreen.HandleSubmit | src/components/Interview.jsx:949-954 | a blank draft changes nothing; otherwise the untrimmed draft goes to `submitAnswer` and the draft is cleared |
| InterviewView.InterviewScreen.SettleRecording | src/components/Interview.jsx:876-884 | the fields follow `Settle`; the recognizer is stopped exactly when recording reached 0 |
| InterviewView.InterviewScreen.StartRecordingEvent | src/components/Interview.jsx:927-929 | the fields follow `StartRecording` |
| InterviewView.InterviewScreen.StopRecordingEvent | src/components/Interview.jsx:1031 | the fields follow `StopRecording`; the recognizer is always told to stop |
| InterviewView.InterviewScreen.TickEvent | src/components/Interview.jsx:878-881 | the fields follow `Tick`; the recognizer is stopped exactly on the last second |
| InterviewView.InterviewScreen.OnWarnings | src/components/Interview.jsx:887-903 | the fields follow `ToastEffect`; the beep plays exactly on an increase |
| InterviewView.InterviewScreen.OnHideTimer | src/components/Interview.jsx:900 | the fields follow `HideToast` |
| Results.LeftmostOfFirstPattern | src/components/Results.jsx:25-26 | `match(a)`, else `match(b)`, is a's leftmost match when a matches anywhere, else b's, and nothing exactly when neither matches |
| Results.ExtractScore | src/components/Results.jsx:25-29 | the score is read from the leftmost "Score:? n/100" if any, else from the leftmost bare "n/100", and is missing exactly when neither occurs |
| Results.BareScoreAt | src/components/Results.jsx:26 | the pattern `(\d+)\/100` at one position: the whole digit run there followed by "/100", yielding its value; exact by `BareScoreAnySplit` |
| Results.LabelledScoreAt | src/components/Results.jsx:25 | the pattern `Score:?\s*(\d+)\/100` at one position, case-insensitively, reading the colon and the white space greedily; exact by `LabelledScoreAnySplit` |
| Results.AfterColonSpace | src/components/Results.jsx:25 | the greedy reading of `:?\s*`: where the text after an optional colon and its white space starts |
| Results.GreedyColonSpace | src/components/Results.jsx:25 | when the character after an optional colon and some white space is neither white space nor a colon, the greedy reading stops exactly there |
| Results.BareScoreAnySplit | src/components/Results.jsx:26 | every way `(\d+)\/100` can match at a position gives the scanner's value, since a shorter digit run is followed by a digit and not by '/' |
| Results.LabelledScoreAnySplit | src/components/Results.jsx:25 | every way `Score:?\s*(\d+)\/100` can match at a position, with or without the colon and with any split of the white space, gives the scanner's value, since neither a colon nor white space starts `\s*\d` |
| Results.BareScoreOfNumeral | src/components/Results.jsx:26 | a numeral followed by "/100" is a bare score of that value |
| Results.LabelledScoreOf | src/components/Results.jsx:25 | "Score: " followed by a bare score is a labelled score of the same value |
| Results.ScoreRoundTrip | src/components/Results.jsx:24-28 | an assessment starting "Score: n/100" gives score n whatever follows |
| Results.DecisionText | src/components/Results.jsx:32-33 | the leftmost "Decision:? word" match if any, else the leftmost PASS or FAIL in any case, and nothing exactly when neither occurs |
| Results.DecisionAt | src/components/Results.jsx:32 | the pattern `Decision:?\s*(\w+)` at one position, case-insensitively, reading the colon, the white space and the word greedily, yielding the whole matched text; exact by `DecisionAnySplit` |
| Results.PassFailAt | src/components/Results.jsx:33 | the pattern `PASS\|FAIL` at one position, case-insensitively: both alternatives have four letters, so the match is the four characters there |
| Results.DecisionAnySplit | src/components/Results.jsx:32 | whenever `Decision:?\s*(\w+)` can match at a position, the scanner matches there and its text runs to the end of the word run, which is what the greedy `\w+` returns |
| Results.WordRunAtLeast | src/components/Results.jsx:32 | a run of w word characters lies inside the maximal word run there |
| Results.DecisionAtLabel | src/components/Results.jsx:32 | the labelled pattern at "Decision: " matches the label and the whole word after it, stopping where the word ends |
| Results.ExtractDecision | src/components/Results.jsx:32-36 | PASS exactly when the matched text contains upper-case "PASS", FAIL for any other match, missing exactly when nothing matches |
| Results.DecisionWordDecides | src/components/Results.jsx:31-35 | after "Decision: " the whole following word decides, PASS exactly when it contains "PASS" |
| Results.DecisionWithoutUpperPIsFail | src/components/Results.jsx:35 | a decision word without a capital P, such as "pass", reads as FAIL |
| Results.Section | src/components/Results.jsx:39 | a section exists exactly when its header occurs anywhere; it starts with the header and is the slice `IsSection` describes: from the first header to the first terminator after it, or to the end |
| Results.IsSection | src/components/Results.jsx:39 | the slice from the first header to the first terminator after the header, or to the end when there is none |
| Results.SectionAt | src/components/Results.jsx:39 | conversely, in any text the section found is the slice `IsSection` describes |
| Results.Lines | src/components/Results.jsx:42 | splitting on newline runs gives at least one piece and no piece contains a newline; with `LinesNoNewline` and `LinesSplit` it is determined on every text |
| Results.Newlines | src/components/Results.jsx:42 | a run of n newline characters |
| Results.LinesNoNewline | src/components/Results.jsx:42 | a text without a newline splits into itself alone |
| Results.LinesSplit | src/components/Results.jsx:42 | a newline-free piece, a run of one or more newlines and a rest not starting with a newline split into the piece followed by the pieces of the rest, so the whole run is one separator and a run at the end leaves an empty last piece |
| Results.LinesOfSpaced | src/components/Results.jsx:42 | non-empty newline-free lines joined by runs of one or more newlines, then n more newlines, split back into the lines, plus one empty piece when n > 0 |
| Results.LinesOfLast | src/components/Results.jsx:42 | the last line followed by n newlines splits into the line, plus an empty piece when n > 0 |
| Results.LinesOfNext | src/components/Results.jsx:42 | a line and its run of newlines put in front of a rest add the line in front of the rest's pieces |
| Results.JoinSpacedStarts | src/components/Results.jsx:42 | lines joined by newline runs start with the first line's first character |
| Results.IsBulletLine | src/components/Results.jsx:43 | a bullet line is one whose trimmed text is non-empty and starts with '*' or '-' |
| Results.StripBullet | src/components/Results.jsx:44 | the item text has no white space at its ends; a line not starting with a bullet is only trimmed, so an indented bullet stays in the text (its bullet case is pinned by `StripBulletAt` and `StripBulletLine`) |
| Results.StripBulletOf | src/components/Results.jsx:44 | a line made of '*' or '-', any white space and a trimmed text strips to exactly that text |
| Results.StripBulletLine | src/components/Results.jsx:44 | a line made of '*' or '-', any white space and any text not starting with white space strips to the trimmed text |
| Results.StripBulletTrailing | src/components/Results.jsx:44 | white space after the item, such as a CRLF line's carriage return, is trimmed away |
| Results.StripBulletAt | src/components/Results.jsx:44 | a bullet followed by a maximal run of n white-space characters: stripping removes exactly those n + 1 characters and trims the rest, whatever the rest is |
| Results.BulletLineItem | src/components/Results.jsx:43-45 | such a line with a non-empty text contributes exactly that text |
| Results.ItemOf | src/components/Results.jsx:43-45 | a line that is not a bullet line contributes nothing; a bullet line contributes its stripped text exactly when that is not empty |
| Results.BulletItems | src/components/Results.jsx:43-45 | every kept item is non-empty and trimmed, and there are no more items than lines |
| Results.BulletItemsAppend | src/components/Results.jsx:43-45 | the items of two runs of lines joined are the items of the first followed by those of the second, so lines that are not bullets can be mixed in anywhere |
| Results.NoBulletsNoItems | src/components/Results.jsx:43 | lines none of which is a bullet line give no items |
| Results.ExtractList | src/components/Results.jsx:38-48 | a missing header gives no items; otherwise, for the slice from i to j that `IsSection` describes, the list is the bullet items of the newline-run pieces of the slice after the header and its white space |
| Results.Strengths | src/components/Results.jsx:38-48 | the strengths are the list under "Key Strengths:" up to "Areas for Improvement:" (its contract is `StrengthsRoundTrip`) |
| Results.Improvements | src/components/Results.jsx:50-60 | the improvements are the list under "Areas for Improvement:" up to "Specific Tips:" (its contract is `ImprovementsRoundTrip`) |
| Results.LinesOfJoin | src/components/Results.jsx:42 | splitting non-empty newline-free lines joined by single newlines gives the lines back |
| Results.DashIsBullet | src/components/Results.jsx:43 | "- item" passes the bullet-line filter |
| Results.StripDash | src/components/Results.jsx:44 | stripping "- item" leaves the item |
| Results.StripRendered | src/components/Results.jsx:43-44 | the line "- item" contributes exactly the item |
| Results.BulletItemsOfLines | src/components/Results.jsx:43-45 | reading "- item" lines keeps every item, in order |
| Results.ItemsRoundTrip | src/components/Results.jsx:41-45 | items listed one per line as "- item" read back unchanged |
| Results.ItemsRoundTripSpaced | src/components/Results.jsx:42-45 | items written as "- item" lines separated by one or more newlines (so blank lines may sit between them), and followed by any number of newlines, read back unchanged |
| Results.BulletLinesPlain | src/components/Results.jsx:42 | every "- item" line is non-empty and holds no newline |
| Results.NoItemsAtEnd | src/components/Results.jsx:43-45 | the empty last piece left by trailing newlines yields no item |
| Results.Fits | src/components/Results.jsx:41-42 | a layout fits the items: white space after the header, one run of at least one newline between each pair of neighbours, and items that are trimmed, non-empty and newline-free |
| Results.SectionOfBody | src/components/Results.jsx:39 | in any text made of a prefix without the header, a body starting with the header and free of the terminator after it, and a tail that is empty or starts with the terminator, the section is the body |
| Results.ItemsAfterHeader | src/components/Results.jsx:41-45 | a section written as the header, any white space, the "- item" lines with any runs of newlines between them and any newlines after them, reads back as the items once the header and its white space are removed |
| Results.ListRoundTrip | src/components/Results.jsx:38-48 | in an assessment made of a prefix without the header, then the header, any white space, "- item" lines separated by one or more newlines and followed by any newlines, then a tail that is empty or starts with the terminator, the list read is the items |
| Results.Assessment | src/components/Results.jsx:38-48 | an assessment text holding one section: a prefix, the section laid out as its `Layout` says (`RenderedSection`), then a tail |
| Results.RenderedSection | src/components/Results.jsx:41-42 | a section as written: the header, white space, the "- item" lines joined by newline runs, and newlines after the last item |
| Results.StrengthsRoundTrip | src/components/Results.jsx:38-48 | a strengths section written after any prefix without the header, with any white space after the header, blank lines between items and newlines before "Areas for Improvement:" or the end of the text, yields its items |
| Results.ImprovementsRoundTrip | src/components/Results.jsx:50-60 | an improvements section written after any prefix without the header, with any white space after the header, blank lines between items and newlines before "Specific Tips:" or the end of the text, yields its items |
| Results.ResultsView | src/components/Results.jsx:15-20 | the results are shown exactly when the assessment is present and non-empty and the interview is complete, and they are the parse of that assessment |
| Results.Parse | src/components/Results.jsx:15-60 | the score, decision, strengths and improvements of one assessment, each read by its own pattern |
| Results.DecisionLabel | src/components/Results.jsx:86 | the decision box reads PASS, FAIL, or Not Available when no decision was found |
| Results.DecisionGreen | src/components/Results.jsx:82-84 | the decision box is green exactly when its text reads PASS |
| Results.ScoreLabel | src/components/Results.jsx:95 | a missing score shows as '?', a score as its one decimal numeral: digits whose value is the score, with no leading zero |
| Results.BarColour | src/components/Results.jsx:101-102 | green from 70, yellow from 50 to 69, red below 50 or when missing |
| Results.BarWidth | src/components/Results.jsx:100 | the bar width is the score, or 0 when missing |
| Results.ListOrPlaceholder | src/components/Results.jsx:114-125 | an empty list shows only its placeholder line, a non-empty one its items |
| Results.HistoryEntries | src/components/Results.jsx:158-164 | the history panel has one entry per turn of the history |
| Results.HistoryEntryAt | src/components/Results.jsx:158-164 | entry i of the history panel is turn i, numbered i + 1 after the base, with that turn's question and answer |
| Results.QuestionLine | src/components/Results.jsx:161 | the question line is 'Q', then a numeral whose value is the entry's number and that has no leading zero, then ": " and the question |
| Results.AnswerLine | src/components/Results.jsx:164 | the answer line is 'A', then a numeral whose value is the entry's number and that has no leading zero, then ": " and the answer |
| Results.HistoryLinesAt | src/components/Results.jsx:158-164 | panel i of the history reads "Q<i + 1>: " before turn i's question and "A<i + 1>: " before its answer |

## Left out

- HTTP, JSON and the backend are left out. Replies are abstract, and the question, session id,
  assessment and status fields are taken as already decoded.
- Reply order is left out. A new start while a request is pending replaces the awaited request,
  so the older reply is dropped. In the browser, overlapping requests can resolve in either order,
  and several polls can be in flight at once.
- The poll's fixed one-second cadence is not modelled. A poll is an event with any time stamp.
- Timer firing times are not modelled. A hide or a tick may fire at any moment once its timer is
  pending; the due time `at` is recorded but never compared against a clock.
- ReceiveProctorStart: a non-2xx reply from the proctor start is read as a body without a session
  id. A 2xx body without an id is not told apart from an empty id.
- The beep, the spoken warning (speech synthesis), reading the question aloud, and the "Speaking…"
  state are left out. They are device output; only whether the beep or cue fires is returned.
- The microphone probe (`isMicAvailable`) and the rule that hides the record button without a
  microphone are left out. They depend on a browser API.
- The SpeechRecognition object is left out: creating it, its restart in `onend` (which uses
  the `isRecording` value from when recording started), and the case where the browser has none.
  StartRecording sets recording and 60 seconds either way, as the handler does before checking.
- The `blur`/`visibilitychange` logging effect of the provider is left out. It only posts events.
- Unmount cleanups are left out: the screen's cancel of speech, recognition and timers, and the
  effects' cleanups on unmount.
- The proctor camera image, the "Q n / 5" header, the warnings counter, ReactMarkdown rendering of
  the full assessment and the error paragraph are left out. They only display state.
- Navbar, App and Dashboard are not part of this model.
- ExtractScore: `parseInt` precision is not modelled. Digit runs are read exactly, where
  JavaScript numbers lose precision beyond 2^53.
- Results state across assessment changes is not modelled. The view's
  score/decision/strengths/improvements state keeps its previous value when a later assessment
  has no match; `Parse` describes one fresh mount.
- The `try/catch` around the parser is left out. No step of the modelled parse can throw.
- ListRoundTrip, StrengthsRoundTrip, ImprovementsRoundTrip: the section's lines are written as
  "- item" with no other lines among them. Other writings are covered one line at a time:
  `StripBulletLine` and `BulletLineItem` handle '*', any spacing and trailing white space, and
  `BulletItemsAppend` with `NoBulletsNoItems` handles lines that are not bullets.
- ApplyPoll: the three state setters of one poll callback are applied as one update, which
  assumes React 18 batching; the React version is not visible in the modelled files. Without
  batching, the warnings change would render first with the old reason, and the banner would show
  that stale reason.
