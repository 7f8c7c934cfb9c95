# Quiz runner: a Dafny model

This project models the core of a command-line quiz written in Go (`main.go`).
The quiz loads question/answer pairs from a two-column CSV file. It can
shuffle them. It then asks the questions one at a time under a single timer
for the whole attempt, and scores the typed answers. After an attempt that
completed, it can offer another one.

The model is functional. Immutable datatypes stand for the program's values,
pure functions over sequences stand for its operations, and lemmas relate the
two.

- `Text` (text.dfy): the answer normalisation `strings.TrimSpace(strings.ToLower(x))`,
  restricted to ASCII, and the matching rule built on it.
- `Records` (records.dfy): `Question` and `readCSV`. The input is the records
  the CSV reader has lexed, or the reader's lexing failure. The reader's own
  field-count check is part of the model: every record must be as wide as the
  first. The load is all-or-nothing.
- `Sequencer` (sequencer.dfy): the optional shuffle. `rand.Shuffle` drives the
  program's swap callback. The random draws are a parameter.
- `Attempt` (attempt.dfy): `askQuestions`. The program races a background
  line reader against a timer. Here that race is an event script, where each
  event is either the next typed line (`Line`) or the timer firing (`Timeout`).
  A script that runs out while a question waits means standard input ended
  there, and the attempt ends as `InputEnded`. In the source, the reader
  goroutine calls `log.Fatal` as soon as its read fails (main.go:101-103),
  whether or not a question is waiting; see "## Left out".
- `Session` (session.dfy): `main`. It loads the questions, shuffles them when
  asked, and runs the attempt loop with its retry prompt. Each round of the
  script gives one attempt's events and the reply typed at the retry prompt.
  Past the end of the script there are no events, and the reply at the retry
  prompt is empty, because a failed line read there returns nothing and its
  error is ignored (main.go:59). This settles in favour of `main` the race
  that end of input starts with the attempt's reader goroutine, as described
  under "## Left out".

Two details of the program shape the model:

- An attempt that times out ends the whole session (main.go:41-45). The error
  is printed and `main` returns. The score of that attempt is not printed or
  saved, and no retry is offered. In the model, such a session ends with
  `TimedOutEnd` and has no report for that attempt.
- The help text of the `limit` flag speaks of a limit per question
  (main.go:68). The code starts one timer per attempt (main.go:111). The model
  has one `Timeout` event per attempt, and nothing after it is read.

## Model

| member | source | states |
|---|---|---|
| Text.ToLowerSpec | main.go:121 | Lower-casing maps each upper-case ASCII letter to its lower-case partner and keeps every other character in place. No upper-case letter is left. |
| Text.TrimSpaceSpec | main.go:121 | The input splits into a white-space head, the trimmed text and a white-space tail. The trimmed text neither starts nor ends with white space. |
| Text.TrimSpaceUnique | main.go:121 | Any white space around a trimmed string is removed exactly. Trimming gives back that string, so the split above is unique. |
| Text.TrimSpacePadded | main.go:121 | Adding white space at either end of a string does not change what trimming keeps. |
| Text.NormalizeCommutes | main.go:121 | Lower-casing then trimming gives the same key as trimming then lower-casing. |
| Text.KeyIsNormalize | main.go:121 | The key used for matching (peel white space, then lower-case) equals `TrimSpace(ToLower(s))`, the program's normalisation. |
| Text.MatchesIff | main.go:121 | A line matches an answer exactly when both normalise to the same text. Equivalently, their trimmed texts lower-case alike. |
| Text.MatchIgnoresPadding | main.go:121 | Matching ignores white space around the typed line, including the kept line terminator. |
| Text.MatchIgnoresCase | main.go:121 | Lines that lower-case alike match. |
| Text.NormalizeIdempotent | main.go:121 | Normalising an already normalised text changes nothing. |
| Text.ParisExample | main.go:121 | The typed line " paris \n" matches the expected answer "Paris". |
| Records.ToQuestions | main.go:83-91 | The load succeeds exactly when every row has two fields. It then yields one question per row, in file order, with question i = (row i field 0, row i field 1). Otherwise it fails with a format error and keeps nothing. No rows load as no questions. |
| Records.ReadCsv | main.go:76-92 | A lexing failure is passed on as the load's error. So is the reader's rejection of a record whose field count differs from the first record's. The load succeeds exactly when every record has two fields, and then question i is (record i field 0, record i field 1). A format error is reported exactly when all records agree in width but that width is not two. |
| Records.RaggedFileIsReadError | main.go:77-81 | A file whose second record has three fields while the first has two fails in the reader, not at the two-field check. |
| Records.WideFileIsFormatError | main.go:84-87 | A file whose records all have three fields passes the reader and fails the two-field check. |
| Records.RoundTrip | main.go:83-91 | Writing questions as two-field rows and loading them gives back the same questions in the same order. |
| Records.RowsRoundTrip | main.go:83-91 | A well-formed file equals the rows of the questions loaded from it. |
| Records.LoadAppend | main.go:83-91 | Loading two files' rows back to back gives the first file's questions followed by the second's. |
| Sequencer.Swap | main.go:37 | The swap callback exchanges the two named questions and leaves all others in place. |
| Sequencer.ShuffleFrom | main.go:37 | The swaps for positions top down to 1 keep the length and never touch a position above top. |
| Sequencer.Shuffle | main.go:35-38 | Shuffling keeps the number of questions. A list of at most one question is unchanged. |
| Sequencer.ShufflePermutes | main.go:35-38 | Shuffling only reorders: it gives the same questions, each as often as before. |
| Attempt.Ask | main.go:109-127 | The score is at most the number of questions and at most the number of events consumed. With no questions, the attempt completes without prompts or events. A completed attempt took one event per question and wrote every prompt. A timed-out attempt wrote one prompt per event taken and scored fewer points than events taken. Ended input means the whole script was used before the last question, with one prompt more than events. |
| Attempt.AskPromptsInOrder | main.go:115-116 | The prompts written are "<question>: " for the questions reached, in order. |
| Attempt.AskStopsWhereScriptSays | main.go:115-124 | Every event the attempt took before stopping was a typed line. A timed-out attempt took the timer's event last. |
| Attempt.AllAnswered | main.go:115-126 | If the first n events (n = number of questions) are lines, the attempt completes. It writes all n prompts, takes n events, and its score is the number of i with line i matching answer i. |
| Attempt.TimeoutAt | main.go:116-119 | If the timer fires while question k waits, the attempt times out. It has written the prompts of questions 0..k, taken k+1 events, and scored only the matches among the first k lines. |
| Attempt.InputEndsAt | main.go:98-105 | If standard input ends while a question waits, the attempt stops there. It wrote that question's prompt, and its score counts the matches among the lines read. |
| Attempt.OnlyConsumedEventsMatter | main.go:117-120 | A completed or timed-out attempt never looks at events after those it consumed. Replacing them changes nothing. |
| Attempt.StopIsFinal | main.go:118-119 | After an attempt stops early, questions further down change nothing: no further prompt, no further event. |
| Attempt.ScoreGrowth | main.go:120-123 | The score never decreases as more questions are asked, and each further question adds at most one point. |
| Attempt.ThreeQuestionsTimeout | main.go:115-119 | Take 3 questions and a timer that fires before the second answer. The attempt times out, scores only the first answer, and never writes the third prompt. |
| Attempt.AskQuestions | main.go:109-127 | The loop as written, with a running score and an index. It yields exactly the outcome of `Ask`. It completes exactly when every question got a line. |
| Session.Drive | main.go:40-63 | Attempts run in order. Every attempt but the last completed and asked for a retry. The last attempt's outcome decides how the session ended. Each completed attempt prints its own score, saved exactly when an output file is named. A timed-out attempt prints no score. |
| Session.Loop | main.go:40-63 | At least one attempt runs, and with retry off exactly one. Every completed attempt prints one score: one per attempt when the session finished normally, and one fewer when the last attempt timed out or input ended. Every attempt before the last completed, with retry on and a reply of "yes". Each printed score is that of its own round's attempt, out of the number of questions. The session finished normally exactly when its last attempt completed, and then no retry followed. It timed out or aborted exactly when that attempt did. Scores are saved exactly when an output file is named. |
| Session.Main | main.go:22-63 | A failed load stops the program before any attempt, with the loader's error. After a successful load, the session is exactly the attempt loop run over a reordering of the loaded questions: the same questions, each as often, and in file order when shuffling is off. So everything stated for `Session.Loop` holds of the program. In particular, at least one attempt runs and one score is printed per completed attempt, out of the loaded count. |
| Session.WantsRetryIff | main.go:60 | Another attempt is asked for exactly when the reply normalises to "yes", the same rule as matching an answer. |
| Session.ExhaustedInputStops | main.go:59-60 | An empty reply (input at its end) never starts another attempt. |
| Session.YesWithNewlineRetries | main.go:59-60 | The reply "Yes\n" starts another attempt. |
| Session.OrderIsPermutation | main.go:35-38 | The attempts ask a reordering of exactly the loaded questions. Without the shuffle flag, or with at most one question, the order is the file order. |

## Left out

- Flag parsing (`readArguments`) and opening the file (`openFile`): configuration and I/O. `Config` keeps the shuffle, output and retry settings. The time limit shows only as where `Timeout` falls in each attempt's events.
- CSV lexing and quoting (`csv.Reader.ReadAll`): library code. The model starts from the lexed records, or from the lexing failure as `Unreadable`. The reader's field-count check is modelled.
- Records.ReadCsv: the reader's field-count failure is the text "wrong number of fields". The record and line number the library adds to that message are not modelled. The reader stops at its first error. A file whose first error is a lexing one is given as `Unreadable`. A file whose first error is a record of the wrong width is given as `Rows` holding at least the records up to that one.
- The goroutine, channel and timer of `askQuestions`: concurrency and real time. The environment resolves the race as an event script, including the random choice when both channels are ready.
- The background reader is never stopped, so it can swallow a line meant for the next attempt or for the retry prompt. The model does not track this. Each round's events and reply are whatever the environment supplies.
- `log.Fatalf` on a failed load (main.go:31-33): it ends the process. The model ends the session with `LoadFailed`.
- Session.Loop: the reader goroutine of each attempt reads ahead and calls `log.Fatal` the moment standard input ends (main.go:98-106), even when no question is waiting. The model turns that into `Aborted` only when input ends while a question waits. When input ends after the last question was answered, or in an attempt with no questions, the model settles the race in favour of `main`. The attempt completes, its score is printed and saved, and the retry reply is `""`. In the program the process may instead exit before the score is printed (main.go:47), before it is saved (main.go:50), or before the retry read (main.go:59). The model also does not cover an attempt that dies before the waiting question's prompt is written. These outcomes depend on goroutine scheduling, which the model does not represent.
- `rand.Seed` and the library's random draws: the draws are a parameter.
- Sequencer.Shuffle: reduces each draw modulo the number of candidate positions and uses 0 for missing draws. It does not state that the library's draws are uniform or that every order is reachable.
- `saveScore` and all printing (prompt text aside): file and console I/O. The session records which scores are printed and which are appended. It does not model the text `Score: n/total` or the file itself.
- Full Unicode `strings.ToLower` and `strings.TrimSpace`: only ASCII letters and the six ASCII white-space characters are modelled. Other characters are kept unchanged.
