# interact, modelled in Dafny

A model of the core of the Go package `interact` (github.com/deiwin/interact):
an `Actor` that holds a buffered reader and a writer, and uses them to ask the
user questions on a terminal. It covers:

- the plain prompt (`GetInput`) and the prompt with a default (`GetInputWithDefault`);
- the check pipeline (`runChecks`);
- the yes/no confirmation (`Confirm`, `confirmOnce`);
- the retry loops (`GetInputAndRetry`, `GetInputWithDefaultAndRetry`) and the
  retry question between attempts (`confirmRetry`).

The model has three layers.

- `lines.dfy` turns the two library calls the package depends on into pure
  functions. `Lines.TrimSpace` is `strings.TrimSpace`, with Go's white-space
  set. `Lines.ReadString` is `bufio.Reader.ReadString('\n')`.
- `confirm.dfy` and `input.dfy` describe each operation as a function. It
  takes the input not yet read and returns an `Exchanges.Exchange`. An
  exchange holds:
  - the Go result pair (value, error), with `None` for the nil error;
  - the input left unread;
  - the exact text written.

  The lemmas beside those functions state what the package promises. The
  re-ask loop of `Confirm` is pinned down for any number of bad answers. The
  retry loop either starts over after "y" or gives up with `errCanceled`.
  It is also pinned down for any number of rejected answers, each followed
  by "y". A read error while asking the retry question is returned as it
  is, not as `errCanceled` (input.go:81-83,
  `Prompting.RetryQuestionUnanswered`).
  A check that rejects stops the checks after it from being consulted. The
  default is returned without running any check.
- `actor.dfy` is the `Actor` class. Its `input` field is the reader and its
  `output` field is everything written so far. Each method has the loops
  and early returns of the Go code. Each method is proved to produce exactly
  the exchange that a function describes, starting from the state it was
  called in. For most methods that is the function of the same name. The two
  retry loops, `GetInputAndRetry` and `GetInputWithDefaultAndRetry`, are
  proved against `Prompting.Retry`, with the question `Plain(message)` or
  `WithDefault(message, fallback)`.

`scenarios.dfy` states the conversations of the repository's tests and of
its package example as lemmas about the model. Most lemmas give the value
that comes back and every character written; the others state one step of
a conversation. The package example is also stated for a method that uses
one `Actor` (`Scenarios.Example`). The tests call the operations by other
names: `Prompt`, `PromptOptional`, `PromptAndRetry` and
`PromptOptionalAndRetry`. The model uses the names in input.go.

## Model

| member | source | states |
|---|---|---|
| Lines.TrimSpace | input.go:96 | the result is the input with all leading and trailing white space removed: everything outside it is white space, it neither starts nor ends with white space, and it is empty exactly when the input is all white space |
| Lines.TrimSpaceIs | input.go:96 | any slice that satisfies that characterisation is the result, so the trimmed text is unique |
| Lines.TrimSpaceUnchanged | input.go:96 | text that neither starts nor ends with white space is returned unchanged |
| Lines.TrimSpaceIdempotent | input.go:96 | trimming twice is trimming once |
| Lines.TrimSpaceDropsNewline | confirm.go:50-51 | the newline that ReadString leaves on a line makes no difference once the line is trimmed |
| Lines.TrimSpacePadded | input_test.go:94-100 | any white space around a word (as in " user-input ") is removed and the word is returned |
| Lines.ReadString | input.go:92 | the line and the rest make up the whole input; eof is set exactly when there is no newline, and then everything is consumed; otherwise the line ends at the first newline and includes it |
| Lines.ReadStringLine | input.go:92 | a newline-terminated line is returned with its newline and leaves exactly what follows it |
| Lines.ReadStringUnterminated | input.go:92-95 | input without a newline is consumed entirely and reported as end of input |
| Confirmation.Classify | confirm.go:54-70 | a trimmed answer is accepted exactly when it is "y", "n", or empty under a default; the result is true exactly for "y" and for the empty answer under DefaultToYes; anything else gives false with errNoOptionSelected |
| Confirmation.ConfirmOnce | confirm.go:38-71 | writes "message options: " once, consumes one line, fails with the read error (and false) exactly when no complete line is left, and otherwise decides as Classify on the trimmed line |
| Confirmation.Confirm | confirm.go:27-36 | never returns errNoOptionSelected; a read error comes with false and all input consumed; what remains is a suffix of the input; on success the input held a complete line, and what remains is a suffix of what follows the first line |
| Confirmation.PromptFormats | confirm.go:39-48 | the question reads "message [Y/n]: ", "message [y/N]: " or "message [y/n]: " for the three policies |
| Confirmation.ConfirmAnswered | confirm.go:27-36 | a recognised answer on the first line ends the question after one prompt and leaves the following lines unread |
| Confirmation.ConfirmReasked | confirm.go:29-32 | an unrecognised answer writes "Please select y/n!" on its own line and asks the identical question again on the following input |
| Confirmation.ConfirmReadError | confirm.go:50-53 | at the end of the input the question ends with false and the read error, whatever the unterminated text says |
| Confirmation.YesAndNo | confirm.go:64-69 | "y" is yes and "n" is no under every policy |
| Confirmation.EmptyAnswer | confirm.go:54-63 | an empty answer is yes under DefaultToYes and no under DefaultToNo, and asks again under NoDefault |
| Confirmation.ConfirmReaskedAgain | confirm.go:28-33 | one more unrecognised line in front of a question that ends after n re-asks makes it end after n + 1, with the same answer and the same input left |
| Confirmation.ConfirmAfterReasks | confirm.go:27-36 | any number of unrecognised lines followed by a recognised one: prompt and diagnostic once per bad line, the prompt once more, and the recognised answer decides |
| Prompting.FirstRejection | input.go:99-107 | no rejection exactly when every check accepts; a rejection is the message of some check that rejects while all checks before it accept |
| Prompting.FirstRejectionIsFirst | input.go:100-104 | the result is the message of the first check that rejects |
| Prompting.FirstRejectionIgnoresLater | input.go:100-104 | once a check rejects, appending further checks changes nothing |
| Prompting.RunChecks | input.go:99-107 | the loop over the checks returns the first rejection, or nil when every check accepts |
| Prompting.ReadInput | input.go:90-97 | writes the prompt, consumes one line, and returns the trimmed line, or "" and the read error exactly when no complete line is left |
| Prompting.GetInput | input.go:50-60 | writes "message: "; succeeds exactly when a complete line is read and every check accepts its trimmed text, which it returns; otherwise "" with the read error or the first rejection |
| Prompting.GetInputWithDefault | input.go:64-77 | writes "message: (fallback) "; a successful value is the fallback or passes every check; on error the value is "" |
| Prompting.GetInputUnterminated | input.go:51-54 | at the end of the input both prompts return "" and the read error, consuming everything, without consulting a check |
| Prompting.GetInputLine | input.go:50-60 | on a complete line: the trimmed line when every check accepts, otherwise "" and the error of the first rejecting check, unchanged; exactly that line is consumed |
| Prompting.DefaultOnEmptyLine | input.go:69-71 | an empty or all-white-space line gives the fallback whatever the checks would say |
| Prompting.DefaultAgreesWithPlain | input.go:64-77 | unless the line is empty, the defaulted prompt returns the same value and error and consumes the same input as the plain one |
| Prompting.Attempt | input.go:22 | one attempt consumes a prefix of the input, all of it on a read error; its value is acceptable on success and "" on error |
| Prompting.ConfirmRetry | input.go:79-88 | the retry question is Confirm of "error\nDo you want to try again?" defaulting to no, with the same input consumed and the same text written; the result is nil exactly when Confirm answers yes, errCanceled exactly when it answers no, and Confirm's own error when it fails; nil only when the input held a complete line, leaving a suffix of what follows the first line |
| Prompting.ConfirmRetryAfterReasks | input.go:79-88 | any number of unrecognised answers to the retry question, then a recognised one: nil when that answer is "y", errCanceled otherwise, with exactly those lines consumed |
| Prompting.Retry | input.go:20-31 | the loop returns nil, errCanceled or the read error; on success the value is accepted by every check (or is the fallback); on error it is "" |
| Prompting.RetryAccepted | input.go:24-27 | "y" to the retry question prompts again from scratch on the input that follows the answer |
| Prompting.RetryDeclined | input.go:84-86 | "n" or an empty answer ends the loop with errCanceled; the attempt's own error is not returned |
| Prompting.RetryQuestionUnanswered | input.go:81-83 | a read error while asking the retry question is returned as it is |
| Prompting.RetryQuestionFormat | input.go:80 | the retry question is written as the error text followed by "\nDo you want to try again? [y/N]: " |
| Prompting.RetryAtEndOfInput | input.go:20-31 | with no complete line left, the loop writes the prompt and the "EOF" retry question and returns the read error |
| Prompting.RetryAfterYes | input.go:79-88 | a failed attempt answered with "y" writes the prompt, the error and the question, and the loop starts over on what follows |
| Prompting.RetryAcceptsLine | input.go:28-29 | a complete line that every check accepts (or a blank line under a default) ends the loop at once with its value, after one prompt, consuming exactly that line |
| Prompting.AttemptRejectsLine | input.go:22-23 | a complete line that a check rejects, and that is not blank under a default, fails the attempt with that check's message, unchanged, after one prompt |
| Prompting.RejectedThenYes | input.go:20-31 | a rejected line answered with "y" writes the prompt, the message and the retry question, then the loop starts over on what follows |
| Prompting.RetriedAgain | input.go:20-31 | one more rejected line answered with "y" in front of a loop that succeeds keeps its value and input left, and adds one prompt, message and retry question to the front of what is written |
| Prompting.RetryAfterRejections | input.go:20-31 | any number of rejected lines, each answered "y", then an accepted line: the loop returns that line's value, consumes exactly those lines, and writes prompt, message and retry question once per rejected line, in order, then the prompt once more |
| Exchanges.Message | input.go:10 | a check's message is written unchanged; errCanceled reads "Command aborted", errNoOptionSelected (confirm.go:11) "Please select y/n!", and the read error "EOF", each on one line and each distinct from the others |
| Interact.Actor.Write | input.go:91 | a write (the Fprint at input.go:91, the Fprintln at confirm.go:31 and the Fprintf at confirm.go:48) appends exactly its text to the output and reads nothing |
| Interact.Actor.ReadLine | input.go:92 | a.rd.ReadString('\n') (also confirm.go:50) returns what Lines.ReadString gives on the unread input, leaves its rest unread and writes nothing |
| Interact.Actor.NewActor | actor.go:16-18 | a new actor has read nothing and written nothing |
| Interact.Actor.ReadInput | input.go:90-97 | getInput on the actor's state does exactly what Prompting.ReadInput describes |
| Interact.Actor.GetInput | input.go:50-60 | returns, consumes and writes exactly what Prompting.GetInput describes |
| Interact.Actor.GetInputWithDefault | input.go:64-77 | returns, consumes and writes exactly what Prompting.GetInputWithDefault describes |
| Interact.Actor.ConfirmOnce | confirm.go:38-71 | returns, consumes and writes exactly what Confirmation.ConfirmOnce describes |
| Interact.Actor.Confirm | confirm.go:27-36 | the loop returns, consumes and writes exactly what Confirmation.Confirm describes, and never returns errNoOptionSelected |
| Interact.Actor.ConfirmRetry | input.go:79-88 | returns, consumes and writes exactly what Prompting.ConfirmRetry describes |
| Interact.Actor.GetInputAndRetry | input.go:20-31 | the loop returns, consumes and writes exactly what Prompting.Retry describes for the plain prompt; the error is nil, errCanceled or the read error |
| Interact.Actor.GetInputWithDefaultAndRetry | input.go:35-46 | the same for the prompt with a default |
| Scenarios.CorrectInput | input_test.go:52-56 | the retry tests' prompt returns "correct-input" after writing "Please answer: " once |
| Scenarios.FirstInputRejected | input_test.go:36-41 | "user-input1" is rejected with "The first time fails!" |
| Scenarios.RetryThenCorrect | input_test.go:47-64 | rejected answer, "y", correct answer: "correct-input" is returned and the prompt, the error with the retry question, and the prompt are written |
| Scenarios.GibberishThenYesConfirmed | confirm_test.go:129-139 | under DefaultToNo, gibberish and then "y" gives yes after the question, "Please select y/n!" and the question again |
| Scenarios.GibberishThenYes | input_test.go:67-69 | the same answers to the retry question let the loop go on |
| Scenarios.RetryAfterGibberish | input_test.go:67-86 | rejected answer, gibberish, "y", correct answer: "correct-input" is returned and the prompt, question, diagnostic, question and prompt are written in that order |
| Scenarios.CheckNotEmpty | example_test.go:18-24 | the example's checkNotEmpty accepts exactly the non-empty answers and otherwise rejects with "Input should not be empty!" |
| Scenarios.ExampleHello | example_test.go:45-50 | the example's first prompt returns "hello" |
| Scenarios.ExampleNegative | example_test.go:53-54 | "-2" passes the emptiness check and is rejected by the second check |
| Scenarios.ExampleRetried | example_test.go:72-75 | "y" after that rejection writes the prompt, "The number can not be negative!" and the retry question, then starts over |
| Scenarios.ExampleFive | example_test.go:53-58 | "5" passes both checks and is returned |
| Scenarios.ExampleRetryPositive | example_test.go:53-58 | "-2", "y", "5" returns "5" |
| Scenarios.ExampleRetryDefault | example_test.go:61-66 | "-2", "y", empty line returns the default "7" |
| Scenarios.Example | example_test.go:35-81 | the whole example on one Actor returns "hello", "5" and "7" and writes exactly the three conversations in order |

## Left out

- The Go types `io.Reader`, `io.Writer` and `bufio.Reader` are not modelled. The reader is the string of input not yet read; the writer is the string written so far.
- Errors from the writer are not modelled: `fmt.Fprint` and `fmt.Fprintln` results are ignored in the source too.
- A read error is modelled only as end of input, with the text "EOF". Other reader errors are not distinguished.
- Characters are Dafny `char`s, not the UTF-8 bytes Go reads. Go's white-space set is written out in full (`Lines.IsSpace`). Invalid UTF-8 is not modelled.
- A `ConfirmDefault` value outside the three constants is not modelled: the enumeration has exactly three values. In Go such a value writes an empty options string, and an empty answer falls through to errNoOptionSelected.
- The checks are pure functions of the trimmed input. A check with side effects or state is not modelled, such as the tests' counter that fails only on the first call. The retry tests therefore use a check that rejects the first answer by its text.
- checkIsAPositiveNumber in the package example parses with `strconv.Atoi`, which is not part of this model. It is stood in for by a check that rejects text starting with '-', which judges the example's answers in the same way.
- The tests' buffer that echoes user input into the output (`TestBuffer` in example_test.go) and the Ginkgo suite are not part of this model. So the echoed answers in the example's expected output are not part of the written text.
- Concurrent use of one Actor is not modelled: the package assumes one conversation at a time.
