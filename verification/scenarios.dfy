/** Whole conversations from the repository's tests and example, stated on
    the model: the value returned and every character written. */
module Scenarios {
  import opened Wrappers
  import opened Lines
  import opened Exchanges
  import opened Confirmation
  import opened Prompting
  import Interact

  /** The prompt message, answers and check of the retry tests. */
  const Ask := "Please answer"
  const First := "user-input1"
  const Gibberish := "asdfsadf"
  const Correct := "correct-input"
  const Failure := "The first time fails!"

  /** A check that rejects the first answer of the retry tests. */
  function FailsFirst(s: string): Option<string> {
    if s == First then Some(Failure) else None
  }

  /** The retry question after that rejection, as written. */
  const Retrying := Failure + AskAgain

  /** The prompt of the retry tests accepts Correct on a line of its own. */
  lemma {:induction false} CorrectInput(rest: string)
    ensures Retry(Plain(Ask), [FailsFirst], Correct + "\n" + rest)
         == Exchange(Correct, None, rest, PlainPrompt(Ask))
  {
    var checks: seq<InputCheck> := [FailsFirst];
    PlainWord(Correct);
    assert AllPass(Correct, checks);
    GetInputLine(Ask, checks, Correct, rest);
    assert Attempt(Plain(Ask), checks, Correct + "\n" + rest) == Exchange(Correct, None, rest, PlainPrompt(Ask));
    RetryFirstSuccess(Plain(Ask), checks, Correct + "\n" + rest);
  }

  /** The rejected first answer of the retry tests. */
  lemma {:induction false} FirstInputRejected(rest: string)
    ensures Attempt(Plain(Ask), [FailsFirst], First + "\n" + rest)
         == Exchange("", Some(CheckErr(Failure)), rest, PlainPrompt(Ask))
  {
    var checks: seq<InputCheck> := [FailsFirst];
    PlainWord(First);
    assert AllPass(First, checks[..0]);
    GetInputLine(Ask, checks, First, rest);
  }

  /** A rejected answer, "y" to the retry question, and a correct second
      answer: the second answer is returned. */
  lemma RetryThenCorrect(rest: string)
    ensures Retry(Plain(Ask), [FailsFirst], First + "\n" + ("y" + "\n" + (Correct + "\n" + rest)))
         == Exchange(Correct, None, rest, PlainPrompt(Ask) + Retrying + PlainPrompt(Ask))
  {
    var tail := Correct + "\n" + rest;
    FirstInputRejected("y" + "\n" + tail);
    RetryAfterYes(Plain(Ask), [FailsFirst], First + "\n" + ("y" + "\n" + tail), CheckErr(Failure), tail);
    CorrectInput(rest);
  }

  /** Gibberish and then "y" to a question defaulting to no: the question,
      the diagnostic line and the question again, and the answer is yes. */
  lemma GibberishThenYesConfirmed(message: string, tail: string)
    ensures Confirm(message, DefaultToNo, Gibberish + "\n" + ("y" + "\n" + tail))
         == Exchange(true, None, tail, Prompt(message, DefaultToNo) + Reask + Prompt(message, DefaultToNo))
  {
    PlainWord(Gibberish);
    ConfirmReasked(message, DefaultToNo, Gibberish, "y" + "\n" + tail);
    PlainWord("y");
    ConfirmAnswered(message, DefaultToNo, "y", tail);
  }

  /** The same answers to the retry question: the loop goes on. */
  lemma GibberishThenYes(tail: string)
    ensures ConfirmRetry(CheckErr(Failure), Gibberish + "\n" + ("y" + "\n" + tail))
         == Exchange((), None, tail, Retrying + Reask + Retrying)
  {
    GibberishThenYesConfirmed(RetryQuestion(CheckErr(Failure)), tail);
    RetryQuestionFormat(CheckErr(Failure));
  }

  /** As RetryThenCorrect with a gibberish answer to the first retry question:
      the question is asked again after the diagnostic line. */
  lemma RetryAfterGibberish(rest: string)
    ensures Retry(Plain(Ask), [FailsFirst],
                  First + "\n" + (Gibberish + "\n" + ("y" + "\n" + (Correct + "\n" + rest))))
         == Exchange(Correct, None, rest, PlainPrompt(Ask) + (Retrying + Reask + Retrying) + PlainPrompt(Ask))
  {
    var tail := Correct + "\n" + rest;
    FirstInputRejected(Gibberish + "\n" + ("y" + "\n" + tail));
    GibberishThenYes(tail);
    CorrectInput(rest);
  }

  /** The checks of the package example. checkIsAPositiveNumber parses the
      answer with strconv.Atoi; here it is stood in for by a check that
      rejects a leading minus sign, which judges the example's answers alike. */
  const NotEmpty := "Input should not be empty!"
  const Negative := "The number can not be negative!"

  /** checkNotEmpty: accepts exactly the non-empty answers. */
  function CheckNotEmpty(s: string): (r: Option<string>)
    ensures r == None <==> s != ""
    ensures r != None ==> r.value == NotEmpty
  {
    if s == "" then Some(NotEmpty) else None
  }

  function CheckNotNegative(s: string): Option<string> {
    if |s| > 0 && s[0] == '-' then Some(Negative) else None
  }

  const Something := "Please enter something that's not empty"
  const Positive := "Please enter a positive number"
  const Another := "Please enter another positive number"

  /** The example's first prompt accepts "hello". */
  lemma ExampleHello(rest: string)
    ensures GetInput(Something, [CheckNotEmpty], "hello" + "\n" + rest)
         == Exchange("hello", None, rest, PlainPrompt(Something))
  {
    PlainWord("hello");
    GetInputLine(Something, [CheckNotEmpty], "hello", rest);
  }

  /** The negative answer of the example is rejected by the second check. */
  lemma ExampleNegative(q: Question, rest: string)
    ensures Attempt(q, [CheckNotEmpty, CheckNotNegative], "-2" + "\n" + rest)
         == Exchange("", Some(CheckErr(Negative)), rest, QuestionPrompt(q))
  {
    var checks: seq<InputCheck> := [CheckNotEmpty, CheckNotNegative];
    PlainWord("-2");
    assert AllPass("-2", checks[..1]);
    ReadStringLine("-2", rest);
    TrimSpaceDropsNewline("-2");
    FirstRejectionIsFirst("-2", checks, 1);
  }

  /** "y" to the retry question after the negative answer. */
  lemma ExampleRetried(q: Question, tail: string)
    ensures Retry(q, [CheckNotEmpty, CheckNotNegative], "-2" + "\n" + ("y" + "\n" + tail))
         == After(QuestionPrompt(q) + (Negative + AskAgain), Retry(q, [CheckNotEmpty, CheckNotNegative], tail))
  {
    ExampleNegative(q, "y" + "\n" + tail);
    RetryAfterYes(q, [CheckNotEmpty, CheckNotNegative], "-2" + "\n" + ("y" + "\n" + tail), CheckErr(Negative), tail);
  }

  /** "5" passes both checks of the example. */
  lemma ExampleFive(rest: string)
    ensures Retry(Plain(Positive), [CheckNotEmpty, CheckNotNegative], "5" + "\n" + rest)
         == Exchange("5", None, rest, PlainPrompt(Positive))
  {
    var checks: seq<InputCheck> := [CheckNotEmpty, CheckNotNegative];
    PlainWord("5");
    assert AllPass("5", checks);
    GetInputLine(Positive, checks, "5", rest);
    RetryFirstSuccess(Plain(Positive), checks, "5" + "\n" + rest);
  }

  /** The example's second prompt: "-2" is rejected, the user retries and "5"
      is returned. */
  lemma ExampleRetryPositive(rest: string)
    ensures Retry(Plain(Positive), [CheckNotEmpty, CheckNotNegative], "-2" + "\n" + ("y" + "\n" + ("5" + "\n" + rest)))
         == Exchange("5", None, rest, PlainPrompt(Positive) + (Negative + AskAgain) + PlainPrompt(Positive))
  {
    ExampleRetried(Plain(Positive), "5" + "\n" + rest);
    ExampleFive(rest);
  }

  /** The example's third prompt: "-2" is rejected, the user retries and an
      empty line gives the default "7". */
  lemma ExampleRetryDefault(rest: string)
    ensures Retry(WithDefault(Another, "7"), [CheckNotEmpty, CheckNotNegative], "-2" + "\n" + ("y" + "\n" + ("" + "\n" + rest)))
         == Exchange("7", None, rest, DefaultPrompt(Another, "7") + (Negative + AskAgain) + DefaultPrompt(Another, "7"))
  {
    var q, checks: seq<InputCheck> := WithDefault(Another, "7"), [CheckNotEmpty, CheckNotNegative];
    ExampleRetried(q, "" + "\n" + rest);
    DefaultOnEmptyLine(Another, "7", checks, "", rest);
    RetryFirstSuccess(q, checks, "" + "\n" + rest);
  }

  /** The package example run on an Actor: the answers for all three prompts
      are there from the start, each call reads only its own lines, and each
      returns the value the example expects. */
  method Example(rest: string) returns (hello: string, five: string, seven: string, written: string)
    ensures hello == "hello" && five == "5" && seven == "7"
    ensures written == PlainPrompt(Something)
                       + (PlainPrompt(Positive) + (Negative + AskAgain) + PlainPrompt(Positive))
                       + (DefaultPrompt(Another, "7") + (Negative + AskAgain) + DefaultPrompt(Another, "7"))
  {
    var third := "-2" + "\n" + ("y" + "\n" + ("" + "\n" + rest));
    var second := "-2" + "\n" + ("y" + "\n" + ("5" + "\n" + third));
    var actor := new Interact.Actor.NewActor("hello" + "\n" + second);
    var err;
    ghost var first := PlainPrompt(Something);
    ghost var retried := PlainPrompt(Positive) + (Negative + AskAgain) + PlainPrompt(Positive);
    ghost var defaulted := DefaultPrompt(Another, "7") + (Negative + AskAgain) + DefaultPrompt(Another, "7");
    ExampleHello(second);
    hello, err := actor.GetInput(Something, [CheckNotEmpty]);
    assert actor.input == second && actor.output == first;
    ExampleRetryPositive(third);
    five, err := actor.GetInputAndRetry(Positive, [CheckNotEmpty, CheckNotNegative]);
    assert actor.input == third && actor.output == first + retried;
    ExampleRetryDefault(rest);
    seven, err := actor.GetInputWithDefaultAndRetry(Another, "7", [CheckNotEmpty, CheckNotNegative]);
    assert actor.output == first + retried + defaulted;
    written := actor.output;
  }
}
