/** The prompts of input.go, as functions from the unread input to the
    exchange they produce: the check pipeline, the plain and the defaulted
    prompt, and the retry loop around both. */
module Prompting {
  import opened Wrappers
  import opened Lines
  import opened Exchanges
  import opened Confirmation

  /** InputCheck: a check of the trimmed input; Some(message) rejects it. */
  type InputCheck = string -> Option<string>

  predicate AllPass(s: string, checks: seq<InputCheck>) {
    forall k :: 0 <= k < |checks| ==> checks[k](s) == None
  }

  /** The rejection of the first check that rejects s, if any. */
  function FirstRejection(s: string, checks: seq<InputCheck>): (r: Option<string>)
    ensures r == None <==> AllPass(s, checks)
    ensures r != None ==> exists k :: 0 <= k < |checks| && checks[k](s) == r && AllPass(s, checks[..k])
  {
    if checks == [] then None
    else
      match checks[0](s)
      case Some(msg) =>
        assert checks[..0] == [];
        Some(msg)
      case None =>
        var r := FirstRejection(s, checks[1..]);
        if r != None then
          var k :| 0 <= k < |checks[1..]| && checks[1..][k](s) == r && AllPass(s, checks[1..][..k]);
          assert checks[..k + 1] == [checks[0]] + checks[1..][..k];
          assert checks[k + 1](s) == r;
          r
        else r
  }

  /** The result is the rejection of the first check that rejects. */
  lemma {:induction false} FirstRejectionIsFirst(s: string, checks: seq<InputCheck>, k: nat)
    requires k < |checks| && checks[k](s) != None && AllPass(s, checks[..k])
    ensures FirstRejection(s, checks) == checks[k](s)
  {
    if k > 0 {
      assert checks[0] == checks[..k][0];
      assert checks[1..][..k - 1] == checks[..k][1..];
      FirstRejectionIsFirst(s, checks[1..], k - 1);
    }
  }

  /** Checks after the first rejection are never consulted: appending any
      checks leaves the result unchanged. */
  lemma FirstRejectionIgnoresLater(s: string, checks: seq<InputCheck>, later: seq<InputCheck>)
    requires FirstRejection(s, checks) != None
    ensures FirstRejection(s, checks + later) == FirstRejection(s, checks)
  {
    var k :| 0 <= k < |checks| && checks[k](s) == FirstRejection(s, checks) && AllPass(s, checks[..k]);
    assert (checks + later)[..k] == checks[..k];
    assert (checks + later)[k] == checks[k];
    FirstRejectionIsFirst(s, checks + later, k);
  }

  /** runChecks: apply the checks in order and stop at the first rejection. */
  method RunChecks(input: string, checks: seq<InputCheck>) returns (err: Option<string>)
    ensures err == FirstRejection(input, checks)
  {
    for i := 0 to |checks|
      invariant AllPass(input, checks[..i])
    {
      err := checks[i](input);
      if err != None {
        FirstRejectionIsFirst(input, checks, i);
        return;
      }
      assert checks[..i + 1] == checks[..i] + [checks[i]];
    }
    assert checks[..|checks|] == checks;
    return None;
  }

  /** getInput: write the prompt, read one line, trim it. */
  function ReadInput(prompt: string, input: string): (r: Exchange<string>)
    ensures r.written == prompt
    ensures r.rest == ReadString(input).rest
    ensures r.err == None || r.err == Some(ReadErr)
    ensures r.err == Some(ReadErr) <==> NoNewline(input)
    ensures r.err == Some(ReadErr) ==> r.value == ""
    ensures r.err == None ==> r.value == TrimSpace(ReadString(input).line)
  {
    var rd := ReadString(input);
    if rd.eof then Exchange("", Some(ReadErr), rd.rest, prompt)
    else Exchange(TrimSpace(rd.line), None, rd.rest, prompt)
  }

  function PlainPrompt(message: string): string {
    message + ": "
  }

  function DefaultPrompt(message: string, fallback: string): string {
    message + ": (" + fallback + ") "
  }

  /** GetInput: one prompt, one line; the trimmed line is returned if every
      check accepts it, otherwise "" and the first rejection. */
  function GetInput(message: string, checks: seq<InputCheck>, input: string): (r: Exchange<string>)
    ensures r.written == PlainPrompt(message)
    ensures r.rest == ReadString(input).rest
    ensures r.err == None <==> !NoNewline(input) && AllPass(TrimSpace(ReadString(input).line), checks)
    ensures r.err == None ==> r.value == TrimSpace(ReadString(input).line)
    ensures r.err != None ==> r.value == ""
    ensures NoNewline(input) ==> r.err == Some(ReadErr)
    ensures !NoNewline(input) && r.err != None ==> r.err == Some(CheckErr(FirstRejection(TrimSpace(ReadString(input).line), checks).value))
  {
    var line := ReadInput(PlainPrompt(message), input);
    if line.err != None then line
    else
      match FirstRejection(line.value, checks)
      case Some(msg) => line.(value := "", err := Some(CheckErr(msg)))
      case None => line
  }

  /** GetInputWithDefault: as GetInput, except that an empty trimmed line
      gives the fallback without consulting any check. */
  function GetInputWithDefault(message: string, fallback: string, checks: seq<InputCheck>, input: string): (r: Exchange<string>)
    ensures r.written == DefaultPrompt(message, fallback)
    ensures r.rest == ReadString(input).rest
    ensures r.err == None ==> r.value == fallback || AllPass(r.value, checks)
    ensures r.err != None ==> r.value == ""
  {
    var line := ReadInput(DefaultPrompt(message, fallback), input);
    if line.err != None then line
    else if line.value == "" then line.(value := fallback)
    else
      match FirstRejection(line.value, checks)
      case Some(msg) => line.(value := "", err := Some(CheckErr(msg)))
      case None => line
  }

  /** A read error is returned as it is, and no check is consulted. */
  lemma {:induction false} GetInputUnterminated(message: string, fallback: string, checks: seq<InputCheck>, s: string)
    requires NoNewline(s)
    ensures GetInput(message, checks, s) == Exchange("", Some(ReadErr), [], PlainPrompt(message))
    ensures GetInputWithDefault(message, fallback, checks, s) == Exchange("", Some(ReadErr), [], DefaultPrompt(message, fallback))
  {
    ReadStringUnterminated(s);
  }

  /** A complete line: the trimmed line if every check accepts it, otherwise
      "" and the error of the first check that rejects it, returned unchanged. */
  lemma {:induction false} GetInputLine(message: string, checks: seq<InputCheck>, line: string, rest: string)
    requires NoNewline(line)
    ensures var r := GetInput(message, checks, line + "\n" + rest);
      r.rest == rest && r.written == message + ": " &&
      (AllPass(TrimSpace(line), checks) ==> r.value == TrimSpace(line) && r.err == None) &&
      (forall k :: 0 <= k < |checks| && checks[k](TrimSpace(line)) != None && AllPass(TrimSpace(line), checks[..k]) ==>
         r.value == "" && r.err == Some(CheckErr(checks[k](TrimSpace(line)).value)))
  {
    ReadStringLine(line, rest);
    TrimSpaceDropsNewline(line);
    forall k | 0 <= k < |checks| && checks[k](TrimSpace(line)) != None && AllPass(TrimSpace(line), checks[..k]) {
      FirstRejectionIsFirst(TrimSpace(line), checks, k);
    }
  }

  /** An empty or all-white-space line gives the fallback, whatever the checks
      would say: the result is the one with no checks at all. */
  lemma {:induction false} DefaultOnEmptyLine(message: string, fallback: string, checks: seq<InputCheck>, line: string, rest: string)
    requires NoNewline(line) && AllSpace(line)
    ensures GetInputWithDefault(message, fallback, checks, line + "\n" + rest)
         == Exchange(fallback, None, rest, DefaultPrompt(message, fallback))
  {
    ReadStringLine(line, rest);
    TrimSpaceDropsNewline(line);
  }

  /** Unless the line is empty, the defaulted prompt decides exactly as the
      plain one: same value, same error, same input consumed. */
  lemma {:induction false} DefaultAgreesWithPlain(message: string, fallback: string, checks: seq<InputCheck>, input: string)
    requires NoNewline(input) || TrimSpace(ReadString(input).line) != ""
    ensures var d, p := GetInputWithDefault(message, fallback, checks, input), GetInput(message, checks, input);
      d.value == p.value && d.err == p.err && d.rest == p.rest
  {
  }

  /** The two prompts the retry loop can wrap. */
  datatype Question = Plain(message: string) | WithDefault(message: string, fallback: string)

  function Attempt(q: Question, checks: seq<InputCheck>, input: string): (r: Exchange<string>)
    ensures IsSuffix(r.rest, input)
    ensures r.err == Some(ReadErr) ==> r.rest == []
    ensures r.err == None ==> Acceptable(q, checks, r.value)
    ensures r.err != None ==> r.value == ""
  {
    match q
    case Plain(message) => GetInput(message, checks, input)
    case WithDefault(message, fallback) => GetInputWithDefault(message, fallback, checks, input)
  }

  /** The value of a successful attempt: accepted by every check, or the fallback. */
  predicate Acceptable(q: Question, checks: seq<InputCheck>, value: string) {
    AllPass(value, checks) || (q.WithDefault? && value == q.fallback)
  }

  function RetryQuestion(e: Error): string {
    Message(e) + "\nDo you want to try again?"
  }

  /** confirmRetry: show the error and ask, defaulting to no, whether to try
      again; None means yes. */
  function ConfirmRetry(e: Error, input: string): (r: Exchange<()>)
    ensures r.err == None || r.err == Some(Canceled) || r.err == Some(ReadErr)
    ensures r.err == None ==> |r.rest| < |input|
    ensures r.err == None ==> !NoNewline(input) && IsSuffix(r.rest, ReadString(input).rest)
    ensures IsSuffix(r.rest, input)
    ensures var c := Confirm(RetryQuestion(e), DefaultToNo, input);
      r.written == c.written && r.rest == c.rest &&
      (r.err == None <==> c.err == None && c.value) &&
      (r.err == Some(Canceled) <==> c.err == None && !c.value) &&
      (c.err != None ==> r.err == c.err)
  {
    var c := Confirm(RetryQuestion(e), DefaultToNo, input);
    if c.err != None then Exchange((), c.err, c.rest, c.written)
    else if !c.value then Exchange((), Some(Canceled), c.rest, c.written)
    else Exchange((), None, c.rest, c.written)
  }

  /** Any number of unrecognised answers to the retry question, then a
      recognised one: "y" lets the loop go on, "n" or an empty answer cancels,
      and exactly the answered lines are consumed. */
  lemma ConfirmRetryAfterReasks(e: Error, bad: seq<string>, line: string, rest: string)
    requires AllUnrecognised(DefaultToNo, bad)
    requires NoNewline(line) && Recognised(DefaultToNo, TrimSpace(line))
    ensures var r := ConfirmRetry(e, JoinLines(bad) + (line + "\n" + rest));
      r.err == (if TrimSpace(line) == "y" then None else Some(Canceled)) && r.rest == rest
  {
    ConfirmAfterReasks(RetryQuestion(e), DefaultToNo, bad, line, rest);
  }

  /** GetInputAndRetry and GetInputWithDefaultAndRetry: attempt; on failure
      ask whether to try again and either start over or give up. */
  function Retry(q: Question, checks: seq<InputCheck>, input: string): (r: Exchange<string>)
    decreases |input|
    ensures r.err == None || r.err == Some(Canceled) || r.err == Some(ReadErr)
    ensures r.err == None ==> Acceptable(q, checks, r.value)
    ensures r.err != None ==> r.value == ""
    ensures IsSuffix(r.rest, input)
  {
    var a := Attempt(q, checks, input);
    if a.err == None then a
    else
      var c := ConfirmRetry(a.err.value, a.rest);
      SuffixOfSuffix(c.rest, a.rest, input);
      if c.err != None then Exchange("", c.err, c.rest, a.written + c.written)
      else
        var next := Retry(q, checks, c.rest);
        SuffixOfSuffix(next.rest, c.rest, input);
        After(a.written + c.written, next)
  }

  /** One round of the loop after a failed attempt: give up with the error of
      the retry question, or start over on the input that follows its answer. */
  lemma RetryAfterFailure(q: Question, checks: seq<InputCheck>, input: string)
    requires Attempt(q, checks, input).err != None
    ensures var a := Attempt(q, checks, input);
      var c := ConfirmRetry(a.err.value, a.rest);
      (c.err != None ==> Retry(q, checks, input) == Exchange("", c.err, c.rest, a.written + c.written)) &&
      (c.err == None ==> Retry(q, checks, input) == After(a.written + c.written, Retry(q, checks, c.rest)))
  {
  }

  /** The first attempt that succeeds is returned as it is. */
  lemma RetryFirstSuccess(q: Question, checks: seq<InputCheck>, input: string)
    requires Attempt(q, checks, input).err == None
    ensures Retry(q, checks, input) == Attempt(q, checks, input)
  {
  }

  /** After a failed attempt, "y" to the retry question prompts again from
      scratch on the input that follows the answer. */
  lemma {:induction false} RetryAccepted(q: Question, checks: seq<InputCheck>, input: string, answer: string, rest: string)
    requires Attempt(q, checks, input).err != None
    requires Attempt(q, checks, input).rest == answer + "\n" + rest
    requires NoNewline(answer) && TrimSpace(answer) == "y"
    ensures var a := Attempt(q, checks, input);
      Retry(q, checks, input) == After(a.written + Prompt(RetryQuestion(a.err.value), DefaultToNo), Retry(q, checks, rest))
  {
    ConfirmAnswered(RetryQuestion(Attempt(q, checks, input).err.value), DefaultToNo, answer, rest);
  }

  /** After a failed attempt, "n" or an empty answer ends the loop with
      errCanceled; the attempt's own error is not returned. */
  lemma {:induction false} RetryDeclined(q: Question, checks: seq<InputCheck>, input: string, answer: string, rest: string)
    requires Attempt(q, checks, input).err != None
    requires Attempt(q, checks, input).rest == answer + "\n" + rest
    requires NoNewline(answer) && (TrimSpace(answer) == "n" || TrimSpace(answer) == "")
    ensures var a := Attempt(q, checks, input);
      Retry(q, checks, input) == Exchange("", Some(Canceled), rest, a.written + Prompt(RetryQuestion(a.err.value), DefaultToNo))
  {
    ConfirmAnswered(RetryQuestion(Attempt(q, checks, input).err.value), DefaultToNo, answer, rest);
  }

  /** After a failed attempt, a read error while asking the retry question is
      returned as it is. */
  lemma {:induction false} RetryQuestionUnanswered(q: Question, checks: seq<InputCheck>, input: string)
    requires Attempt(q, checks, input).err != None
    requires NoNewline(Attempt(q, checks, input).rest)
    ensures var a := Attempt(q, checks, input);
      Retry(q, checks, input) == Exchange("", Some(ReadErr), [], a.written + Prompt(RetryQuestion(a.err.value), DefaultToNo))
  {
    ConfirmReadError(RetryQuestion(Attempt(q, checks, input).err.value), DefaultToNo, Attempt(q, checks, input).rest);
  }

  function QuestionPrompt(q: Question): string {
    match q
    case Plain(message) => PlainPrompt(message)
    case WithDefault(message, fallback) => DefaultPrompt(message, fallback)
  }

  /** What the retry question adds after the error text. */
  const AskAgain := "\nDo you want to try again? [y/N]: "

  /** The retry question is the error text followed by AskAgain. */
  lemma RetryQuestionFormat(e: Error)
    ensures Prompt(RetryQuestion(e), DefaultToNo) == Message(e) + AskAgain
  {
    assert "\nDo you want to try again?" + " " + "[y/N]" + ": " == AskAgain;
    calc {
      Prompt(RetryQuestion(e), DefaultToNo);
      Message(e) + "\nDo you want to try again?" + " " + "[y/N]" + ": ";
      { Concat(Message(e) + "\nDo you want to try again?" + " ", "[y/N]", ": ");
        Concat(Message(e) + "\nDo you want to try again?", " ", "[y/N]" + ": ");
        Concat(Message(e), "\nDo you want to try again?", " " + ("[y/N]" + ": ")); }
      Message(e) + ("\nDo you want to try again?" + (" " + ("[y/N]" + ": ")));
    }
  }

  /** With no complete line left, the read error of the prompt itself goes
      through the retry question, whose read fails too: the loop ends with
      the read error after writing the prompt and the question. */
  lemma {:induction false} RetryAtEndOfInput(q: Question, checks: seq<InputCheck>, s: string)
    requires NoNewline(s)
    ensures Retry(q, checks, s)
         == Exchange("", Some(ReadErr), [], QuestionPrompt(q) + (Message(ReadErr) + AskAgain))
  {
    GetInputUnterminated(q.message, if q.WithDefault? then q.fallback else "", checks, s);
    assert Attempt(q, checks, s) == Exchange("", Some(ReadErr), [], QuestionPrompt(q));
    RetryQuestionUnanswered(q, checks, s);
    RetryQuestionFormat(ReadErr);
  }

  /** A failed attempt answered with "y": the prompt, the error and the retry
      question are written and the loop starts over on what follows. */
  lemma RetryAfterYes(q: Question, checks: seq<InputCheck>, input: string, e: Error, tail: string)
    requires Attempt(q, checks, input) == Exchange("", Some(e), "y" + "\n" + tail, QuestionPrompt(q))
    ensures Retry(q, checks, input) == After(QuestionPrompt(q) + (Message(e) + AskAgain), Retry(q, checks, tail))
  {
    PlainWord("y");
    RetryQuestionFormat(e);
    RetryAccepted(q, checks, input, "y", tail);
  }

  /** What an attempt on a complete line returns when it succeeds: the
      fallback for a blank line under a default, otherwise the trimmed line. */
  function LineValue(q: Question, line: string): string {
    if q.WithDefault? && TrimSpace(line) == "" then q.fallback else TrimSpace(line)
  }

  /** A complete line the attempt accepts ends the loop with its value. */
  lemma RetryAcceptsLine(q: Question, checks: seq<InputCheck>, line: string, rest: string)
    requires NoNewline(line) && ((q.WithDefault? && TrimSpace(line) == "") || AllPass(TrimSpace(line), checks))
    ensures Retry(q, checks, line + "\n" + rest) == Exchange(LineValue(q, line), None, rest, QuestionPrompt(q))
  {
    ReadStringLine(line, rest);
    TrimSpaceDropsNewline(line);
    assert Attempt(q, checks, line + "\n" + rest) == Exchange(LineValue(q, line), None, rest, QuestionPrompt(q));
    RetryFirstSuccess(q, checks, line + "\n" + rest);
  }

  /** A complete line that a check rejects, and that is not a blank line under
      a default, fails the attempt with that check's message. */
  lemma AttemptRejectsLine(q: Question, checks: seq<InputCheck>, line: string, err: string, rest: string)
    requires NoNewline(line) && !(q.WithDefault? && TrimSpace(line) == "")
    requires FirstRejection(TrimSpace(line), checks) == Some(err)
    ensures Attempt(q, checks, line + "\n" + rest) == Exchange("", Some(CheckErr(err)), rest, QuestionPrompt(q))
  {
    ReadStringLine(line, rest);
    TrimSpaceDropsNewline(line);
  }

  /** Lines that each fail an attempt, every one answered with "y". */
  function Retried(failed: seq<string>): string {
    if failed == [] then [] else failed[0] + "\n" + ("y" + "\n" + Retried(failed[1..]))
  }

  /** Each line fails the attempt with the matching message: it is rejected by
      a check and, under a default, it is not blank. */
  predicate AllRejected(q: Question, checks: seq<InputCheck>, failed: seq<string>, errs: seq<string>) {
    |failed| == |errs| &&
    (failed == [] ||
     (NoNewline(failed[0]) && !(q.WithDefault? && TrimSpace(failed[0]) == "")
      && FirstRejection(TrimSpace(failed[0]), checks) == Some(errs[0])
      && AllRejected(q, checks, failed[1..], errs[1..])))
  }

  /** What a failed attempt and the retry question write, for each message. */
  function Transcript(q: Question, errs: seq<string>): string {
    if errs == [] then [] else QuestionPrompt(q) + (errs[0] + AskAgain) + Transcript(q, errs[1..])
  }

  /** A rejected line answered with "y" puts its prompt, its error and the
      retry question in front of whatever the loop does next. */
  lemma RejectedThenYes(q: Question, checks: seq<InputCheck>, line: string, err: string, tail: string)
    requires NoNewline(line) && !(q.WithDefault? && TrimSpace(line) == "")
    requires FirstRejection(TrimSpace(line), checks) == Some(err)
    ensures Retry(q, checks, line + "\n" + ("y" + "\n" + tail))
         == After(QuestionPrompt(q) + (err + AskAgain), Retry(q, checks, tail))
  {
    AttemptRejectsLine(q, checks, line, err, "y" + "\n" + tail);
    RetryAfterYes(q, checks, line + "\n" + ("y" + "\n" + tail), CheckErr(err), tail);
  }

  /** One more failed attempt answered with "y" in front of a loop that
      succeeds adds its prompt, its error and the retry question in front of
      what the loop writes. */
  lemma RetriedAgain(q: Question, checks: seq<InputCheck>, failed: seq<string>, errs: seq<string>, after: string, value: string, rest: string)
    requires AllRejected(q, checks, failed, errs) && failed != []
    requires Retry(q, checks, Retried(failed[1..]) + after) == Exchange(value, None, rest, Transcript(q, errs[1..]) + QuestionPrompt(q))
    ensures Retry(q, checks, Retried(failed) + after) == Exchange(value, None, rest, Transcript(q, errs) + QuestionPrompt(q))
  {
    var tail := Retried(failed[1..]) + after;
    assert Retried(failed) + after == failed[0] + "\n" + ("y" + "\n" + tail) by {
      Concat(failed[0] + "\n", "y" + "\n" + Retried(failed[1..]), after);
      Concat("y" + "\n", Retried(failed[1..]), after);
    }
    RejectedThenYes(q, checks, failed[0], errs[0], tail);
    var head := QuestionPrompt(q) + (errs[0] + AskAgain);
    assert Transcript(q, errs) == head + Transcript(q, errs[1..]);
    Concat(head, Transcript(q, errs[1..]), QuestionPrompt(q));
  }

  /** An accepted line with no rejected ones before it: the base case of
      RetryAfterRejections. */
  lemma RetryAcceptsAtOnce(q: Question, checks: seq<InputCheck>, errs: seq<string>, line: string, rest: string)
    requires errs == []
    requires NoNewline(line) && ((q.WithDefault? && TrimSpace(line) == "") || AllPass(TrimSpace(line), checks))
    ensures Retry(q, checks, Retried([]) + (line + "\n" + rest))
         == Exchange(LineValue(q, line), None, rest, Transcript(q, errs) + QuestionPrompt(q))
  {
    assert Retried([]) + (line + "\n" + rest) == line + "\n" + rest;
    assert Transcript(q, errs) + QuestionPrompt(q) == QuestionPrompt(q);
    RetryAcceptsLine(q, checks, line, rest);
  }

  /** Any number of attempts that fail, each answered "y" to the retry
      question, then an attempt that succeeds: the loop returns that attempt's
      value, consumes exactly those lines, and writes the prompt, the error and
      the retry question once per failed attempt, then the prompt once more. */
  lemma {:induction false} RetryAfterRejections(q: Question, checks: seq<InputCheck>, failed: seq<string>, errs: seq<string>, line: string, rest: string)
    requires AllRejected(q, checks, failed, errs)
    requires NoNewline(line) && ((q.WithDefault? && TrimSpace(line) == "") || AllPass(TrimSpace(line), checks))
    ensures Retry(q, checks, Retried(failed) + (line + "\n" + rest))
         == Exchange(LineValue(q, line), None, rest, Transcript(q, errs) + QuestionPrompt(q))
  {
    if failed == [] {
      RetryAcceptsAtOnce(q, checks, errs, line, rest);
    } else {
      RetryAfterRejections(q, checks, failed[1..], errs[1..], line, rest);
      RetriedAgain(q, checks, failed, errs, line + "\n" + rest, LineValue(q, line), rest);
    }
  }
}
