/** The yes/no question of confirm.go, as functions from the unread input to
    the exchange it produces. */
module Confirmation {
  import opened Wrappers
  import opened Lines
  import opened Exchanges

  /** What an empty answer means. */
  datatype ConfirmDefault = DefaultToYes | DefaultToNo | NoDefault

  function Options(def: ConfirmDefault): string {
    match def
    case DefaultToYes => "[Y/n]"
    case DefaultToNo => "[y/N]"
    case NoDefault => "[y/n]"
  }

  /** The text written before every read of an answer. */
  function Prompt(message: string, def: ConfirmDefault): string {
    message + " " + Options(def) + ": "
  }

  /** The line written after an unrecognised answer. */
  const Reask := Message(NoOptionSelected) + "\n"

  /** The trimmed answers that end the question: "y", "n", and the empty
      answer when the policy gives it a meaning. */
  predicate Recognised(def: ConfirmDefault, answer: string) {
    answer == "y" || answer == "n" || (answer == "" && def != NoDefault)
  }

  /** The decision for one trimmed answer. */
  function Classify(def: ConfirmDefault, answer: string): (r: (bool, Option<Error>))
    ensures r.1 == None <==> Recognised(def, answer)
    ensures r.1 != None ==> r == (false, Some(NoOptionSelected))
    ensures r.0 <==> answer == "y" || (answer == "" && def == DefaultToYes)
  {
    if answer == "" then
      match def
      case DefaultToYes => (true, None)
      case DefaultToNo => (false, None)
      case NoDefault => (false, Some(NoOptionSelected))
    else if answer == "y" then (true, None)
    else if answer == "n" then (false, None)
    else (false, Some(NoOptionSelected))
  }

  /** confirmOnce: one prompt, one line read, one decision. */
  function ConfirmOnce(message: string, def: ConfirmDefault, input: string): (r: Exchange<bool>)
    ensures r.written == Prompt(message, def)
    ensures r.rest == ReadString(input).rest
    ensures r.err == Some(ReadErr) <==> NoNewline(input)
    ensures r.err == Some(ReadErr) ==> !r.value
    ensures r.err != Some(ReadErr) ==> (r.value, r.err) == Classify(def, TrimSpace(ReadString(input).line))
  {
    var rd := ReadString(input);
    var answer := TrimSpace(rd.line);
    if rd.eof then Exchange(false, Some(ReadErr), rd.rest, Prompt(message, def))
    else
      var (confirmed, err) := Classify(def, answer);
      Exchange(confirmed, err, rd.rest, Prompt(message, def))
  }

  /** Confirm: ask until the answer is recognised or the input fails. */
  function Confirm(message: string, def: ConfirmDefault, input: string): (r: Exchange<bool>)
    decreases |input|
    ensures r.err == None || r.err == Some(ReadErr)
    ensures r.err == Some(ReadErr) ==> !r.value && r.rest == []
    ensures IsSuffix(r.rest, input)
    ensures r.err == None ==> |r.rest| < |input|
    ensures r.err == None ==> !NoNewline(input) && IsSuffix(r.rest, ReadString(input).rest)
  {
    var once := ConfirmOnce(message, def, input);
    ReadLeavesSuffix(input);
    if once.err == Some(NoOptionSelected) then
      var next := Confirm(message, def, once.rest);
      SuffixOfSuffix(next.rest, once.rest, input);
      After(once.written + Reask, next)
    else
      assert once.rest == once.rest[|once.rest| - |once.rest|..];
      once
  }

  /** What a read leaves is a suffix of the input, and a shorter one when a
      complete line was read. */
  lemma ReadLeavesSuffix(input: string)
    ensures IsSuffix(ReadString(input).rest, input)
    ensures !NoNewline(input) ==> |ReadString(input).rest| < |input|
  {
    var rd := ReadString(input);
    assert input[|rd.line|..] == rd.rest;
  }

  /** The three prompt formats. */
  lemma PromptFormats(message: string)
    ensures Prompt(message, DefaultToYes) == message + " [Y/n]: "
    ensures Prompt(message, DefaultToNo) == message + " [y/N]: "
    ensures Prompt(message, NoDefault) == message + " [y/n]: "
  {
  }

  /** A recognised answer on the first line ends the question after one prompt,
      leaving exactly the following lines unread. */
  lemma {:induction false} ConfirmAnswered(message: string, def: ConfirmDefault, line: string, rest: string)
    requires NoNewline(line) && Recognised(def, TrimSpace(line))
    ensures Confirm(message, def, line + "\n" + rest)
         == Exchange(TrimSpace(line) == "y" || (TrimSpace(line) == "" && def == DefaultToYes), None, rest, Prompt(message, def))
  {
    ReadStringLine(line, rest);
    TrimSpaceDropsNewline(line);
  }

  /** An unrecognised answer writes the diagnostic line and asks the identical
      question again on the following input. */
  lemma {:induction false} ConfirmReasked(message: string, def: ConfirmDefault, line: string, rest: string)
    requires NoNewline(line) && !Recognised(def, TrimSpace(line))
    ensures Confirm(message, def, line + "\n" + rest)
         == After(Prompt(message, def) + Reask, Confirm(message, def, rest))
  {
    ReadStringLine(line, rest);
    TrimSpaceDropsNewline(line);
  }

  /** A read that reaches the end of the input ends the question at once with
      false and the read error, whatever the unterminated text says. */
  lemma {:induction false} ConfirmReadError(message: string, def: ConfirmDefault, s: string)
    requires NoNewline(s)
    ensures Confirm(message, def, s) == Exchange(false, Some(ReadErr), [], Prompt(message, def))
  {
    ReadStringUnterminated(s);
  }

  /** "y" is yes and "n" is no under every policy. */
  lemma YesAndNo(message: string, def: ConfirmDefault, rest: string)
    ensures Confirm(message, def, "y" + "\n" + rest) == Exchange(true, None, rest, Prompt(message, def))
    ensures Confirm(message, def, "n" + "\n" + rest) == Exchange(false, None, rest, Prompt(message, def))
  {
    PlainWord("y");
    ConfirmAnswered(message, def, "y", rest);
    PlainWord("n");
    ConfirmAnswered(message, def, "n", rest);
  }

  /** An empty answer is yes under DefaultToYes, no under DefaultToNo, and
      asks again under NoDefault. */
  lemma EmptyAnswer(message: string, rest: string)
    ensures Confirm(message, DefaultToYes, "\n" + rest) == Exchange(true, None, rest, Prompt(message, DefaultToYes))
    ensures Confirm(message, DefaultToNo, "\n" + rest) == Exchange(false, None, rest, Prompt(message, DefaultToNo))
    ensures Confirm(message, NoDefault, "\n" + rest) == After(Prompt(message, NoDefault) + Reask, Confirm(message, NoDefault, rest))
  {
    assert TrimSpace("") == "";
    assert Confirm(message, DefaultToYes, "\n" + rest) == Exchange(true, None, rest, Prompt(message, DefaultToYes)) by {
      ConfirmAnswered(message, DefaultToYes, "", rest);
    }
    assert Confirm(message, DefaultToNo, "\n" + rest) == Exchange(false, None, rest, Prompt(message, DefaultToNo)) by {
      ConfirmAnswered(message, DefaultToNo, "", rest);
    }
    ConfirmReasked(message, NoDefault, "", rest);
  }

  /** The lines of ls, each followed by a newline. */
  function JoinLines(ls: seq<string>): string {
    if ls == [] then [] else ls[0] + "\n" + JoinLines(ls[1..])
  }

  /** One more unrecognised answer in front of a question that ends after n
      re-asks ends after n + 1 re-asks, with the same answer. */
  lemma ConfirmReaskedAgain(message: string, def: ConfirmDefault, bad: seq<string>, after: string, answer: bool, rest: string)
    requires bad != [] && NoNewline(bad[0]) && !Recognised(def, TrimSpace(bad[0]))
    requires Confirm(message, def, JoinLines(bad[1..]) + after)
          == Exchange(answer, None, rest, Repeat(Prompt(message, def) + Reask, |bad| - 1) + Prompt(message, def))
    ensures Confirm(message, def, JoinLines(bad) + after)
         == Exchange(answer, None, rest, Repeat(Prompt(message, def) + Reask, |bad|) + Prompt(message, def))
  {
    var tail := JoinLines(bad[1..]) + after;
    assert JoinLines(bad) + after == bad[0] + "\n" + tail by {
      Concat(bad[0], "\n", JoinLines(bad[1..]));
      Concat(bad[0] + "\n", JoinLines(bad[1..]), after);
    }
    ConfirmReasked(message, def, bad[0], tail);
    var q := Prompt(message, def) + Reask;
    Concat(q, Repeat(q, |bad| - 1), Prompt(message, def));
  }

  function Repeat(s: string, n: nat): string {
    if n == 0 then [] else s + Repeat(s, n - 1)
  }

  /** Every one of the lines is a complete line whose trimmed text is not an
      answer under def. */
  predicate AllUnrecognised(def: ConfirmDefault, lines: seq<string>) {
    lines == [] || (NoNewline(lines[0]) && !Recognised(def, TrimSpace(lines[0])) && AllUnrecognised(def, lines[1..]))
  }

  /** A recognised answer with no unrecognised ones before it: the base case
      of ConfirmAfterReasks. */
  lemma ConfirmAnsweredAtOnce(message: string, def: ConfirmDefault, line: string, rest: string)
    requires NoNewline(line) && Recognised(def, TrimSpace(line))
    ensures Confirm(message, def, JoinLines([]) + (line + "\n" + rest))
         == Exchange(TrimSpace(line) == "y" || (TrimSpace(line) == "" && def == DefaultToYes), None, rest,
                     Repeat(Prompt(message, def) + Reask, 0) + Prompt(message, def))
  {
    assert JoinLines([]) + (line + "\n" + rest) == line + "\n" + rest;
    assert Repeat(Prompt(message, def) + Reask, 0) + Prompt(message, def) == Prompt(message, def);
    ConfirmAnswered(message, def, line, rest);
  }

  /** Any number of unrecognised answers followed by a recognised one: the
      prompt and the diagnostic are written once per unrecognised answer, then
      the prompt once more, and the recognised answer decides. */
  lemma {:induction false} ConfirmAfterReasks(message: string, def: ConfirmDefault, bad: seq<string>, line: string, rest: string)
    requires AllUnrecognised(def, bad)
    requires NoNewline(line) && Recognised(def, TrimSpace(line))
    ensures Confirm(message, def, JoinLines(bad) + (line + "\n" + rest))
         == Exchange(TrimSpace(line) == "y" || (TrimSpace(line) == "" && def == DefaultToYes), None, rest,
                     Repeat(Prompt(message, def) + Reask, |bad|) + Prompt(message, def))
  {
    if bad == [] {
      ConfirmAnsweredAtOnce(message, def, line, rest);
    } else {
      ConfirmAfterReasks(message, def, bad[1..], line, rest);
      ConfirmReaskedAgain(message, def, bad, line + "\n" + rest,
                          TrimSpace(line) == "y" || (TrimSpace(line) == "" && def == DefaultToYes), rest);
    }
  }
}
