/** The Actor of actor.go and its methods from input.go and confirm.go. The
    buffered reader is the input not yet consumed and the writer is everything
    written so far; every method is proved to do what a function in
    Confirmation or Prompting says, on the state it starts from: the function
    of the same name, or Prompting.Retry for the two retry loops. */
module Interact {
  import opened Wrappers
  import opened Lines
  import opened Exchanges
  import Confirmation
  import Prompting

  class Actor {
    var input: string
    var output: string

    /** NewActor: nothing is read or written yet. */
    constructor NewActor(rd: string)
      ensures input == rd && output == []
    {
      input := rd;
      output := [];
    }

    /** The method returned value and err, consumed input up to r.rest and
        appended exactly r.written to what was written before. */
    ghost predicate Did<T>(r: Exchange<T>, value: T, err: Option<Error>, before: string)
      reads this
    {
      value == r.value && err == r.err && input == r.rest && output == before + r.written
    }

    method Write(s: string)
      modifies this
      ensures input == old(input) && output == old(output) + s
    {
      output := output + s;
    }

    /** a.rd.ReadString('\n') */
    method ReadLine() returns (line: string, eof: bool)
      modifies this
      ensures ReadString(old(input)) == Read(line, input, eof)
      ensures output == old(output)
    {
      var rd := ReadString(input);
      line, eof := rd.line, rd.eof;
      input := rd.rest;
    }

    /** getInput */
    method ReadInput(prompt: string) returns (value: string, err: Option<Error>)
      modifies this
      ensures Did(Prompting.ReadInput(prompt, old(input)), value, err, old(output))
    {
      Write(prompt);
      var line, eof := ReadLine();
      if eof {
        return "", Some(ReadErr);
      }
      return TrimSpace(line), None;
    }

    method GetInput(message: string, checks: seq<Prompting.InputCheck>) returns (value: string, err: Option<Error>)
      modifies this
      ensures Did(Prompting.GetInput(message, checks, old(input)), value, err, old(output))
    {
      value, err := ReadInput(message + ": ");
      if err != None {
        return "", err;
      }
      var failed := Prompting.RunChecks(value, checks);
      if failed != None {
        return "", Some(CheckErr(failed.value));
      }
    }

    method GetInputWithDefault(message: string, fallback: string, checks: seq<Prompting.InputCheck>)
      returns (value: string, err: Option<Error>)
      modifies this
      ensures Did(Prompting.GetInputWithDefault(message, fallback, checks, old(input)), value, err, old(output))
    {
      value, err := ReadInput(message + ": (" + fallback + ") ");
      if err != None {
        return "", err;
      }
      if value == "" {
        return fallback, None;
      }
      var failed := Prompting.RunChecks(value, checks);
      if failed != None {
        return "", Some(CheckErr(failed.value));
      }
    }

    method ConfirmOnce(message: string, def: Confirmation.ConfirmDefault) returns (confirmed: bool, err: Option<Error>)
      modifies this
      ensures Did(Confirmation.ConfirmOnce(message, def, old(input)), confirmed, err, old(output))
    {
      Write(message + " " + Confirmation.Options(def) + ": ");
      var line, eof := ReadLine();
      var answer := TrimSpace(line);
      if eof {
        return false, Some(ReadErr);
      }
      var decision := Confirmation.Classify(def, answer);
      confirmed, err := decision.0, decision.1;
    }

    method Confirm(message: string, def: Confirmation.ConfirmDefault) returns (confirmed: bool, err: Option<Error>)
      modifies this
      ensures Did(Confirmation.Confirm(message, def, old(input)), confirmed, err, old(output))
      ensures err != Some(NoOptionSelected)
    {
      ghost var done := "";
      while true
        invariant output == old(output) + done
        invariant Confirmation.Confirm(message, def, old(input)) == After(done, Confirmation.Confirm(message, def, input))
        decreases |input|
      {
        ghost var before := input;
        ghost var once := Confirmation.ConfirmOnce(message, def, input);
        confirmed, err := ConfirmOnce(message, def);
        if err == Some(NoOptionSelected) {
          assert Confirmation.Confirm(message, def, before) == After(once.written + Confirmation.Reask, Confirmation.Confirm(message, def, input));
          Write(Message(NoOptionSelected) + "\n");
          Concat(old(output) + done, once.written, Confirmation.Reask);
          Concat(old(output), done, once.written + Confirmation.Reask);
          AfterAfter(done, once.written + Confirmation.Reask, Confirmation.Confirm(message, def, input));
          done := done + (once.written + Confirmation.Reask);
          continue;
        }
        assert Confirmation.Confirm(message, def, before) == once;
        Concat(old(output), done, once.written);
        return;
      }
    }

    /** confirmRetry */
    method ConfirmRetry(e: Error) returns (err: Option<Error>)
      modifies this
      ensures Did(Prompting.ConfirmRetry(e, old(input)), (), err, old(output))
    {
      var confirmed;
      confirmed, err := Confirm(Message(e) + "\nDo you want to try again?", Confirmation.DefaultToNo);
      if err != None {
        return err;
      } else if !confirmed {
        return Some(Canceled);
      }
    }

    method GetInputAndRetry(message: string, checks: seq<Prompting.InputCheck>) returns (value: string, err: Option<Error>)
      modifies this
      ensures Did(Prompting.Retry(Prompting.Plain(message), checks, old(input)), value, err, old(output))
      ensures err == None || err == Some(Canceled) || err == Some(ReadErr)
    {
      ghost var q := Prompting.Plain(message);
      ghost var goal := Prompting.Retry(q, checks, input);
      ghost var done := "";
      while true
        invariant output == old(output) + done
        invariant goal == After(done, Prompting.Retry(q, checks, input))
        decreases |input|
      {
        ghost var start := input;
        ghost var attempt := Prompting.Attempt(q, checks, input);
        value, err := GetInput(message, checks);
        if err != None {
          ghost var retry := Prompting.ConfirmRetry(err.value, input);
          Prompting.RetryAfterFailure(q, checks, start);
          err := ConfirmRetry(err.value);
          Concat(old(output) + done, attempt.written, retry.written);
          Concat(old(output), done, attempt.written + retry.written);
          if err != None {
            return "", err;
          }
          AfterAfter(done, attempt.written + retry.written, Prompting.Retry(q, checks, input));
          done := done + (attempt.written + retry.written);
          continue;
        }
        Concat(old(output), done, attempt.written);
        return;
      }
    }

    method GetInputWithDefaultAndRetry(message: string, fallback: string, checks: seq<Prompting.InputCheck>)
      returns (value: string, err: Option<Error>)
      modifies this
      ensures Did(Prompting.Retry(Prompting.WithDefault(message, fallback), checks, old(input)), value, err, old(output))
      ensures err == None || err == Some(Canceled) || err == Some(ReadErr)
    {
      ghost var q := Prompting.WithDefault(message, fallback);
      ghost var goal := Prompting.Retry(q, checks, input);
      ghost var done := "";
      while true
        invariant output == old(output) + done
        invariant goal == After(done, Prompting.Retry(q, checks, input))
        decreases |input|
      {
        ghost var start := input;
        ghost var attempt := Prompting.Attempt(q, checks, input);
        value, err := GetInputWithDefault(message, fallback, checks);
        if err != None {
          ghost var retry := Prompting.ConfirmRetry(err.value, input);
          Prompting.RetryAfterFailure(q, checks, start);
          err := ConfirmRetry(err.value);
          Concat(old(output) + done, attempt.written, retry.written);
          Concat(old(output), done, attempt.written + retry.written);
          if err != None {
            return "", err;
          }
          AfterAfter(done, attempt.written + retry.written, Prompting.Retry(q, checks, input));
          done := done + (attempt.written + retry.written);
          continue;
        }
        Concat(old(output), done, attempt.written);
        return;
      }
    }
  }
}
