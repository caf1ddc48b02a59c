/** What one interaction with the user produces: the Go (value, error) pair,
    the input left unread and the text written to the output. */
module Exchanges {
  import opened Wrappers

  /** The errors the prompting code returns: a failed read (end of input), a
      check's rejection, errCanceled (input.go) and errNoOptionSelected
      (confirm.go). */
  datatype Error = ReadErr | CheckErr(msg: string) | Canceled | NoOptionSelected

  /** The text of each error, as formatted with %v or Fprintln: a check's
      message unchanged, and for each sentinel error a one-line text of its own. */
  function Message(e: Error): (r: string)
    ensures e.CheckErr? ==> r == e.msg
    ensures !e.CheckErr? ==> r != [] && '\n' !in r
    ensures e == Canceled <==> r == "Command aborted" && !e.CheckErr?
    ensures e == NoOptionSelected <==> r == "Please select y/n!" && !e.CheckErr?
    ensures e == ReadErr <==> r == "EOF" && !e.CheckErr?
  {
    match e
    case ReadErr => "EOF"
    case CheckErr(msg) => msg
    case Canceled => "Command aborted"
    case NoOptionSelected => "Please select y/n!"
  }

  /** An err of None is Go's nil error. */
  datatype Exchange<T> = Exchange(value: T, err: Option<Error>, rest: string, written: string)

  /** The same exchange, preceded by the text w written earlier. */
  function After<T>(w: string, r: Exchange<T>): Exchange<T> {
    r.(written := w + r.written)
  }

  lemma Concat(a: string, b: string, c: string)
    ensures a + b + c == a + (b + c)
  {
  }

  lemma AfterAfter<T>(u: string, w: string, r: Exchange<T>)
    ensures After(u, After(w, r)) == After(u + w, r)
  {
    assert u + (w + r.written) == u + w + r.written;
  }

  /** rest is what remains of input after some prefix of it has been consumed. */
  predicate IsSuffix(rest: string, input: string) {
    |rest| <= |input| && rest == input[|input| - |rest|..]
  }

  lemma SuffixOfSuffix(a: string, b: string, c: string)
    requires IsSuffix(a, b) && IsSuffix(b, c)
    ensures IsSuffix(a, c)
  {
    assert c[|c| - |b|..][|b| - |a|..] == c[|c| - |a|..];
  }
}
