/** The two library calls the prompting code relies on, as pure functions over
    strings: trimming surrounding white space (strings.TrimSpace) and reading
    one line from a buffered reader (bufio.Reader.ReadString('\n')). */
module Lines {

  /** The white-space characters of Go's unicode.IsSpace. */
  predicate IsSpace(c: char) {
    c == ' ' || c == '\t' || c == '\n' || c == '\r' || c == '\U{000B}' || c == '\U{000C}'
    || c == '\U{0085}' || c == '\U{00A0}' || c == '\U{1680}'
    || ('\U{2000}' <= c <= '\U{200A}')
    || c == '\U{2028}' || c == '\U{2029}' || c == '\U{202F}' || c == '\U{205F}' || c == '\U{3000}'
  }

  predicate AllSpace(s: string) {
    forall k :: 0 <= k < |s| ==> IsSpace(s[k])
  }

  /** s[i..j] is what remains of s once the white space around it is removed:
      everything outside it is white space and it neither starts nor ends with
      white space. */
  predicate Trimmed(s: string, i: int, j: int) {
    0 <= i <= j <= |s| && AllSpace(s[..i]) && AllSpace(s[j..])
    && (i < j ==> !IsSpace(s[i]) && !IsSpace(s[j - 1]))
  }

  lemma SpaceBefore(s: string, n: int, k: int)
    requires 0 <= k < n <= |s| && AllSpace(s[..n])
    ensures IsSpace(s[k])
  {
    assert s[..n][k] == s[k];
  }

  lemma SpaceFrom(s: string, n: int, k: int)
    requires 0 <= n <= k < |s| && AllSpace(s[n..])
    ensures IsSpace(s[k])
  {
    assert s[n..][k - n] == s[k];
  }

  /** Index of the first character that is not white space (|s| if there is none). */
  function TrimStart(s: string): (i: nat)
    ensures i <= |s| && AllSpace(s[..i])
    ensures i < |s| ==> !IsSpace(s[i])
  {
    if s == [] || !IsSpace(s[0]) then 0
    else
      var i := 1 + TrimStart(s[1..]);
      assert s[..i] == [s[0]] + s[1..][..i - 1];
      i
  }

  /** Index just past the last character that is not white space (0 if there is none). */
  function TrimEnd(s: string): (j: nat)
    ensures j <= |s| && AllSpace(s[j..])
    ensures j > 0 ==> !IsSpace(s[j - 1])
  {
    if s == [] || !IsSpace(s[|s| - 1]) then |s|
    else
      var j := TrimEnd(s[..|s| - 1]);
      assert s[j..] == s[..|s| - 1][j..] + [s[|s| - 1]];
      j
  }

  /** strings.TrimSpace: skip leading white space; if nothing else is left the
      result is empty, otherwise it runs up to the last non-white-space character. */
  function TrimSpace(s: string): (r: string)
    ensures Trimmed(s, TrimStart(s), TrimStart(s) + |r|) && r == s[TrimStart(s)..TrimStart(s) + |r|]
    ensures r == [] <==> AllSpace(s)
  {
    var i := TrimStart(s);
    if i == |s| then
      assert s[..i] == s;
      []
    else
      var j := TrimEnd(s);
      assert i < j by {
        if j <= i { SpaceFrom(s, j, i); }
      }
      assert !AllSpace(s) by { assert !IsSpace(s[i]); }
      s[i..j]
  }

  /** Whatever satisfies Trimmed is what TrimSpace returns: the characterisation
      above pins the result down. */
  lemma TrimSpaceIs(s: string, i: int, j: int)
    requires Trimmed(s, i, j)
    ensures TrimSpace(s) == s[i..j]
  {
    var t := TrimStart(s);
    if i < j {
      if t < i {
        SpaceBefore(s, i, t);
      } else if i < t {
        SpaceBefore(s, t, i);
      }
      var e := TrimEnd(s);
      if e < j {
        SpaceFrom(s, e, j - 1);
      } else if j < e {
        SpaceFrom(s, j, e - 1);
      }
    } else if t < |s| {
      if t < i {
        SpaceBefore(s, i, t);
      } else {
        SpaceFrom(s, j, t);
      }
    }
  }

  /** Text that neither starts nor ends with white space is left as it is. */
  lemma TrimSpaceUnchanged(s: string)
    requires s != [] && !IsSpace(s[0]) && !IsSpace(s[|s| - 1])
    ensures TrimSpace(s) == s
  {
    assert s[..0] == [] && s[|s|..] == [] && s[0..|s|] == s;
    TrimSpaceIs(s, 0, |s|);
  }

  /** A word typed on a line of its own: it holds no newline and trimming
      leaves it as it is. */
  lemma PlainWord(w: string)
    requires w != [] && '\n' !in w && !IsSpace(w[0]) && !IsSpace(w[|w| - 1])
    ensures NoNewline(w) && TrimSpace(w) == w
  {
    TrimSpaceUnchanged(w);
  }

  /** White space of any kind on either side of a word is removed. */
  lemma TrimSpacePadded(before: string, word: string, after: string)
    requires AllSpace(before) && AllSpace(after)
    requires word != [] && !IsSpace(word[0]) && !IsSpace(word[|word| - 1])
    ensures TrimSpace(before + word + after) == word
  {
    var s := before + word + after;
    var i, j := |before|, |before| + |word|;
    assert s[..i] == before;
    assert s[j..] == after;
    assert s[i..j] == word;
    TrimSpaceIs(s, i, j);
  }

  /** Trimming is idempotent. */
  lemma TrimSpaceIdempotent(s: string)
    ensures TrimSpace(TrimSpace(s)) == TrimSpace(s)
  {
    TrimSpaceIs(TrimSpace(s), 0, |TrimSpace(s)|);
  }

  /** Appending white space keeps a trimmed slice trimmed. */
  lemma TrimmedWithSpace(s: string, c: char, i: int, j: int)
    requires Trimmed(s, i, j) && IsSpace(c)
    ensures Trimmed(s + [c], i, j) && (s + [c])[i..j] == s[i..j]
  {
    var t := s + [c];
    assert t[..i] == s[..i];
    assert t[j..] == s[j..] + [c];
  }

  /** A trailing newline makes no difference to the trimmed line. */
  lemma TrimSpaceDropsNewline(line: string)
    ensures TrimSpace(line + "\n") == TrimSpace(line)
  {
    var i := TrimStart(line);
    var j := i + |TrimSpace(line)|;
    TrimmedWithSpace(line, '\n', i, j);
    assert line + "\n" == line + ['\n'];
    TrimSpaceIs(line + "\n", i, j);
  }

  /** One call of bufio.Reader.ReadString('\n'): the text up to and including
      the first newline; when there is none, all that is left, with eof set. */
  datatype Read = Read(line: string, rest: string, eof: bool)

  predicate NoNewline(s: string) {
    forall k :: 0 <= k < |s| ==> s[k] != '\n'
  }

  function ReadString(s: string): (r: Read)
    ensures r.line + r.rest == s
    ensures r.eof <==> NoNewline(s)
    ensures r.eof ==> r.rest == []
    ensures !r.eof ==> |r.line| > 0 && r.line[|r.line| - 1] == '\n'
    ensures forall k :: 0 <= k < |r.line| - 1 ==> r.line[k] != '\n'
  {
    if s == [] then Read([], [], true)
    else if s[0] == '\n' then Read([s[0]], s[1..], false)
    else
      var r := ReadString(s[1..]);
      assert s[1..] == r.line + r.rest;
      Read([s[0]] + r.line, r.rest, r.eof)
  }

  /** A newline-terminated line is read whole and leaves exactly what follows it. */
  lemma ReadStringLine(line: string, rest: string)
    requires NoNewline(line)
    ensures ReadString(line + "\n" + rest) == Read(line + "\n", rest, false)
  {
    var s := line + "\n" + rest;
    var r := ReadString(s);
    assert s[|line|] == '\n';
    var n := |r.line|;
    assert r.line == s[..n];
    assert n == |line| + 1;
  }

  /** Input without a newline is consumed entirely and reported as end of input. */
  lemma ReadStringUnterminated(s: string)
    requires NoNewline(s)
    ensures ReadString(s) == Read(s, [], true)
  {
  }
}
