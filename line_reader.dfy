/** Reading a text source line by line, as Rust's `BufRead::lines` does: the result is a
    sequence of line reads, each either a line of text or the I/O error the read raised. */
module LineReader {

  /** The kinds of `std::io::Error` a line read can report (a subset of Rust's `ErrorKind`).
      An interrupted read is retried inside `BufRead::lines` and never reported. */
  datatype ErrorKind =
    | NotFound | PermissionDenied | BrokenPipe | TimedOut
    | InvalidData | UnexpectedEof | Other

  /** An I/O error: its kind and its message. */
  datatype IoError = IoError(kind: ErrorKind, message: string)

  /** One item of the line iterator: a line without its terminator, or a failed read. */
  datatype LineRead = Line(text: string) | Failed(cause: IoError)

  /** Position of the first '\n' in `s`, or `|s|` when there is none. */
  function NewlineIndex(s: string): (i: nat)
    ensures i <= |s|
    ensures forall j :: 0 <= j < i ==> s[j] != '\n'
    ensures i < |s| ==> s[i] == '\n'
  {
    if s == [] || s[0] == '\n' then 0 else 1 + NewlineIndex(s[1..])
  }

  /** A line that was terminated by "\r\n" loses its '\r' as well. */
  function StripCarriageReturn(line: string): string
  {
    if |line| > 0 && line[|line| - 1] == '\r' then line[..|line| - 1] else line
  }

  /** The lines of an in-memory text, which never fails to read. A line ends at '\n' (which is
      dropped, with a '\r' just before it); text after the last '\n' is one more line, and a
      final '\n' does not start an empty line. */
  function Lines(text: string): (ls: seq<LineRead>)
    ensures forall i :: 0 <= i < |ls| ==> ls[i].Line? && '\n' !in ls[i].text
    ensures |ls| <= |text|
    ensures ls == [] <==> text == []
    decreases |text|
  {
    if text == [] then []
    else
      var i := NewlineIndex(text);
      if i == |text| then [Line(text)]
      else [Line(StripCarriageReturn(text[..i]))] + Lines(text[i + 1..])
  }

  /** Each line followed by '\n': the text whose lines these are. */
  function Terminated(ls: seq<string>): string
  {
    if ls == [] then [] else ls[0] + "\n" + Terminated(ls[1..])
  }

  /** A line as `BufRead::lines` can yield it back unchanged. */
  predicate IsPlainLine(l: string)
  {
    '\n' !in l && (|l| == 0 || l[|l| - 1] != '\r')
  }

  lemma NewlineIndexOfLine(l: string, rest: string)
    requires '\n' !in l
    ensures NewlineIndex(l + "\n" + rest) == |l|
  {
    var s := l + "\n" + rest;
    assert s[|l|] == '\n';
    assert forall j :: 0 <= j < |l| ==> s[j] == l[j];
  }

  /** Reading lines undoes terminating them: every line without '\n' and without a trailing
      '\r' comes back as it was, and no empty line appears after the last terminator. */
  lemma {:induction false} LinesOfTerminated(ls: seq<string>)
    requires forall i :: 0 <= i < |ls| ==> IsPlainLine(ls[i])
    ensures |Lines(Terminated(ls))| == |ls|
    ensures forall i :: 0 <= i < |ls| ==> Lines(Terminated(ls))[i] == Line(ls[i])
    decreases |ls|
  {
    if ls != [] {
      var l, rest := ls[0], Terminated(ls[1..]);
      var s := l + "\n" + rest;
      NewlineIndexOfLine(l, rest);
      assert s[..|l|] == l;
      assert s[|l| + 1..] == rest;
      LinesOfTerminated(ls[1..]);
      assert Lines(s) == [Line(l)] + Lines(rest);
    }
  }

  /** A "\r\n" terminator ends a line exactly as "\n" does, and the '\r' is not part of it. */
  lemma CrLfEndsLine(l: string, rest: string)
    requires '\n' !in l
    ensures Lines(l + "\r\n" + rest) == [Line(l)] + Lines(rest)
  {
    var lcr := l + "\r";
    assert '\n' !in lcr by {
      assert forall j :: 0 <= j < |lcr| ==> lcr[j] == if j < |l| then l[j] else '\r';
    }
    assert l + "\r\n" + rest == lcr + "\n" + rest;
    NewlineIndexOfLine(lcr, rest);
    var s := lcr + "\n" + rest;
    assert s[..|lcr|] == lcr;
    assert s[|lcr| + 1..] == rest;
    assert StripCarriageReturn(lcr) == l;
  }
}
