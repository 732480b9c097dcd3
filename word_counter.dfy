/** `count_words`: the number of words in a text source, read line by line, or the reason
    there is no count. */
module WordCounter {
  import opened Whitespace
  import opened LineReader

  /** The closed set of errors `count_words` can report. */
  datatype WordCountError =
    | EmptySource               // the source was read to its end and holds no word
    | ReadError(source: IoError) // a line could not be read; carries the cause
    | IOError(cause: IoError)    // any other I/O error (never produced by `CountWords`)

  datatype Result<T, E> = Ok(value: T) | Err(error: E)

  /** Words contributed by one line read; a failed read contributes none. */
  function LineWords(r: LineRead): nat
  {
    if r.Line? then Words(r.text) else 0
  }

  /** The words of all lines of `input`, summed in reading order. */
  function TotalWords(input: seq<LineRead>): nat
  {
    if input == [] then 0 else TotalWords(input[..|input| - 1]) + LineWords(input[|input| - 1])
  }

  predicate HasFailure(input: seq<LineRead>)
  {
    exists i :: 0 <= i < |input| && input[i].Failed?
  }

  /** Index of the first failed read, or `|input|` when every read succeeds. */
  function FirstFailure(input: seq<LineRead>): (i: nat)
    ensures i <= |input|
    ensures forall j :: 0 <= j < i ==> input[j].Line?
    ensures i < |input| ==> input[i].Failed?
  {
    if input == [] || input[0].Failed? then 0 else 1 + FirstFailure(input[1..])
  }

  /** What `count_words` returns for the stream of line reads `input`. */
  function CountResult(input: seq<LineRead>): Result<nat, WordCountError>
  {
    var i := FirstFailure(input);
    if i < |input| then Err(ReadError(input[i].cause))
    else if TotalWords(input) == 0 then Err(EmptySource)
    else Ok(TotalWords(input))
  }

  /** Reads the lines in order and adds one for each word of each line. The first failed read
      ends the count with `ReadError`; a source read to its end without a word is `EmptySource`. */
  method CountWords(input: seq<LineRead>) returns (r: Result<nat, WordCountError>)
    ensures r == CountResult(input)
    ensures r.Ok? <==> !HasFailure(input) && TotalWords(input) > 0
    ensures r.Ok? ==> r.value == TotalWords(input) && r.value >= 1
    ensures r == Err(EmptySource) <==> !HasFailure(input) && TotalWords(input) == 0
    ensures HasFailure(input) <==> r.Err? && r.error.ReadError?
    ensures forall i :: 0 <= i < |input| && input[i].Failed? && (forall j :: 0 <= j < i ==> input[j].Line?)
              ==> r == Err(ReadError(input[i].cause))
    ensures !(r.Err? && r.error.IOError?)
  {
    var wordcount: nat := 0;
    for i := 0 to |input|
      invariant forall j :: 0 <= j < i ==> input[j].Line?
      invariant wordcount == TotalWords(input[..i])
    {
      match input[i]
      case Failed(cause) =>
        assert FirstFailure(input) == i;
        return Err(ReadError(cause));
      case Line(line) =>
        var words := SplitWhitespace(line);
        for k := 0 to |words|
          invariant wordcount == TotalWords(input[..i]) + k
        {
          wordcount := wordcount + 1;
        }
        assert input[..i + 1][..i] == input[..i];
    }
    assert input[..|input|] == input;
    if wordcount == 0 {
      return Err(EmptySource);
    }
    return Ok(wordcount);
  }

  /** Word counts of consecutive parts of a stream add up; so the running count never
      decreases while the lines are read. */
  lemma {:induction false} TotalWordsAppend(xs: seq<LineRead>, ys: seq<LineRead>)
    ensures TotalWords(xs + ys) == TotalWords(xs) + TotalWords(ys)
    ensures TotalWords(xs) <= TotalWords(xs + ys)
    decreases |ys|
  {
    if ys == [] {
      assert xs + ys == xs;
    } else {
      var n := |ys| - 1;
      assert (xs + ys)[..|xs + ys| - 1] == xs + ys[..n];
      TotalWordsAppend(xs, ys[..n]);
    }
  }

  /** Counting line by line counts the words of the whole text: '\n' and a dropped '\r' are
      white space, so a word at the end of one line never merges with one at the start of
      the next, and splitting into lines loses no word. */
  lemma {:induction false} LinesKeepWords(text: string)
    ensures TotalWords(Lines(text)) == Words(text)
    decreases |text|
  {
    if text != [] {
      var i := NewlineIndex(text);
      if i == |text| {
        assert TotalWords(Lines(text)) == TotalWords([] + [Line(text)]);
      } else {
        var line, rest := text[..i], text[i + 1..];
        assert text == line + ['\n'] + rest;
        SplitAroundWhitespace(line, '\n', rest);
        var stripped := StripCarriageReturn(line);
        assert Words(stripped) == Words(line) by {
          if stripped != line {
            assert line == stripped + ['\r'] + [];
            SplitAroundWhitespace(stripped, '\r', []);
          }
        }
        TotalWordsAppend([Line(stripped)], Lines(rest));
        assert TotalWords([Line(stripped)]) == TotalWords([] + [Line(stripped)]);
        LinesKeepWords(rest);
      }
    }
  }

  /** For an in-memory text (no read can fail), the count is the number of words of the
      whole text, and `EmptySource` exactly when the text is empty or all white space. */
  lemma CountOfText(text: string)
    ensures CountResult(Lines(text)) == if Words(text) == 0 then Err(EmptySource) else Ok(Words(text))
    ensures CountResult(Lines(text)) == Err(EmptySource) <==> AllWhitespace(text)
  {
    LinesKeepWords(text);
    NoWordsIffBlank(text);
  }

  /** Words separated by white space (any run in each gap, line breaks included, and
      optional white space at either end) are counted one each. */
  lemma CountOfSeparatedWords(ws: seq<string>, seps: seq<string>)
    requires forall i :: 0 <= i < |ws| ==> IsWord(ws[i])
    requires |seps| == |ws| + 1 && Blanks(seps)
    ensures CountResult(Lines(Separated(ws, seps))) == if ws == [] then Err(EmptySource) else Ok(|ws|)
  {
    CountOfText(Separated(ws, seps));
    SplitSeparated(ws, seps);
  }

  /** A failed read ends the count whatever was read before it or would follow it: the words
      already counted are discarded. */
  lemma FailureDiscardsCount(before: seq<string>, cause: IoError, after: seq<LineRead>)
    ensures CountResult(seq(|before|, i requires 0 <= i < |before| => Line(before[i])) + [Failed(cause)] + after)
            == Err(ReadError(cause))
  {
    var input := seq(|before|, i requires 0 <= i < |before| => Line(before[i])) + [Failed(cause)] + after;
    assert input[|before|].Failed?;
  }

  /** A reader whose very first read fails yields `ReadError`, not `EmptySource`. */
  lemma FirstReadFails(cause: IoError, after: seq<LineRead>)
    ensures CountResult([Failed(cause)] + after) == Err(ReadError(cause))
  {
  }

  /** A non-empty run of lower-case letters is one word. */
  lemma PlainWord(w: string)
    requires |w| > 0 && forall i :: 0 <= i < |w| ==> 'a' <= w[i] <= 'z'
    ensures IsWord(w) && Words(w) == 1
  {
    SplitWord(w);
  }

  /** The single word "foobar" counts 1. */
  lemma CountSingleWord()
    ensures CountResult(Lines("foobar")) == Ok(1)
  {
    CountOfText("foobar");
    PlainWord("foobar");
  }

  /** "foo bar\nbaz" counts 3: the words on the two lines are counted separately. */
  lemma CountMultipleWords()
    ensures CountResult(Lines("foo bar\nbaz")) == Ok(3)
  {
    var ws, seps := ["foo", "bar", "baz"], ["", " ", "\n", ""];
    PlainWord("foo");
    PlainWord("bar");
    PlainWord("baz");
    assert Separated(ws, seps) == "foo bar\nbaz";
    CountOfSeparatedWords(ws, seps);
  }

  /** The empty source is `EmptySource`. */
  lemma CountEmptyInput()
    ensures CountResult(Lines("")) == Err(EmptySource)
  {
  }

  /** Blank lines count like an empty source. */
  lemma CountBlankInput()
    ensures CountResult(Lines("  \n\t \n")) == Err(EmptySource)
  {
    CountOfText("  \n\t \n");
  }
}
