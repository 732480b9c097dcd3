# wordcount — a Dafny model of `count_words`

The `wordcount` utility counts the whitespace-delimited words of each source it is given,
like `wc -w`. Its one piece of logic is `count_words`: it reads a source line by line,
adds one for every word of every line, stops at the first failed read with `ReadError`,
and reports a source read to its end without a single word as `EmptySource`. Any other
result is the word count, which is at least 1.

The model has three modules:

- `Whitespace` (`whitespace.dfy`) models `str::split_whitespace`. It uses the exact Unicode
  `White_Space` table that Rust's `char::is_whitespace` tests. It proves these facts about
  the split:
  - every word is non-empty and holds no white space;
  - concatenated, the words give back every non-white-space character in order;
  - the number of words equals the number of positions where a maximal run begins;
  - splitting undoes laying words out with any white space between and around them;
  - one white-space character never merges the words on its two sides.
- `LineReader` (`line_reader.dfy`) models `BufRead::lines` over an in-memory text. A line
  ends at `'\n'`, and a `'\r'` just before that `'\n'` is dropped too. A final `'\n'` does
  not start an empty line. A stream of line reads is a `seq<LineRead>`, and each element is
  either `Line(text)` or `Failed(cause)`.
- `WordCounter` (`word_counter.dfy`) holds the error type and `CountWords`, which is
  `count_words` as a method with the source's nested loop. The method is proved equal to
  the specification function `CountResult`. Its contract also states each outcome directly,
  in terms of the summed per-line word counts and the first failed read. Lemmas show that
  counting line by line gives the word count of the whole text, and they check the source's
  own test cases.

## Model

| member | source | states |
|---|---|---|
| `Whitespace.IsWhitespace` | src/wordcounter.rs:57 | the characters `split_whitespace` splits on: the Unicode `White_Space` set that `char::is_whitespace` tests (U+0009 to U+000D, U+0020, U+0085, U+00A0, U+1680, U+2000 to U+200A, U+2028, U+2029, U+202F, U+205F, U+3000) |
| `Whitespace.Words` | src/wordcounter.rs:57-58 | the number of words that one line adds to the count: the length of its split |
| `Whitespace.SplitWhitespace` | src/wordcounter.rs:57 | each word that the split of a line yields is non-empty and contains no white-space character |
| `Whitespace.WordsCoverText` | src/wordcounter.rs:57 | concatenated, the words of a line are exactly its non-white-space characters, in order |
| `Whitespace.WordsAreRuns` | src/wordcounter.rs:57-58 | the number of words equals the number of positions where a maximal non-white-space run begins, so each run is counted once |
| `Whitespace.NoWordsIffBlank` | src/wordcounter.rs:57-58 | a line has no words exactly when all its characters are white space, including the empty line |
| `Whitespace.SplitAroundWhitespace` | src/wordcounter.rs:55-58 | the words of `a + [c] + b` for a white-space `c` are the words of `a` followed by the words of `b` |
| `Whitespace.SplitAroundBlank` | src/wordcounter.rs:57 | any non-empty run of white space separates words like a single white-space character |
| `Whitespace.SplitWord` | src/wordcounter.rs:57 | a word with no white space splits into itself |
| `Whitespace.SplitSeparated` | src/wordcounter.rs:57 | words laid out with a non-empty white-space run in each gap (each gap may differ) and optional white space at either end split back into exactly those words |
| `LineReader.Lines` | src/wordcounter.rs:53-55 | reading an in-memory text never fails; no line contains `'\n'`; there are no more lines than characters; the empty text has no lines |
| `LineReader.LinesOfTerminated` | src/wordcounter.rs:55 | lines each followed by `'\n'` come back unchanged and in order, with no empty line after the last terminator |
| `LineReader.CrLfEndsLine` | src/wordcounter.rs:55 | a `"\r\n"` terminator ends a line like `'\n'`, and the `'\r'` is not part of the line |
| `WordCounter.FirstFailure` | src/wordcounter.rs:55-56 | the index of the first failed read: every earlier read succeeded, and the read at that index failed unless it is the end |
| `WordCounter.CountWords` | src/wordcounter.rs:52-67 | the result equals `CountResult`; `Ok(n)` exactly when no read fails and the total is positive, and then `n` is the sum of the per-line word counts and `n >= 1`; `EmptySource` exactly when every read succeeds and the total is 0; `ReadError` exactly when some read fails, carrying the cause of the first failure; never `IOError` |
| `WordCounter.TotalWordsAppend` | src/wordcounter.rs:55-58 | the word counts of consecutive parts of a stream add up, so the running count never decreases |
| `WordCounter.LinesKeepWords` | src/wordcounter.rs:55-59 | the per-line word counts of a text sum to the word count of the whole text, so line breaks never merge or lose words |
| `WordCounter.CountOfText` | src/wordcounter.rs:52-67 | for an in-memory text the result is `Ok` of the text's word count, or `EmptySource` exactly when the text is empty or all white space |
| `WordCounter.CountOfSeparatedWords` | src/wordcounter.rs:55-66 | words separated by white space, with any run in each gap (line breaks included) and optional white space at either end, count one each; no words gives `EmptySource` |
| `WordCounter.FailureDiscardsCount` | src/wordcounter.rs:56 | a failed read after any number of good lines yields `ReadError` with its cause, whatever follows, so the partial count is discarded |
| `WordCounter.FirstReadFails` | src/wordcounter.rs:122-127 | a source whose very first read fails yields `ReadError`, not `EmptySource` |
| `WordCounter.CountSingleWord` | src/wordcounter.rs:101-106 | `"foobar"` counts `Ok(1)` |
| `WordCounter.CountMultipleWords` | src/wordcounter.rs:108-113 | `"foo bar\nbaz"` counts `Ok(3)`, because the words on adjacent lines are counted separately |
| `WordCounter.CountEmptyInput` | src/wordcounter.rs:115-120 | the empty source yields `EmptySource` |
| `WordCounter.CountBlankInput` | src/wordcounter.rs:62-64 | a source of blank lines (`"  \n\t \n"`) yields `EmptySource`, like the empty source |

## Left out

- `CountWords`: the count is an unbounded `nat`. The source's `u32` counter would panic in a debug build, or wrap in a release build, after 4294967295 words.
- The reader is a finite sequence of line reads, not a `std::io::Read` object that is consumed. Buffering in `BufReader` and the chunk sizes of the underlying reads are not modelled.
- Decoding bytes as UTF-8 is not modelled. A line that is not valid UTF-8 is one more `Failed` element of the stream.
- The `IOError` variant exists in `WordCountError`, but `count_words` never produces it. `CountWords` states that it never does.
- The human-readable messages that `thiserror` derives for each error are not modelled.
- The `ErrReader` test reader is represented only as a stream whose first element is `Failed`.
- `src/main.rs` and `run()` in `src/lib.rs` are not part of this model. They iterate over file arguments, open files, print results and wrap errors with context, which is all I/O and presentation.
