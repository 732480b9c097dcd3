/** Splitting one line into words, as Rust's `str::split_whitespace` does:
    a word is a maximal run of characters that are not white space. */
module Whitespace {

  /** The Unicode `White_Space` property, which Rust's `char::is_whitespace` tests. */
  predicate IsWhitespace(c: char)
  {
    ('\t' <= c <= '\r')                      // tab, line feed, vertical tab, form feed, carriage return
    || c == ' '
    || c == '\U{85}' || c == '\U{A0}' || c == '\U{1680}'
    || ('\U{2000}' <= c <= '\U{200A}')
    || c == '\U{2028}' || c == '\U{2029}' || c == '\U{202F}' || c == '\U{205F}'
    || c == '\U{3000}'
  }

  /** A word: a non-empty string without white space. */
  predicate IsWord(w: string)
  {
    |w| > 0 && forall i :: 0 <= i < |w| ==> !IsWhitespace(w[i])
  }

  predicate AllWhitespace(s: string)
  {
    forall i :: 0 <= i < |s| ==> IsWhitespace(s[i])
  }

  /** Length of the longest prefix of `s` that holds no white space. */
  function RunLength(s: string): (k: nat)
    ensures k <= |s|
    ensures forall i :: 0 <= i < k ==> !IsWhitespace(s[i])
    ensures k < |s| ==> IsWhitespace(s[k])
  {
    if s == [] || IsWhitespace(s[0]) then 0 else 1 + RunLength(s[1..])
  }

  /** The words of `s`, in order: skip white space, take a maximal run, repeat. */
  function SplitWhitespace(s: string): (ws: seq<string>)
    ensures forall i :: 0 <= i < |ws| ==> IsWord(ws[i])
    decreases |s|
  {
    if s == [] then []
    else if IsWhitespace(s[0]) then SplitWhitespace(s[1..])
    else
      var k := RunLength(s);
      [s[..k]] + SplitWhitespace(s[k..])
  }

  /** The number of words of `s`. */
  function Words(s: string): nat
  {
    |SplitWhitespace(s)|
  }

  /** The characters of `s` that are not white space, in order. */
  function NonWhitespace(s: string): string
  {
    if s == [] then []
    else if IsWhitespace(s[0]) then NonWhitespace(s[1..])
    else [s[0]] + NonWhitespace(s[1..])
  }

  function Concat(ws: seq<string>): string
  {
    if ws == [] then [] else ws[0] + Concat(ws[1..])
  }

  /** Words laid out between white-space separators:
      `seps[0] + ws[0] + seps[1] + ... + ws[n - 1] + seps[n]`. */
  function Separated(ws: seq<string>, seps: seq<string>): string
    requires |seps| == |ws| + 1
    decreases |ws|
  {
    if ws == [] then seps[0] else seps[0] + ws[0] + Separated(ws[1..], seps[1..])
  }

  /** Separators for `Separated`: all white space, and non-empty between two words
      (the leading and trailing ones may be empty). */
  predicate Blanks(seps: seq<string>)
  {
    (forall i :: 0 <= i < |seps| ==> AllWhitespace(seps[i]))
    && (forall i :: 0 < i < |seps| - 1 ==> |seps[i]| > 0)
  }

  /** The number of positions of `s` where a word begins: a character that is not white space
      and follows white space (or starts `s`, when `afterBlank`). An independent count of the
      maximal runs, one character at a time. */
  function RunStarts(s: string, afterBlank: bool): nat
  {
    if s == [] then 0
    else (if !IsWhitespace(s[0]) && afterBlank then 1 else 0) + RunStarts(s[1..], IsWhitespace(s[0]))
  }

  lemma {:induction false} RunStartsInsideWord(x: string, m: nat)
    requires m <= |x|
    requires forall i :: 0 <= i < m ==> !IsWhitespace(x[i])
    requires m < |x| ==> IsWhitespace(x[m])
    ensures RunStarts(x, false) == RunStarts(x[m..], true)
    decreases m
  {
    if m > 0 {
      RunStartsInsideWord(x[1..], m - 1);
      assert x[1..][m - 1..] == x[m..];
    }
  }

  /** Splitting yields one word per maximal run: as many words as positions where a run begins. */
  lemma {:induction false} WordsAreRuns(s: string)
    ensures Words(s) == RunStarts(s, true)
    decreases |s|
  {
    if s != [] {
      if IsWhitespace(s[0]) {
        WordsAreRuns(s[1..]);
      } else {
        var k := RunLength(s);
        WordsAreRuns(s[k..]);
        RunStartsInsideWord(s[1..], k - 1);
        assert s[1..][k - 1..] == s[k..];
      }
    }
  }

  /** A string has no words exactly when it is all white space (the empty string included). */
  lemma {:induction false} NoWordsIffBlank(s: string)
    ensures Words(s) == 0 <==> AllWhitespace(s)
    decreases |s|
  {
    if s != [] && IsWhitespace(s[0]) {
      NoWordsIffBlank(s[1..]);
      assert AllWhitespace(s[1..]) ==> AllWhitespace(s) by {
        if AllWhitespace(s[1..]) {
          forall i | 0 <= i < |s| ensures IsWhitespace(s[i]) {
            if i > 0 { assert s[i] == s[1..][i - 1]; }
          }
        }
      }
    }
  }

  lemma {:induction false} NonWhitespaceAppend(x: string, y: string)
    ensures NonWhitespace(x + y) == NonWhitespace(x) + NonWhitespace(y)
    decreases |x|
  {
    if x == [] {
      assert x + y == y;
    } else {
      assert (x + y)[1..] == x[1..] + y;
      NonWhitespaceAppend(x[1..], y);
    }
  }

  lemma {:induction false} NonWhitespaceOfWord(w: string)
    requires forall i :: 0 <= i < |w| ==> !IsWhitespace(w[i])
    ensures NonWhitespace(w) == w
    decreases |w|
  {
    if w != [] {
      NonWhitespaceOfWord(w[1..]);
    }
  }

  /** Concatenated, the words are exactly the non-white-space characters of `s`, in order:
      splitting loses and reorders nothing. */
  lemma {:induction false} WordsCoverText(s: string)
    ensures Concat(SplitWhitespace(s)) == NonWhitespace(s)
    decreases |s|
  {
    if s != [] {
      if IsWhitespace(s[0]) {
        WordsCoverText(s[1..]);
      } else {
        var k := RunLength(s);
        assert s == s[..k] + s[k..];
        NonWhitespaceAppend(s[..k], s[k..]);
        NonWhitespaceOfWord(s[..k]);
        WordsCoverText(s[k..]);
        var ws := SplitWhitespace(s);
        assert ws[1..] == SplitWhitespace(s[k..]);
      }
    }
  }

  lemma {:induction false} RunLengthStopsAt(x: string, c: char, y: string)
    requires IsWhitespace(c)
    ensures RunLength(x + [c] + y) == RunLength(x)
    decreases |x|
  {
    if x == [] {
      assert x + [c] + y == [c] + y;
    } else if !IsWhitespace(x[0]) {
      assert (x + [c] + y)[1..] == x[1..] + [c] + y;
      RunLengthStopsAt(x[1..], c, y);
    }
  }

  /** A white-space character never joins the word before it to the word after it:
      the words of `a + [c] + b` are those of `a` followed by those of `b`. */
  lemma {:induction false} SplitAroundWhitespace(a: string, c: char, b: string)
    requires IsWhitespace(c)
    ensures SplitWhitespace(a + [c] + b) == SplitWhitespace(a) + SplitWhitespace(b)
    decreases |a|
  {
    var s := a + [c] + b;
    if a == [] {
      assert s == [c] + b && s[1..] == b;
    } else if IsWhitespace(a[0]) {
      assert s[1..] == a[1..] + [c] + b;
      SplitAroundWhitespace(a[1..], c, b);
    } else {
      var k := RunLength(a);
      RunLengthStopsAt(a, c, b);
      assert s[..k] == a[..k];
      assert s[k..] == a[k..] + [c] + b;
      SplitAroundWhitespace(a[k..], c, b);
    }
  }

  /** Leading white space contributes no words. */
  lemma {:induction false} SplitAfterBlank(sep: string, b: string)
    requires AllWhitespace(sep)
    ensures SplitWhitespace(sep + b) == SplitWhitespace(b)
    decreases |sep|
  {
    if sep == [] {
      assert sep + b == b;
    } else {
      assert (sep + b)[1..] == sep[1..] + b;
      SplitAfterBlank(sep[1..], b);
    }
  }

  /** Any non-empty run of white space separates like a single white-space character. */
  lemma SplitAroundBlank(a: string, sep: string, b: string)
    requires |sep| > 0 && AllWhitespace(sep)
    ensures SplitWhitespace(a + sep + b) == SplitWhitespace(a) + SplitWhitespace(b)
  {
    assert a + sep + b == a + [sep[0]] + (sep[1..] + b);
    SplitAroundWhitespace(a, sep[0], sep[1..] + b);
    SplitAfterBlank(sep[1..], b);
  }

  /** A word splits into itself. */
  lemma SplitWord(w: string)
    requires IsWord(w)
    ensures SplitWhitespace(w) == [w]
  {
    assert RunLength(w) == |w|;
    assert w[..|w|] == w;
  }

  /** Splitting undoes laying out: words separated by any white space, a different run in
      each gap and optional white space at either end, split back into exactly those words. */
  lemma {:induction false} SplitSeparated(ws: seq<string>, seps: seq<string>)
    requires forall i :: 0 <= i < |ws| ==> IsWord(ws[i])
    requires |seps| == |ws| + 1 && Blanks(seps)
    ensures SplitWhitespace(Separated(ws, seps)) == ws
    decreases |ws|
  {
    if ws == [] {
      SplitAfterBlank(seps[0], []);
      assert seps[0] + [] == seps[0];
    } else {
      var tail := Separated(ws[1..], seps[1..]);
      assert Separated(ws, seps) == seps[0] + (ws[0] + tail);
      SplitAfterBlank(seps[0], ws[0] + tail);
      SplitWord(ws[0]);
      if |ws| == 1 {
        assert tail == seps[1];
        if seps[1] == [] {
          assert ws[0] + tail == ws[0];
        } else {
          SplitAroundBlank(ws[0], seps[1], []);
          assert ws[0] + seps[1] + [] == ws[0] + tail;
        }
      } else {
        var rest := ws[1] + Separated(ws[2..], seps[2..]);
        assert ws[1..][1..] == ws[2..] && seps[1..][1..] == seps[2..];
        assert tail == seps[1] + rest;
        assert ws[0] + tail == ws[0] + seps[1] + rest;
        SplitAroundBlank(ws[0], seps[1], rest);
        SplitSeparated(ws[1..], seps[1..]);
        SplitAfterBlank(seps[1], rest);
        assert [ws[0]] + ws[1..] == ws;
      }
    }
  }
}
