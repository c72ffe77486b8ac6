/**
 * The chunker of the ingestion controller: `chunkText($text, $chunkSize)` splits the extracted
 * text on runs of whitespace (`preg_split('/\s+/', ...)`), cuts the word list into consecutive
 * windows of `$chunkSize` words (`array_chunk`) and joins each window with single spaces.
 */
module Chunker {
  import opened Common

  /** The window size the controller passes on upload and on update. */
  const ChunkSize: nat := 500

  /** PCRE's `\s` without the `u` modifier: space, tab, line feed, vertical tab, form feed, carriage return. */
  predicate IsSpace(c: char)
  {
    c == ' ' || c == '\t' || c == '\n' || c == '\U{0B}' || c == '\U{0C}' || c == '\r'
  }

  predicate NoSpace(w: string)
  {
    forall i :: 0 <= i < |w| ==> !IsSpace(w[i])
  }

  /**
   * `preg_split('/\s+/', s)`: the pieces of `s` between maximal runs of whitespace. A leading
   * (trailing) run yields an empty first (last) piece, and the empty text yields one empty piece.
   */
  function Split(s: string): (words: seq<string>)
    ensures |words| >= 1
    decreases |s|
  {
    if s == [] then [""]
    else
      var rest := Split(s[1..]);
      if !IsSpace(s[0]) then [[s[0]] + rest[0]] + rest[1..]
      else if |s| > 1 && IsSpace(s[1]) then rest
      else [""] + rest
  }

  /**
   * The shape of every result of `Split`: at least one word, no word holds whitespace, and only
   * the first and the last word may be empty.
   */
  predicate WellFormed(words: seq<string>)
  {
    && |words| >= 1
    && (forall i :: 0 <= i < |words| ==> NoSpace(words[i]))
    && (forall i :: 0 < i < |words| - 1 ==> words[i] != [])
  }

  /** The text with every maximal run of whitespace replaced by one space. */
  function Collapse(s: string): (r: string)
    decreases |s|
  {
    if s == [] then ""
    else if !IsSpace(s[0]) then [s[0]] + Collapse(s[1..])
    else if |s| > 1 && IsSpace(s[1]) then Collapse(s[1..])
    else " " + Collapse(s[1..])
  }

  /** `array_chunk($xs, $n)`: consecutive windows of `n` elements, the last one possibly shorter. */
  function Windows<T>(xs: seq<T>, n: nat): (ws: seq<seq<T>>)
    requires n > 0
    ensures Flatten(ws) == xs
    ensures forall i :: 0 <= i < |ws| ==> 1 <= |ws[i]| <= n
    ensures forall i :: 0 <= i < |ws| - 1 ==> |ws[i]| == n
    ensures xs == [] <==> ws == []
    // |ws| is the ceiling of |xs| / n
    ensures |xs| <= |ws| * n < |xs| + n
    decreases |xs|
  {
    if xs == [] then []
    else if |xs| <= n then [xs]
    else
      var rest := Windows(xs[n..], n);
      assert xs == xs[..n] + xs[n..];
      [xs[..n]] + rest
  }

  /** `chunkText($text, $n)`: each window of words joined by single spaces. */
  function ChunkText(text: string, n: nat): (chunks: seq<string>)
    requires n > 0
    // even a text with no words gives one (empty) chunk
    ensures |chunks| >= 1
    // there are as many chunks as the ceiling of the word count divided by n
    ensures |Split(text)| <= |chunks| * n < |Split(text)| + n
  {
    JoinEach(Windows(Split(text), n))
  }

  /** Each window joined with single spaces. */
  function JoinEach(windows: seq<seq<string>>): seq<string>
  {
    seq(|windows|, i requires 0 <= i < |windows| => Join(windows[i], " "))
  }

  /** Each chunk split again into its words. */
  function Resplit(chunks: seq<string>): (words: seq<seq<string>>)
  {
    seq(|chunks|, i requires 0 <= i < |chunks| => Split(chunks[i]))
  }

  // ---------------------------------------------------------------------------------------------
  // Split and Join with single spaces are inverse to each other

  /** A word without whitespace is glued to the first piece of whatever follows it. */
  lemma {:induction false} SplitPrefix(w: string, t: string)
    requires NoSpace(w)
    ensures Split(w + t) == [w + Split(t)[0]] + Split(t)[1..]
    decreases |w|
  {
    if w != [] {
      assert (w + t)[1..] == w[1..] + t;
      SplitPrefix(w[1..], t);
      assert [w[0]] + (w[1..] + Split(t)[0]) == w + Split(t)[0];
    } else {
      assert w + t == t;
      assert Split(t) == [Split(t)[0]] + Split(t)[1..];
      assert w + Split(t)[0] == Split(t)[0];
    }
  }

  /** A single space before a text that does not start with whitespace opens an empty piece. */
  lemma SplitAfterSpace(t: string)
    requires t == [] || !IsSpace(t[0])
    ensures Split(" " + t) == [""] + Split(t)
  {
    assert (" " + t)[1..] == t;
  }

  /** Splitting the single-space join of well-formed words gives the words back. */
  lemma {:induction false} SplitJoin(words: seq<string>)
    requires WellFormed(words)
    ensures Split(Join(words, " ")) == words
    decreases |words|
  {
    if |words| == 1 {
      SplitPrefix(words[0], "");
      assert words[0] + "" == words[0];
    } else {
      var rest := words[1..];
      assert WellFormed(rest) by {
        forall i | 0 <= i < |rest| ensures NoSpace(rest[i]) {
          assert rest[i] == words[i + 1];
        }
        forall i | 0 < i < |rest| - 1 ensures rest[i] != [] {
          assert rest[i] == words[i + 1];
        }
      }
      SplitJoin(rest);
      var tail := Join(rest, " ");
      if rest[0] != [] {
        assert |rest| > 1 ==> tail == rest[0] + " " + Join(rest[1..], " ");
        assert tail[0] == rest[0][0];
        assert !IsSpace(rest[0][0]);
      } else {
        assert |rest| == 1;
        assert tail == [];
      }
      SplitAfterSpace(tail);
      assert Join(words, " ") == words[0] + (" " + tail);
      SplitPrefix(words[0], " " + tail);
      assert words[0] + "" == words[0];
      assert words == [words[0]] + rest;
    }
  }

  /** Every result of Split is well formed. */
  lemma {:induction false} SplitWellFormed(s: string)
    ensures WellFormed(Split(s))
    decreases |s|
  {
    if s != [] {
      var rest := Split(s[1..]);
      SplitWellFormed(s[1..]);
      var words := Split(s);
      if !IsSpace(s[0]) {
        assert words == [[s[0]] + rest[0]] + rest[1..];
        forall i | 0 <= i < |words| ensures NoSpace(words[i]) {
          if i > 0 { assert words[i] == rest[i]; }
        }
        forall i | 0 < i < |words| - 1 ensures words[i] != [] {
          assert words[i] == rest[i];
        }
      } else if |s| > 1 && IsSpace(s[1]) {
      } else {
        assert words == [""] + rest;
        forall i | 0 <= i < |words| ensures NoSpace(words[i]) {
          if i > 0 { assert words[i] == rest[i - 1]; }
        }
        forall i | 0 < i < |words| - 1 ensures words[i] != [] {
          assert words[i] == rest[i - 1];
          if i == 1 {
            // the text after this single space does not start with whitespace
            assert |s| > 1 && !IsSpace(s[1]);
            assert rest == Split(s[1..]);
            SplitNonSpaceStart(s[1..]);
          }
        }
      }
    }
  }

  /** A text that starts with a non-space character has a non-empty first piece. */
  lemma SplitNonSpaceStart(t: string)
    requires t != [] && !IsSpace(t[0])
    ensures Split(t)[0] != []
  {
  }

  /** Joining the pieces of a text with single spaces is the text with collapsed whitespace. */
  lemma {:induction false} JoinSplit(s: string)
    ensures Join(Split(s), " ") == Collapse(s)
    decreases |s|
  {
    if s != [] {
      var rest := Split(s[1..]);
      JoinSplit(s[1..]);
      if !IsSpace(s[0]) {
        JoinGlue([s[0]], rest);
      } else if |s| > 1 && IsSpace(s[1]) {
      } else {
        assert Split(s) == [""] + rest;
        assert ([""] + rest)[1..] == rest;
      }
    }
  }

  /** Gluing characters onto the first word of a join. */
  lemma {:induction false} JoinGlue(c: string, words: seq<string>)
    requires |words| >= 1
    ensures Join([c + words[0]] + words[1..], " ") == c + Join(words, " ")
  {
    var glued := [c + words[0]] + words[1..];
    if |words| > 1 {
      assert glued[1..] == words[1..];
      var tail := Join(words[1..], " ");
      assert Join(glued, " ") == (c + words[0]) + " " + tail;
      assert Join(words, " ") == words[0] + " " + tail;
      assert (c + words[0]) + " " + tail == c + (words[0] + " " + tail);
    } else {
      assert glued == [c + words[0]];
    }
  }

  // ---------------------------------------------------------------------------------------------
  // What chunkText promises

  /** The windows of well-formed words are well formed. */
  lemma {:induction false} WindowsWellFormed(words: seq<string>, n: nat)
    requires n > 0 && WellFormed(words)
    ensures forall i :: 0 <= i < |Windows(words, n)| ==> WellFormed(Windows(words, n)[i])
    decreases |words|
  {
    if |words| > n {
      var head, tail := words[..n], words[n..];
      assert WellFormed(head) by {
        forall i | 0 <= i < |head| ensures NoSpace(head[i]) { assert head[i] == words[i]; }
        forall i | 0 < i < |head| - 1 ensures head[i] != [] { assert head[i] == words[i]; }
      }
      assert WellFormed(tail) by {
        forall i | 0 <= i < |tail| ensures NoSpace(tail[i]) { assert tail[i] == words[n + i]; }
        forall i | 0 < i < |tail| - 1 ensures tail[i] != [] { assert tail[i] == words[n + i]; }
      }
      WindowsWellFormed(tail, n);
      var ws := Windows(words, n);
      assert ws == [head] + Windows(tail, n);
      forall i | 0 <= i < |ws| ensures WellFormed(ws[i]) {
        if i > 0 { assert ws[i] == Windows(tail, n)[i - 1]; }
      }
    }
  }

  /**
   * Re-splitting each chunk gives exactly its window of words, so the chunks' words, in order,
   * are the words of the text; every chunk but the last has exactly `n` words and the last has
   * between 1 and `n` (the empty string counting as one word). There is at least one chunk, and
   * the number of chunks is the ceiling of (number of words) / n.
   */
  lemma ChunkTextWords(text: string, n: nat)
    requires n > 0
    ensures |ChunkText(text, n)| >= 1
    ensures |Split(text)| <= |ChunkText(text, n)| * n < |Split(text)| + n
    ensures Resplit(ChunkText(text, n)) == Windows(Split(text), n)
    ensures Flatten(Resplit(ChunkText(text, n))) == Split(text)
    ensures forall i :: 0 <= i < |ChunkText(text, n)| - 1 ==> |Split(ChunkText(text, n)[i])| == n
    ensures 1 <= |Split(ChunkText(text, n)[|ChunkText(text, n)| - 1])| <= n
  {
    var words := Split(text);
    var windows := Windows(words, n);
    var chunks := ChunkText(text, n);
    SplitWellFormed(text);
    WindowsWellFormed(words, n);
    forall i | 0 <= i < |chunks| ensures Split(chunks[i]) == windows[i] {
      SplitJoin(windows[i]);
    }
    assert Resplit(chunks) == windows;
  }

  /** Text without whitespace (the empty text included) is one chunk: the text itself. */
  lemma {:induction false} SingleWordText(text: string, n: nat)
    requires n > 0 && NoSpace(text)
    ensures ChunkText(text, n) == [text]
  {
    SplitPrefix(text, "");
    assert text + "" == text;
    assert Split(text) == [text];
  }

  /** The empty text yields one empty chunk. */
  lemma EmptyText(n: nat)
    requires n > 0
    ensures ChunkText("", n) == [""]
  {
    SingleWordText("", n);
  }

  /** The chunks joined back with single spaces are the text with collapsed whitespace. */
  lemma {:induction false} ChunksRejoin(text: string, n: nat)
    requires n > 0
    ensures Join(ChunkText(text, n), " ") == Collapse(text)
  {
    var windows := Windows(Split(text), n);
    JoinFlatten(windows);
    JoinSplit(text);
  }

  /** Joining the joins of non-empty groups is joining their concatenation. */
  lemma {:induction false} JoinFlatten(windows: seq<seq<string>>)
    requires forall i :: 0 <= i < |windows| ==> |windows[i]| >= 1
    ensures Join(JoinEach(windows), " ") == Join(Flatten(windows), " ")
    decreases |windows|
  {
    if |windows| > 1 {
      var rest := windows[1..];
      JoinFlatten(rest);
      assert JoinEach(windows)[1..] == JoinEach(rest);
      JoinAppend(windows[0], Flatten(rest));
    } else if |windows| == 1 {
      assert Flatten(windows) == windows[0] + [];
      assert windows[0] + [] == windows[0];
    }
  }

  /** The join of two non-empty word lists placed one after the other. */
  lemma {:induction false} JoinAppend(a: seq<string>, b: seq<string>)
    requires |a| >= 1 && |b| >= 1
    ensures Join(a + b, " ") == Join(a, " ") + " " + Join(b, " ")
    decreases |a|
  {
    if |a| > 1 {
      assert (a + b)[1..] == a[1..] + b;
      JoinAppend(a[1..], b);
    } else {
      assert (a + b)[1..] == b;
    }
  }
}
