/**
 * The greedy word wrapper `split_text(text, max_length)`.
 *
 * The text is cut at every single space into words; the words are then packed
 * left to right into a pending line. A word that would push the pending line
 * past the limit (counting one joining space, even when the pending line is
 * still empty) flushes the pending line, whatever it holds, and starts a new
 * one. At the end the pending line is kept only if it is non-empty, and the
 * lines are joined with newlines.
 *
 * `Fill` is the state after a prefix of the words; `SplitText` is the loop
 * and is proved to compute `Wrapped`; the lemmas state what the wrapper
 * promises and where it deviates from an idealised wrapper.
 */
module TextWrap {
  import opened Strings

  /** The loop's two variables: the finished lines and the pending line. */
  datatype WrapState = WrapState(lines: seq<string>, current: string)

  /** One iteration of the loop over the words. */
  function Step(st: WrapState, word: string, maxLength: int): WrapState
  {
    if |st.current| + |word| + 1 > maxLength then WrapState(st.lines + [st.current], word)
    else if st.current != "" then WrapState(st.lines, st.current + " " + word)
    else WrapState(st.lines, word)
  }

  /** The state after the loop has consumed all of `words`. */
  function Fill(words: seq<string>, maxLength: int): WrapState
    decreases |words|
  {
    if words == [] then WrapState([], "")
    else Step(Fill(words[..|words| - 1], maxLength), words[|words| - 1], maxLength)
  }

  /** The returned lines: the finished ones, then the pending one if non-empty. */
  function WrapWords(words: seq<string>, maxLength: int): seq<string>
  {
    var st := Fill(words, maxLength);
    if st.current != "" then st.lines + [st.current] else st.lines
  }

  /** The lines the wrapper produces for `text`, before they are joined. */
  function Lines(text: string, maxLength: int): seq<string>
  {
    WrapWords(Split(text, ' '), maxLength)
  }

  /**
   * What `split_text` returns: the lines joined with newlines. It is empty
   * exactly when there is no line or a single empty one.
   */
  function Wrapped(text: string, maxLength: int): (r: string)
    ensures r == "" <==> Lines(text, maxLength) == [] || Lines(text, maxLength) == [""]
  {
    Join(Lines(text, maxLength), '\n')
  }

  /**
   * A step flushes the pending line, and only it, exactly when the word with
   * one joining space would pass the limit; otherwise the finished lines stay
   * as they are. A pending line that grows by a space and the word still fits.
   */
  lemma StepFlushes(st: WrapState, word: string, maxLength: int)
    ensures Step(st, word, maxLength).lines == st.lines + [st.current] <==>
            |st.current| + |word| + 1 > maxLength
    ensures Step(st, word, maxLength).lines == st.lines || Step(st, word, maxLength).lines == st.lines + [st.current]
    ensures Step(st, word, maxLength).current == word ||
            (Step(st, word, maxLength).current == st.current + " " + word &&
             |Step(st, word, maxLength).current| <= maxLength)
  {
  }

  /**
   * Each word flushes at most one line, so there are never more finished
   * lines than words, and at most one more returned line than words.
   */
  lemma {:induction false} FillLineCount(words: seq<string>, maxLength: int)
    ensures |Fill(words, maxLength).lines| <= |words|
    ensures |WrapWords(words, maxLength)| <= |words| + 1
    decreases |words|
  {
    if words != [] {
      var init := words[..|words| - 1];
      FillLineCount(init, maxLength);
      StepFlushes(Fill(init, maxLength), words[|words| - 1], maxLength);
    }
  }

  /** `split_text`: the loop with its accumulator, proved to compute `Wrapped`. */
  method SplitText(text: string, maxLength: int) returns (wrapped: string)
    ensures wrapped == Wrapped(text, maxLength)
  {
    var words := Split(text, ' ');
    var lines: seq<string> := [];
    var currentLine := "";
    for i := 0 to |words|
      invariant WrapState(lines, currentLine) == Fill(words[..i], maxLength)
    {
      var word := words[i];
      assert words[..i + 1][..i] == words[..i];
      if |currentLine| + |word| + 1 > maxLength {
        lines := lines + [currentLine];
        currentLine := word;
      } else if currentLine != "" {
        currentLine := currentLine + " " + word;
      } else {
        currentLine := word;
      }
    }
    assert words[..|words|] == words;
    if currentLine != "" {
      lines := lines + [currentLine];
    }
    wrapped := Join(lines, '\n');
  }

  // ---------------------------------------------------------------------------
  // Empty input

  /**
   * Wrapping the empty text returns the empty text for every limit: the one
   * empty word either stays pending (and is dropped) or is flushed as one
   * empty line, which joins to nothing.
   */
  lemma WrapEmptyText(maxLength: int)
    ensures Lines("", maxLength) == if maxLength < 1 then [""] else []
    ensures Wrapped("", maxLength) == ""
  {
    assert Split("", ' ') == [""];
    assert [""][..0] == [];
  }

  // ---------------------------------------------------------------------------
  // Line lengths

  /**
   * A line is well formed when it is empty, is exactly one of the words, or
   * contains a space and fits the limit.
   */
  ghost predicate WellFormedLine(line: string, words: seq<string>, maxLength: int)
  {
    line == "" || line in words || (' ' in line && |line| <= maxLength)
  }

  ghost predicate WellFormedState(st: WrapState, words: seq<string>, maxLength: int)
  {
    WellFormedLine(st.current, words, maxLength) &&
    forall i :: 0 <= i < |st.lines| ==> WellFormedLine(st.lines[i], words, maxLength)
  }

  lemma {:induction false} FillWellFormed(words: seq<string>, maxLength: int)
    ensures WellFormedState(Fill(words, maxLength), words, maxLength)
    decreases |words|
  {
    if words != [] {
      var n := |words|;
      var init := words[..n - 1];
      FillWellFormed(init, maxLength);
      var st := Fill(init, maxLength);
      forall line | WellFormedLine(line, init, maxLength)
        ensures WellFormedLine(line, words, maxLength)
      {
        if line in init {
          var k :| 0 <= k < |init| && init[k] == line;
          assert words[k] == line;
        }
      }
      assert words[n - 1] in words;
      if |st.current| + |words[n - 1]| + 1 <= maxLength && st.current != "" {
        assert ' ' in st.current + " " + words[n - 1] by {
          assert (st.current + " " + words[n - 1])[|st.current|] == ' ';
        }
      }
    }
  }

  /**
   * A line holding two or more words (so a space) fits the limit; a line
   * without a space is empty or exactly one input word. Hence a line longer
   * than the limit is a single word, never a split one.
   */
  lemma MultiWordLinesFit(text: string, maxLength: int)
    ensures forall i :: 0 <= i < |Lines(text, maxLength)| && ' ' in Lines(text, maxLength)[i] ==>
              |Lines(text, maxLength)[i]| <= maxLength
    ensures forall i :: 0 <= i < |Lines(text, maxLength)| && ' ' !in Lines(text, maxLength)[i] ==>
              Lines(text, maxLength)[i] == "" || Lines(text, maxLength)[i] in Split(text, ' ')
  {
    var words := Split(text, ' ');
    SplitPieces(text, ' ');
    FillWellFormed(words, maxLength);
    forall line | line in words ensures ' ' !in line {
      var k :| 0 <= k < |words| && words[k] == line;
    }
  }

  // ---------------------------------------------------------------------------
  // Rejoining the lines

  /** One more non-empty word after a non-empty pending line rejoins as a space and that word. */
  lemma RejoinStep(st: WrapState, w: string, maxLength: int)
    requires st.current != "" && w != ""
    ensures Step(st, w, maxLength).current != ""
    ensures Join(Step(st, w, maxLength).lines + [Step(st, w, maxLength).current], ' ') ==
            Join(st.lines + [st.current], ' ') + " " + w
  {
    if |st.current| + |w| + 1 > maxLength {
      JoinSnoc(st.lines + [st.current], w, ' ');
    } else {
      JoinExtendLast(st.lines, st.current, " " + w, ' ');
      assert st.current + " " + w == st.current + (" " + w);
    }
  }

  /** The first word lands on an empty pending line. */
  lemma FirstWordRejoin(w: string, maxLength: int)
    requires w != ""
    ensures Step(WrapState([], ""), w, maxLength).current != ""
    ensures Join(Step(WrapState([], ""), w, maxLength).lines + [Step(WrapState([], ""), w, maxLength).current], ' ') ==
            (if |w| >= maxLength then " " else "") + Join([w], ' ')
  {
    if |w| >= maxLength {
      JoinSnoc([""], w, ' ');
    }
  }

  /**
   * A word appended after a text that is `lead` then `words` is appended
   * after `words`. Dafny proves it unaided; it is stated over plain strings
   * so that `RejoinWord` regroups the concatenation without unfolding `Join`.
   */
  lemma ConcatStep(before: string, lead: string, words: string, w: string)
    requires before == lead + words
    ensures before + " " + w == lead + (words + [' '] + w)
  {
  }

  /** One more word keeps the rejoined pending state equal to the rejoined words. */
  lemma RejoinWord(st: WrapState, done: seq<string>, w: string, lead: string, maxLength: int)
    requires st.current != "" && w != "" && |done| >= 1
    requires Join(st.lines + [st.current], ' ') == lead + Join(done, ' ')
    ensures Step(st, w, maxLength).current != ""
    ensures Join(Step(st, w, maxLength).lines + [Step(st, w, maxLength).current], ' ') ==
            lead + Join(done + [w], ' ')
  {
    RejoinStep(st, w, maxLength);
    JoinSnoc(done, w, ' ');
    ConcatStep(Join(st.lines + [st.current], ' '), lead, Join(done, ' '), w);
  }

  lemma {:induction false} FillRejoin(words: seq<string>, maxLength: int)
    requires |words| >= 1
    requires forall i :: 0 <= i < |words| ==> words[i] != ""
    ensures Fill(words, maxLength).current != ""
    ensures Join(Fill(words, maxLength).lines + [Fill(words, maxLength).current], ' ') ==
            (if |words[0]| >= maxLength then " " else "") + Join(words, ' ')
    decreases |words|
  {
    var n := |words|;
    var init, w := words[..n - 1], words[n - 1];
    assert Fill(words, maxLength) == Step(Fill(init, maxLength), w, maxLength);
    if n == 1 {
      assert init == [] && words == [w];
      FirstWordRejoin(w, maxLength);
    } else {
      assert words[0] == init[0];
      FillRejoin(init, maxLength);
      RejoinWord(Fill(init, maxLength), init, w, if |words[0]| >= maxLength then " " else "", maxLength);
      assert init + [w] == words;
    }
  }

  /**
   * When the text has no empty words (no leading, trailing or doubled
   * spaces), rejoining the lines with single spaces gives back the text, no
   * word split, dropped or reordered, except that a first word at least as
   * long as the limit leaves an empty first line, which rejoins as one extra
   * leading space.
   */
  lemma RejoinRestoresText(text: string, maxLength: int)
    requires forall i :: 0 <= i < |Split(text, ' ')| ==> Split(text, ' ')[i] != ""
    ensures Join(Lines(text, maxLength), ' ') ==
            (if |Split(text, ' ')[0]| >= maxLength then " " else "") + text
  {
    SplitPieces(text, ' ');
    FillRejoin(Split(text, ' '), maxLength);
  }

  /**
   * With no empty words and every word shorter than the limit, the lines
   * rejoined with single spaces are exactly the text, and every line fits.
   */
  lemma RoundTrip(text: string, maxLength: int)
    requires forall i :: 0 <= i < |Split(text, ' ')| ==> Split(text, ' ')[i] != ""
    requires forall i :: 0 <= i < |Split(text, ' ')| ==> |Split(text, ' ')[i]| < maxLength
    ensures Join(Lines(text, maxLength), ' ') == text
    ensures forall i :: 0 <= i < |Lines(text, maxLength)| ==> |Lines(text, maxLength)[i]| <= maxLength
  {
    RejoinRestoresText(text, maxLength);
    ShortWordsFit(Split(text, ' '), maxLength);
  }

  // ---------------------------------------------------------------------------
  // Words are kept whole, for every text

  /** Extending the pending line with a space and a word adds that word's words. */
  lemma ExtendKeepsWords(lines: seq<string>, cur: string, w: string)
    ensures AllWords(lines + [cur + " " + w], ' ') == AllWords(lines + [cur], ' ') + Words(w, ' ')
  {
    var held := AllWords(lines, ' ');
    assert AllWords(lines + [cur], ' ') == held + Words(cur, ' ') by {
      AllWordsSnoc(lines, cur, ' ');
    }
    assert Words(cur + " " + w, ' ') == Words(cur, ' ') + Words(w, ' ') by {
      WordsConcat(cur, ' ', w);
      assert cur + " " + w == cur + [' '] + w;
    }
    AllWordsSnoc(lines, cur + " " + w, ' ');
  }

  /** Replacing an empty pending line by a word adds that word's words. */
  lemma StartKeepsWords(lines: seq<string>, w: string)
    ensures AllWords(lines + [w], ' ') == AllWords(lines + [""], ' ') + Words(w, ' ')
  {
    var held := AllWords(lines, ' ');
    assert AllWords(lines + [w], ' ') == held + Words(w, ' ') by {
      AllWordsSnoc(lines, w, ' ');
    }
    assert AllWords(lines + [""], ' ') == held by {
      AllWordsSnoc(lines, "", ' ');
      WordsWithoutSep("", ' ');
    }
  }

  /** One loop step adds the new word's words after those already held, and loses none. */
  lemma StepKeepsWords(st: WrapState, w: string, maxLength: int)
    ensures AllWords(Step(st, w, maxLength).lines + [Step(st, w, maxLength).current], ' ') ==
            AllWords(st.lines + [st.current], ' ') + Words(w, ' ')
  {
    if |st.current| + |w| + 1 > maxLength {
      AllWordsSnoc(st.lines + [st.current], w, ' ');
    } else if st.current != "" {
      ExtendKeepsWords(st.lines, st.current, w);
    } else {
      StartKeepsWords(st.lines, w);
    }
  }

  /** After any prefix of the words, the lines and pending line hold exactly its non-empty words. */
  lemma {:induction false} FillKeepsWords(words: seq<string>, maxLength: int)
    requires forall i :: 0 <= i < |words| ==> ' ' !in words[i]
    ensures AllWords(Fill(words, maxLength).lines + [Fill(words, maxLength).current], ' ') == NonEmpty(words)
    decreases |words|
  {
    if words == [] {
      WordsWithoutSep("", ' ');
      AllWordsSnoc([], "", ' ');
    } else {
      var init, w := words[..|words| - 1], words[|words| - 1];
      FillKeepsWords(init, maxLength);
      StepKeepsWords(Fill(init, maxLength), w, maxLength);
      WordsWithoutSep(w, ' ');
    }
  }

  /**
   * For every text and limit, runs of spaces included, the wrapper neither
   * cuts, merges, drops nor reorders words: the words of the lines, taken
   * line by line, are the words of the text, and so are the words of the
   * lines rejoined with spaces.
   */
  lemma KeepsWords(text: string, maxLength: int)
    ensures AllWords(Lines(text, maxLength), ' ') == Words(text, ' ')
    ensures Words(Join(Lines(text, maxLength), ' '), ' ') == Words(text, ' ')
  {
    var words := Split(text, ' ');
    SplitPieces(text, ' ');
    FillKeepsWords(words, maxLength);
    var st := Fill(words, maxLength);
    if st.current == "" {
      WordsWithoutSep("", ' ');
      AllWordsSnoc(st.lines, "", ' ');
    }
    JoinWords(Lines(text, maxLength), ' ');
  }

  /** Words all shorter than the limit give lines that all fit it. */
  lemma ShortWordsFit(words: seq<string>, maxLength: int)
    requires forall i :: 0 <= i < |words| ==> |words[i]| < maxLength
    ensures forall i :: 0 <= i < |WrapWords(words, maxLength)| ==> |WrapWords(words, maxLength)[i]| <= maxLength
  {
    FillWellFormed(words, maxLength);
    var lines := WrapWords(words, maxLength);
    forall i | 0 <= i < |lines| ensures |lines[i]| <= maxLength {
      assert WellFormedLine(lines[i], words, maxLength);
      if lines[i] in words {
        var k :| 0 <= k < |words| && words[k] == lines[i];
      }
    }
  }

  // ---------------------------------------------------------------------------
  // The leading empty line

  /** The loop only ever appends to the finished lines. */
  lemma {:induction false} FillExtendsLines(words: seq<string>, k: nat, maxLength: int)
    requires k <= |words|
    ensures Fill(words[..k], maxLength).lines <= Fill(words, maxLength).lines
    decreases |words| - k
  {
    if k < |words| {
      var n := |words|;
      FillExtendsLines(words[..n - 1], k, maxLength);
      assert words[..n - 1][..k] == words[..k];
      assert words[..n] == words;
    } else {
      assert words[..k] == words;
    }
  }

  /** After a flush of the empty pending line, there is a second line or a pending one. */
  lemma {:induction false} FillAfterLeadingFlush(words: seq<string>, maxLength: int)
    requires |words| >= 1 && |words[0]| >= maxLength >= 1
    ensures |Fill(words, maxLength).lines| >= 1
    ensures |Fill(words, maxLength).lines| >= 2 || Fill(words, maxLength).current != ""
    decreases |words|
  {
    var n := |words|;
    if n == 1 {
      assert words[..0] == [];
    } else {
      FillAfterLeadingFlush(words[..n - 1], maxLength);
    }
  }

  /**
   * A first word at least as long as the limit flushes the empty pending
   * line, so the first line is empty; with a positive limit that word still
   * follows, so the returned text starts with a newline.
   */
  lemma LeadingEmptyLine(text: string, maxLength: int)
    requires |Split(text, ' ')[0]| >= maxLength
    ensures |Lines(text, maxLength)| >= 1 && Lines(text, maxLength)[0] == ""
    ensures maxLength >= 1 ==> |Lines(text, maxLength)| >= 2 && Wrapped(text, maxLength)[0] == '\n'
  {
    var lines := Lines(text, maxLength);
    LeadingEmptyWord(Split(text, ' '), maxLength);
    if maxLength >= 1 {
      JoinHead(lines, '\n');
    }
  }

  lemma LeadingEmptyWord(words: seq<string>, maxLength: int)
    requires |words| >= 1 && |words[0]| >= maxLength
    ensures |WrapWords(words, maxLength)| >= 1 && WrapWords(words, maxLength)[0] == ""
    ensures maxLength >= 1 ==> |WrapWords(words, maxLength)| >= 2
  {
    FillExtendsLines(words, 1, maxLength);
    assert words[..1][..0] == [];
    assert Fill(words[..1], maxLength).lines == [""];
    if maxLength >= 1 {
      FillAfterLeadingFlush(words, maxLength);
    }
  }

  // ---------------------------------------------------------------------------
  // The pending line at the end

  lemma {:induction false} FillNoTrailingEmpty(words: seq<string>, maxLength: int)
    requires maxLength >= 1
    ensures var st := Fill(words, maxLength);
      st.current == "" && st.lines != [] ==> st.lines[|st.lines| - 1] != ""
    decreases |words|
  {
    if words != [] {
      FillNoTrailingEmpty(words[..|words| - 1], maxLength);
    }
  }

  /**
   * Because the pending line is appended only when it is non-empty, with a
   * positive limit the last returned line is never empty: the result never
   * ends with a newline.
   */
  lemma NoTrailingEmptyLine(text: string, maxLength: int)
    requires maxLength >= 1
    ensures Lines(text, maxLength) != [] ==> Lines(text, maxLength)[|Lines(text, maxLength)| - 1] != ""
  {
    FillNoTrailingEmpty(Split(text, ' '), maxLength);
  }

  // ---------------------------------------------------------------------------
  // Reading the lines back

  lemma {:induction false} FillAvoids(words: seq<string>, maxLength: int, c: char)
    requires c != ' '
    requires forall i :: 0 <= i < |words| ==> c !in words[i]
    ensures c !in Fill(words, maxLength).current
    ensures forall i :: 0 <= i < |Fill(words, maxLength).lines| ==> c !in Fill(words, maxLength).lines[i]
    decreases |words|
  {
    if words != [] {
      FillAvoids(words[..|words| - 1], maxLength, c);
    }
  }

  /**
   * For text without newlines, cutting the result at newlines (as the drawing
   * step does) gives back exactly the wrapped lines, or one empty line when
   * there are none.
   */
  lemma WrappedLines(text: string, maxLength: int)
    requires '\n' !in text
    ensures Split(Wrapped(text, maxLength), '\n') ==
            if Lines(text, maxLength) == [] then [""] else Lines(text, maxLength)
  {
    var words := Split(text, ' ');
    SplitPieces(text, ' ');
    forall i | 0 <= i < |words| ensures '\n' !in words[i] {
      if '\n' in words[i] {
        JoinContains(words, ' ', i, '\n');
      }
    }
    FillAvoids(words, maxLength, '\n');
    if Lines(text, maxLength) != [] {
      SplitJoin(Lines(text, maxLength), '\n');
    }
  }
}
