/**
 * The two string primitives the form generator relies on, for a one-character
 * separator: `s.split(sep)` and `sep.join(parts)`. Both are defined from the
 * right end so that they unfold the same way, and each is proved to undo the
 * other.
 */
module Strings {

  /** The number of characters in all of `parts` together. */
  function TotalLength(parts: seq<string>): nat
    decreases |parts|
  {
    if parts == [] then 0 else TotalLength(parts[..|parts| - 1]) + |parts[|parts| - 1]|
  }

  /**
   * `sep.join(parts)`: the parts with one separator between neighbours, so
   * one character more than the parts for each gap between two of them.
   */
  function Join(parts: seq<string>, sep: char): (s: string)
    ensures |s| == if parts == [] then 0 else TotalLength(parts) + |parts| - 1
    decreases |parts|
  {
    if |parts| == 0 then ""
    else if |parts| == 1 then parts[0]
    else Join(parts[..|parts| - 1], sep) + [sep] + parts[|parts| - 1]
  }

  /**
   * `s.split(sep)`: cut at EVERY occurrence of `sep`, so neighbouring
   * separators, a leading or a trailing one give empty pieces, and the empty
   * string gives one empty piece.
   */
  function Split(s: string, sep: char): (parts: seq<string>)
    ensures |parts| >= 1
    decreases |s|
  {
    if s == [] then [""]
    else
      var init := Split(s[..|s| - 1], sep);
      var c := s[|s| - 1];
      if c == sep then init + [""]
      else init[..|init| - 1] + [init[|init| - 1] + [c]]
  }

  /** There is one more piece than there are separators. */
  lemma {:induction false} SplitCount(s: string, sep: char)
    ensures |Split(s, sep)| == 1 + Occurrences(s, sep)
    decreases |s|
  {
    if s != [] {
      SplitCount(s[..|s| - 1], sep);
    }
  }

  /** No piece holds the separator. */
  lemma {:induction false} SplitPiecesAvoidSep(s: string, sep: char)
    ensures forall i :: 0 <= i < |Split(s, sep)| ==> sep !in Split(s, sep)[i]
    decreases |s|
  {
    if s != [] {
      var t, c := s[..|s| - 1], s[|s| - 1];
      SplitPiecesAvoidSep(t, sep);
      var init := Split(t, sep);
      var n := |init|;
      if c != sep {
        forall i | 0 <= i < |Split(s, sep)|
          ensures sep !in Split(s, sep)[i]
        {
          if i < n - 1 {
            assert Split(s, sep)[i] == init[i];
          } else {
            assert Split(s, sep)[i] == init[n - 1] + [c];
          }
        }
      }
    }
  }

  /** Joining the pieces back with the separator gives the text again. */
  lemma {:induction false} JoinSplit(s: string, sep: char)
    ensures Join(Split(s, sep), sep) == s
    decreases |s|
  {
    if s != [] {
      var t, c := s[..|s| - 1], s[|s| - 1];
      JoinSplit(t, sep);
      var init := Split(t, sep);
      assert s == t + [c];
      if c == sep {
        JoinSnoc(init, "", sep);
      } else {
        var n := |init|;
        assert init == init[..n - 1] + [init[n - 1]];
        JoinExtendLast(init[..n - 1], init[n - 1], [c], sep);
      }
    }
  }

  /** The three facts about the pieces together. */
  lemma SplitPieces(s: string, sep: char)
    ensures |Split(s, sep)| == 1 + Occurrences(s, sep)
    ensures forall i :: 0 <= i < |Split(s, sep)| ==> sep !in Split(s, sep)[i]
    ensures Join(Split(s, sep), sep) == s
  {
    SplitCount(s, sep);
    SplitPiecesAvoidSep(s, sep);
    JoinSplit(s, sep);
  }

  /** The number of times `c` occurs in `s`. */
  function Occurrences(s: string, c: char): nat
    decreases |s|
  {
    if s == [] then 0
    else Occurrences(s[..|s| - 1], c) + (if s[|s| - 1] == c then 1 else 0)
  }

  /** Joining one more part adds a separator and that part at the end. */
  lemma JoinSnoc(parts: seq<string>, last: string, sep: char)
    requires |parts| >= 1
    ensures Join(parts + [last], sep) == Join(parts, sep) + [sep] + last
  {
    assert (parts + [last])[..|parts|] == parts;
  }

  /** Extending the last part extends the joined text by the same characters. */
  lemma JoinExtendLast(parts: seq<string>, last: string, tail: string, sep: char)
    ensures Join(parts + [last + tail], sep) == Join(parts + [last], sep) + tail
  {
    if |parts| >= 1 {
      JoinSnoc(parts, last + tail, sep);
      JoinSnoc(parts, last, sep);
    }
  }

  /** With two or more parts the joined text starts with the first part and a separator. */
  lemma {:induction false} JoinHead(parts: seq<string>, sep: char)
    requires |parts| >= 2
    ensures Join(parts, sep) == parts[0] + [sep] + Join(parts[1..], sep)
    decreases |parts|
  {
    var n := |parts|;
    if n > 2 {
      JoinHead(parts[..n - 1], sep);
      assert parts[..n - 1][1..] == parts[1..][..n - 2];
      JoinSnoc(parts[1..][..n - 2], parts[n - 1], sep);
      assert parts[1..][..n - 2] + [parts[n - 1]] == parts[1..];
    } else {
      assert parts[1..] == [parts[1]];
    }
  }

  /** A character found in one of the parts is found in the joined text. */
  lemma {:induction false} JoinContains(parts: seq<string>, sep: char, i: nat, c: char)
    requires i < |parts| && c in parts[i]
    ensures c in Join(parts, sep)
    decreases |parts|
  {
    var n := |parts|;
    if n > 1 && i < n - 1 {
      JoinContains(parts[..n - 1], sep, i, c);
    }
  }

  /** Text without the separator is one piece. */
  lemma {:induction false} SplitWithoutSep(s: string, sep: char)
    requires sep !in s
    ensures Split(s, sep) == [s]
    decreases |s|
  {
    if s != [] {
      SplitWithoutSep(s[..|s| - 1], sep);
      assert s == s[..|s| - 1] + [s[|s| - 1]];
    }
  }

  /** Adding one character at the end either starts a new piece or extends the last one. */
  lemma SplitSnoc(s: string, c: char, sep: char)
    ensures var init := Split(s, sep);
      Split(s + [c], sep) == if c == sep then init + [""]
                             else init[..|init| - 1] + [init[|init| - 1] + [c]]
  {
    assert (s + [c])[..|s|] == s;
  }

  /** Text after the last separator becomes the last piece. */
  lemma {:induction false} SplitAfterSep(prefix: string, sep: char, tail: string)
    requires sep !in tail
    ensures Split(prefix + [sep] + tail, sep) == Split(prefix, sep) + [tail]
    decreases |tail|
  {
    if tail == [] {
      SplitSnoc(prefix, sep, sep);
      assert prefix + [sep] + tail == prefix + [sep];
    } else {
      var t, c := tail[..|tail| - 1], tail[|tail| - 1];
      var front := Split(prefix, sep);
      var init := Split(prefix + [sep] + t, sep);
      assert init == front + [t] by {
        SplitAfterSep(prefix, sep, t);
      }
      assert Split(prefix + [sep] + tail, sep) == init[..|init| - 1] + [init[|init| - 1] + [c]] by {
        SplitSnoc(prefix + [sep] + t, c, sep);
        assert prefix + [sep] + t + [c] == prefix + [sep] + tail;
      }
      assert init[..|init| - 1] == front && init[|init| - 1] == t;
      assert t + [c] == tail;
    }
  }

  /** Splitting undoes joining when no part holds the separator. */
  lemma {:induction false} SplitJoin(parts: seq<string>, sep: char)
    requires |parts| >= 1
    requires forall i :: 0 <= i < |parts| ==> sep !in parts[i]
    ensures Split(Join(parts, sep), sep) == parts
    decreases |parts|
  {
    var n := |parts|;
    if n == 1 {
      SplitWithoutSep(parts[0], sep);
    } else {
      SplitJoin(parts[..n - 1], sep);
      SplitAfterSep(Join(parts[..n - 1], sep), sep, parts[n - 1]);
      assert parts[..n - 1] + [parts[n - 1]] == parts;
    }
  }

  /** The pieces after one more character: a separator opens an empty piece, any other character extends the last one. */
  function AddChar(pieces: seq<string>, c: char, sep: char): (r: seq<string>)
    requires |pieces| >= 1
    ensures |r| == if c == sep then |pieces| + 1 else |pieces|
    ensures r[..|pieces| - 1] == pieces[..|pieces| - 1]
  {
    if c == sep then pieces + [""] else pieces[..|pieces| - 1] + [pieces[|pieces| - 1] + [c]]
  }

  lemma SplitAddChar(s: string, c: char, sep: char)
    ensures Split(s + [c], sep) == AddChar(Split(s, sep), c, sep)
  {
    SplitSnoc(s, c, sep);
  }

  /** Adding a character to the pieces `front + back` only touches `back`. */
  lemma SnocPieces(front: seq<string>, back: seq<string>, c: char, sep: char)
    requires |back| >= 1
    ensures AddChar(front + back, c, sep) == front + AddChar(back, c, sep)
  {
    var all := front + back;
    if c != sep {
      assert all[..|all| - 1] == front + back[..|back| - 1];
    }
  }

  /** One more character after the separator keeps the two sides split on their own. */
  lemma SplitConcatStep(a: string, sep: char, t: string, c: char)
    requires Split(a + [sep] + t, sep) == Split(a, sep) + Split(t, sep)
    ensures Split(a + [sep] + (t + [c]), sep) == Split(a, sep) + Split(t + [c], sep)
  {
    calc {
      Split(a + [sep] + (t + [c]), sep);
    == { assert a + [sep] + (t + [c]) == (a + [sep] + t) + [c]; }
      Split((a + [sep] + t) + [c], sep);
    == { SplitAddChar(a + [sep] + t, c, sep); }
      AddChar(Split(a, sep) + Split(t, sep), c, sep);
    == { SnocPieces(Split(a, sep), Split(t, sep), c, sep); }
      Split(a, sep) + AddChar(Split(t, sep), c, sep);
    == { SplitAddChar(t, c, sep); }
      Split(a, sep) + Split(t + [c], sep);
    }
  }

  /** Splitting around one separator splits each side on its own. */
  lemma {:induction false} SplitConcat(a: string, sep: char, b: string)
    ensures Split(a + [sep] + b, sep) == Split(a, sep) + Split(b, sep)
    decreases |b|
  {
    if b == [] {
      SplitSnoc(a, sep, sep);
      assert a + [sep] + b == a + [sep];
    } else {
      var t, c := b[..|b| - 1], b[|b| - 1];
      SplitConcat(a, sep, t);
      SplitConcatStep(a, sep, t, c);
      assert t + [c] == b;
    }
  }

  /** The non-empty strings of `parts`, in order. */
  function NonEmpty(parts: seq<string>): (r: seq<string>)
    ensures |r| <= |parts|
    ensures forall i :: 0 <= i < |r| ==> r[i] != ""
    decreases |parts|
  {
    if parts == [] then []
    else
      var last := parts[|parts| - 1];
      NonEmpty(parts[..|parts| - 1]) + (if last == "" then [] else [last])
  }

  lemma {:induction false} NonEmptyConcat(a: seq<string>, b: seq<string>)
    ensures NonEmpty(a + b) == NonEmpty(a) + NonEmpty(b)
    decreases |b|
  {
    if b == [] {
      assert a + b == a;
    } else {
      var t := b[..|b| - 1];
      NonEmptyConcat(a, t);
      assert (a + b)[..|a + b| - 1] == a + t;
      assert (a + b)[|a + b| - 1] == b[|b| - 1];
    }
  }

  /** The words of a text: its non-empty pieces between separators. */
  function Words(s: string, sep: char): seq<string>
  {
    NonEmpty(Split(s, sep))
  }

  /** The words on either side of a separator, in order. */
  lemma WordsConcat(a: string, sep: char, b: string)
    ensures Words(a + [sep] + b, sep) == Words(a, sep) + Words(b, sep)
  {
    SplitConcat(a, sep, b);
    NonEmptyConcat(Split(a, sep), Split(b, sep));
  }

  /** Text without the separator is one word, or none when it is empty. */
  lemma WordsWithoutSep(s: string, sep: char)
    requires sep !in s
    ensures Words(s, sep) == if s == "" then [] else [s]
  {
    SplitWithoutSep(s, sep);
    assert [s][..0] == [];
  }

  /** The words of each part, one part after the other. */
  function AllWords(parts: seq<string>, sep: char): seq<string>
    decreases |parts|
  {
    if parts == [] then []
    else AllWords(parts[..|parts| - 1], sep) + Words(parts[|parts| - 1], sep)
  }

  lemma AllWordsSnoc(parts: seq<string>, last: string, sep: char)
    ensures AllWords(parts + [last], sep) == AllWords(parts, sep) + Words(last, sep)
  {
    assert (parts + [last])[..|parts|] == parts;
  }

  /**
   * Joining never merges or cuts words: the words of the joined text are
   * the words of each part in turn.
   */
  lemma {:induction false} JoinWords(parts: seq<string>, sep: char)
    ensures Words(Join(parts, sep), sep) == AllWords(parts, sep)
    decreases |parts|
  {
    var n := |parts|;
    if n == 0 {
      WordsWithoutSep("", sep);
    } else if n == 1 {
      AllWordsSnoc([], parts[0], sep);
      assert [] + [parts[0]] == parts;
    } else {
      var init := parts[..n - 1];
      JoinWords(init, sep);
      WordsConcat(Join(init, sep), sep, parts[n - 1]);
      AllWordsSnoc(init, parts[n - 1], sep);
      assert init + [parts[n - 1]] == parts;
    }
  }
}
