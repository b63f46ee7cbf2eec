/** Title normalisation: `re.sub(r"\s+", " ", title).strip()`. */
module Normalization {
  import opened Text

  /** Every maximal run of whitespace becomes one space. */
  function CollapseSpaces(s: string): string
    decreases |s|
  {
    if s == "" then ""
    else if IsSpace(s[0]) then
      if |s| > 1 && IsSpace(s[1]) then CollapseSpaces(s[1..]) else " " + CollapseSpaces(s[1..])
    else [s[0]] + CollapseSpaces(s[1..])
  }

  function NormalizeTitle(title: string): string
  {
    Strip(CollapseSpaces(title))
  }

  lemma {:induction false} CollapseWord(w: string, rest: string)
    requires forall i :: 0 <= i < |w| ==> !IsSpace(w[i])
    ensures CollapseSpaces(w + rest) == w + CollapseSpaces(rest)
  {
    hide IsSpace;
    if w == "" {
      assert w + rest == rest;
    } else {
      assert (w + rest)[0] == w[0] && (w + rest)[1..] == w[1..] + rest;
      CollapseWord(w[1..], rest);
    }
  }

  /** Is there whitespace before the first word, or after the last? */
  function Lead(s: string): string
  {
    if s != "" && IsSpace(s[0]) then " " else ""
  }

  function Tail(s: string): string
  {
    if s != "" && IsSpace(s[|s| - 1]) then " " else ""
  }

  lemma {:induction false} NoWordsEndsInSpace(s: string)
    requires s != "" && Words(s) == []
    ensures IsSpace(s[0]) && IsSpace(s[|s| - 1])
  {
    hide IsSpace;
    if |s| > 1 {
      NoWordsEndsInSpace(s[1..]);
    }
  }

  /** What collapsing leaves: the words joined, with at most one space of padding at either end. */
  function PaddedJoin(s: string): string
  {
    if Words(s) == [] then Lead(s) else Lead(s) + Join(Words(s)) + Tail(s)
  }

  lemma WordsOfWordThen(w: string, rest: string)
    requires IsWord(w) && (rest != "" ==> IsSpace(rest[0]))
    ensures Words(w + rest) == [w] + Words(rest)
  {
    hide IsSpace;
    WordLengthAt(w, rest);
    assert (w + rest)[..|w|] == w && (w + rest)[|w|..] == rest;
  }

  lemma JoinCons(w: string, ws: seq<string>)
    ensures Join([w] + ws) == if ws == [] then w else w + " " + Join(ws)
  {
    assert ([w] + ws)[1..] == ws;
  }

  /** The padding of a text that starts with a word is that of what follows the word. */
  lemma PaddingAfterWord(w: string, rest: string)
    requires IsWord(w) && (rest != "" ==> IsSpace(rest[0]))
    ensures Lead(w + rest) == "" && Tail(w + rest) == Tail(rest) && Lead(rest) == (if rest == "" then "" else " ")
  {
    hide IsSpace;
    var s := w + rest;
    assert s[|s| - 1] == if rest == "" then w[|w| - 1] else rest[|rest| - 1];
  }

  lemma Reassociate(w: string, blank: string, j: string, tail: string)
    ensures w + (blank + j + tail) == "" + (w + blank + j) + tail
  {
  }

  lemma WordThenPadded(w: string, rest: string)
    requires IsWord(w) && (rest != "" ==> IsSpace(rest[0]))
    ensures w + PaddedJoin(rest) == PaddedJoin(w + rest)
  {
    hide IsSpace, Words, Join, Lead, Tail;
    var ws := Words(rest);
    WordsOfWordThen(w, rest);
    JoinCons(w, ws);
    PaddingAfterWord(w, rest);
    if rest == "" {
      EmptyHasNoWords();
      assert Tail("") == "" by {
        PaddedNothing();
      }
    } else if ws == [] {
      NoWordsEndsInSpace(rest);
      assert Tail(rest) == " " by {
        EndsInSpace(rest);
      }
    } else {
      Reassociate(w, " ", Join(ws), Tail(rest));
    }
  }

  lemma EndsInSpace(s: string)
    requires s != "" && IsSpace(s[|s| - 1])
    ensures Tail(s) == " "
  {
  }

  lemma PaddedNothing()
    ensures PaddedJoin("") == "" && Tail("") == ""
  {
  }

  lemma EmptyHasNoWords()
    ensures Words("") == []
  {
  }

  lemma SpaceThenPadded(s: string)
    requires s != "" && IsSpace(s[0])
    ensures PaddedJoin(s) == (if |s| > 1 && IsSpace(s[1]) then "" else " ") + PaddedJoin(s[1..])
  {
    hide IsSpace, Join, Words;
    var rest := s[1..];
    assert Words(s) == Words(rest) by {
      WordsAfterSpace(s);
    }
    if rest == "" {
      EmptyHasNoWords();
    } else {
      var j, tail := Join(Words(rest)), Tail(rest);
      assert rest[0] == s[1] && Tail(s) == tail;
      assert Lead(s) == (if IsSpace(s[1]) then "" else " ") + Lead(rest);
      assert Lead(s) + j + tail == (if IsSpace(s[1]) then "" else " ") + (Lead(rest) + j + tail);
    }
  }

  lemma WordsAfterSpace(s: string)
    requires s != "" && IsSpace(s[0])
    ensures Words(s) == Words(s[1..])
  {
  }

  lemma {:induction false} CollapseIsPaddedJoin(s: string)
    ensures CollapseSpaces(s) == PaddedJoin(s)
    decreases |s|
  {
    hide IsSpace, PaddedJoin, WordLength;
    if s == "" {
      PaddedNothing();
    } else if IsSpace(s[0]) {
      CollapseIsPaddedJoin(s[1..]);
      SpaceThenPadded(s);
    } else {
      var w, rest := s[..WordLength(s)], s[WordLength(s)..];
      assert s == w + rest;
      CollapseWord(w, rest);
      CollapseIsPaddedJoin(rest);
      WordThenPadded(w, rest);
    }
  }

  /** Normalising is splitting into words and joining them with single spaces. */
  lemma NormalizedIsJoinedWords(s: string)
    ensures NormalizeTitle(s) == Join(Words(s))
  {
    CollapseIsPaddedJoin(s);
    WordsAreWords(s);
    if Words(s) == [] {
      assert CollapseSpaces(s) == Lead(s);
      assert LStrip(" ") == "";
    } else {
      JoinIsTrim(Words(s));
      StripPadded(Lead(s), Join(Words(s)), Tail(s));
    }
  }

  /** It keeps the words, so it is idempotent, and titles normalise alike exactly when they have the same words. */
  lemma NormalizationKeepsWords(s: string, t: string)
    ensures Words(NormalizeTitle(s)) == Words(s)
    ensures NormalizeTitle(NormalizeTitle(s)) == NormalizeTitle(s)
    ensures NormalizeTitle(s) == NormalizeTitle(t) <==> Words(s) == Words(t)
  {
    hide IsSpace;
    forall x | x in [s, t, NormalizeTitle(s)]
      ensures NormalizeTitle(x) == Join(Words(x)) && Words(Join(Words(x))) == Words(x)
    {
      NormalizedIsJoinedWords(x);
      WordsAreWords(x);
      WordsOfJoin(Words(x));
    }
    var three := [s, t, NormalizeTitle(s)];
    assert s in three && t in three && NormalizeTitle(s) in three;
  }
}
