/** Python string operations the sources use: `strip`, first-occurrence `split`, `splitlines`, word splitting. */
module Text {
  import opened Prelude

  /** `str.isspace`, which is also what the pattern `\s` matches. */
  predicate IsSpace(c: char)
  {
    || '\t' <= c <= '\r' || '\U{1C}' <= c <= ' ' || c == '\U{85}' || c == '\U{A0}' || c == '\U{1680}'
    || '\U{2000}' <= c <= '\U{200A}' || c == '\U{2028}' || c == '\U{2029}' || c == '\U{202F}'
    || c == '\U{205F}' || c == '\U{3000}'
  }

  lemma BlankIsSpace()
    ensures IsSpace(' ')
  {
  }

  function LStrip(s: string): string
  {
    if s != "" && IsSpace(s[0]) then LStrip(s[1..]) else s
  }

  function RStrip(s: string): string
  {
    if s != "" && IsSpace(s[|s| - 1]) then RStrip(s[..|s| - 1]) else s
  }

  function Strip(s: string): string
  {
    RStrip(LStrip(s))
  }

  /** Nothing to strip at either end. */
  predicate Trim(s: string)
  {
    s == "" || (!IsSpace(s[0]) && !IsSpace(s[|s| - 1]))
  }

  // ---------- searching ----------

  /** What follows the first occurrence of `pat`, if there is one. */
  function AfterFirst(s: string, pat: string): Option<string>
  {
    if pat <= s then Some(s[|pat|..])
    else if s == "" then None
    else AfterFirst(s[1..], pat)
  }

  /** What comes before the first occurrence of `pat`, or all of `s`. */
  function BeforeFirst(s: string, pat: string): string
  {
    if pat <= s || s == "" then "" else [s[0]] + BeforeFirst(s[1..], pat)
  }

  predicate Contains(s: string, pat: string)
  {
    AfterFirst(s, pat).Some?
  }

  /** A pattern whose first character does not come back in it cannot straddle the end of `a`. */
  lemma {:induction false} FirstOccurrence(a: string, pat: string, b: string)
    requires pat != "" && pat[0] !in pat[1..] && !Contains(a, pat)
    ensures AfterFirst(a + pat + b, pat) == Some(b) && BeforeFirst(a + pat + b, pat) == a
  {
    var s := a + pat + b;
    if a == "" {
      assert s == pat + b;
    } else {
      assert s[1..] == a[1..] + pat + b;
      assert !(pat <= a) && s[..|a|] == a;
      if |pat| > |a| {
        assert s[|a|] == pat[0] && pat[|a|] == pat[1..][|a| - 1];
      } else {
        assert pat <= s ==> pat <= a;
      }
      FirstOccurrence(a[1..], pat, b);
    }
  }

  lemma {:induction false} NotContained(s: string, pat: string)
    requires pat != "" && pat[0] !in s
    ensures !Contains(s, pat)
  {
    if s != "" {
      assert s[0] in s;
      NotContained(s[1..], pat);
    }
  }

  // ---------- lines ----------

  predicate IsLineBreak(c: char)
  {
    '\n' <= c <= '\r' || '\U{1C}' <= c <= '\U{1E}' || c == '\U{85}' || c == '\U{2028}' || c == '\U{2029}'
  }

  predicate OneLine(s: string)
  {
    forall c :: c in s ==> !IsLineBreak(c)
  }

  /** The length of the leading stretch without a line break. */
  function LineLength(s: string): (n: nat)
    ensures n <= |s|
  {
    if s == "" || IsLineBreak(s[0]) then 0 else 1 + LineLength(s[1..])
  }

  /** `str.splitlines`: CR LF is one break. */
  function SplitLines(s: string): seq<string>
    decreases |s|
  {
    if s == "" then []
    else
      var n := LineLength(s);
      if n == |s| then [s]
      else [s[..n]] + SplitLines(s[if "\r\n" <= s[n..] then n + 2 else n + 1..])
  }

  /** Every line followed by the same line break. */
  function Render(lines: seq<string>, brk: string): string
  {
    if lines == [] then "" else lines[0] + brk + Render(lines[1..], brk)
  }

  /** A single character that breaks lines, or CR LF. */
  predicate IsBreak(brk: string)
  {
    brk == "\r\n" || (|brk| == 1 && IsLineBreak(brk[0]))
  }

  lemma {:induction false} LineLengthAt(l: string, rest: string)
    requires OneLine(l) && (rest != "" ==> IsLineBreak(rest[0]))
    ensures LineLength(l + rest) == |l|
  {
    if l == "" {
      assert l + rest == rest;
    } else {
      assert (l + rest)[1..] == l[1..] + rest;
      LineLengthAt(l[1..], rest);
    }
  }

  /** A line, its break and what follows; a lone CR must not be followed by LF. */
  lemma SplitFirstLine(l: string, brk: string, rest: string)
    requires OneLine(l) && IsBreak(brk) && (brk == "\r" && rest != "" ==> rest[0] != '\n')
    ensures SplitLines(l + brk + rest) == [l] + SplitLines(rest)
  {
    var s := l + brk + rest;
    assert s == l + (brk + rest);
    LineLengthAt(l, brk + rest);
    assert s[..|l|] == l && s[|l|..] == brk + rest;
    assert s[|l| + |brk|..] == rest;
  }

  lemma SplitOneLine(l: string)
    requires OneLine(l)
    ensures SplitLines(l) == if l == "" then [] else [l]
  {
    LineLengthAt(l, "");
    assert l + "" == l;
  }

  /** What was joined starts with a line or with a break. */
  lemma RenderStarts(lines: seq<string>, brk: string, last: string)
    requires IsBreak(brk) && OneLine(last) && forall l :: l in lines ==> OneLine(l)
    ensures var text := Render(lines, brk) + last; text != "" ==> !IsLineBreak(text[0]) || text[0] == brk[0]
  {
    var text := Render(lines, brk) + last;
    if lines == [] {
      assert text == last && (last != "" ==> last[0] in last);
    } else if lines[0] == "" {
      assert text[0] == brk[0];
    } else {
      assert text[0] == lines[0][0] && lines[0][0] in lines[0] && lines[0] in lines;
    }
  }

  /** Splitting what was joined gives the lines back, whatever breaks them and whether or not the last has a break. */
  lemma {:induction false} SplitLinesOfRender(lines: seq<string>, brk: string, last: string)
    requires IsBreak(brk) && OneLine(last) && forall l :: l in lines ==> OneLine(l)
    ensures SplitLines(Render(lines, brk) + last) == lines + (if last == "" then [] else [last])
  {
    hide SplitLines;
    if lines == [] {
      assert Render(lines, brk) + last == last;
      SplitOneLine(last);
    } else {
      var l, rest := lines[0], Render(lines[1..], brk) + last;
      assert Render(lines, brk) + last == l + brk + rest;
      RenderStarts(lines[1..], brk, last);
      SplitFirstLine(l, brk, rest);
      SplitLinesOfRender(lines[1..], brk, last);
    }
  }

  // ---------- words ----------

  /** The length of the leading word. */
  function WordLength(s: string): (n: nat)
    ensures n <= |s|
    ensures forall i :: 0 <= i < n ==> !IsSpace(s[i])
    ensures n < |s| ==> IsSpace(s[n])
  {
    if s == "" || IsSpace(s[0]) then 0 else 1 + WordLength(s[1..])
  }

  /** The maximal stretches without whitespace, in order. */
  function Words(s: string): seq<string>
    decreases |s|
  {
    if s == "" then []
    else if IsSpace(s[0]) then Words(s[1..])
    else [s[..WordLength(s)]] + Words(s[WordLength(s)..])
  }

  /** The words with single spaces between them. */
  function Join(ws: seq<string>): string
  {
    if ws == [] then "" else if |ws| == 1 then ws[0] else ws[0] + " " + Join(ws[1..])
  }

  predicate IsWord(w: string)
  {
    w != "" && forall i :: 0 <= i < |w| ==> !IsSpace(w[i])
  }

  lemma {:induction false} WordsAreWords(s: string)
    ensures forall w :: w in Words(s) ==> IsWord(w)
    decreases |s|
  {
    hide IsSpace;
    if s == "" {
    } else if IsSpace(s[0]) {
      WordsAreWords(s[1..]);
    } else {
      WordsAreWords(s[WordLength(s)..]);
    }
  }

  lemma {:induction false} WordLengthAt(w: string, rest: string)
    requires forall i :: 0 <= i < |w| ==> !IsSpace(w[i])
    requires rest != "" ==> IsSpace(rest[0])
    ensures WordLength(w + rest) == |w|
  {
    hide IsSpace;
    if w != "" {
      assert (w + rest)[1..] == w[1..] + rest;
      WordLengthAt(w[1..], rest);
    } else {
      assert w + rest == rest;
    }
  }

  /** Joining words and splitting again gives the words back. */
  lemma {:induction false} WordsOfJoin(ws: seq<string>)
    requires forall w :: w in ws ==> IsWord(w)
    ensures Words(Join(ws)) == ws
  {
    hide IsSpace;
    BlankIsSpace();
    if ws != [] {
      assert IsWord(ws[0]);
      var s := Join(ws);
      var rest := if |ws| == 1 then "" else " " + Join(ws[1..]);
      assert s == ws[0] + rest;
      WordLengthAt(ws[0], rest);
      assert !IsSpace(s[0]) && s[..|ws[0]|] == ws[0] && s[|ws[0]|..] == rest;
      WordsOfJoin(ws[1..]);
      if |ws| > 1 {
        assert Words(rest) == Words(rest[1..]) && rest[1..] == Join(ws[1..]);
      }
    }
  }

  lemma {:induction false} JoinIsTrim(ws: seq<string>)
    requires ws != [] && forall w :: w in ws ==> IsWord(w)
    ensures Join(ws) != "" && Trim(Join(ws))
  {
    hide IsSpace;
    assert IsWord(ws[0]);
    if |ws| > 1 {
      JoinIsTrim(ws[1..]);
    }
  }

  /** Stripping drops the padding around a trimmed text and nothing else. */
  lemma StripPadded(pre: string, s: string, post: string)
    requires s != "" && Trim(s)
    requires forall c :: c in pre + post ==> IsSpace(c)
    ensures Strip(pre + s + post) == s
  {
    hide IsSpace;
    LStripPadded(pre, s + post);
    RStripPadded(s, post);
    assert pre + s + post == pre + (s + post);
  }

  lemma {:induction false} LStripPadded(pre: string, s: string)
    requires s != "" && !IsSpace(s[0])
    requires forall c :: c in pre ==> IsSpace(c)
    ensures LStrip(pre + s) == s
  {
    hide IsSpace;
    if pre == "" {
      assert pre + s == s;
    } else {
      assert (pre + s)[0] == pre[0] && (pre + s)[1..] == pre[1..] + s;
      LStripPadded(pre[1..], s);
    }
  }

  lemma {:induction false} RStripPadded(s: string, post: string)
    requires s != "" && !IsSpace(s[|s| - 1])
    requires forall c :: c in post ==> IsSpace(c)
    ensures RStrip(s + post) == s
  {
    hide IsSpace;
    if post == "" {
      assert s + post == s;
    } else {
      assert (s + post)[..|s + post| - 1] == s + post[..|post| - 1];
      RStripPadded(s, post[..|post| - 1]);
    }
  }

  /** A trimmed text is what stripping it leaves. */
  lemma TrimIsStripped(s: string)
    requires Trim(s)
    ensures Strip(s) == s
  {
    hide IsSpace;
    if s != "" {
      StripPadded("", s, "");
      assert "" + s + "" == s;
    }
  }

  lemma {:induction false} LStripStarts(s: string)
    ensures LStrip(s) != "" ==> !IsSpace(LStrip(s)[0])
  {
    hide IsSpace;
    if s != "" && IsSpace(s[0]) {
      LStripStarts(s[1..]);
    }
  }

  lemma {:induction false} RStripEnds(s: string)
    requires s != "" ==> !IsSpace(s[0])
    ensures Trim(RStrip(s))
  {
    hide IsSpace;
    if s != "" && IsSpace(s[|s| - 1]) {
      RStripEnds(s[..|s| - 1]);
    }
  }

  lemma StripTrims(s: string)
    ensures Trim(Strip(s))
  {
    LStripStarts(s);
    RStripEnds(LStrip(s));
  }
}
