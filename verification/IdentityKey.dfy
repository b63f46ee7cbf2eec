/** The texts that are hashed into identity keys. SHA-1 itself is an uninterpreted step applied to them. */
module IdentityKey {
  import opened Text

  /** Title, channel id and start joined by bars; `title` is already stripped and lower-cased. */
  function ProgramKeyText(title: string, channelId: string, start: string): string
  {
    title + "|" + channelId + "|" + start
  }

  /** Source id, channel id and URL joined by bars behind a fixed prefix. */
  function M3uKeyText(sourceId: string, channelId: string, url: string): string
  {
    "m3u|" + sourceId + "|" + channelId + "|" + url
  }

  lemma SplitAtFirstBar(a: string, x: string, b: string, y: string)
    requires '|' !in a && '|' !in b && a + "|" + x == b + "|" + y
    ensures a == b && x == y
  {
    var s, t := a + "|" + x, b + "|" + y;
    assert forall i :: 0 <= i < |a| ==> s[i] == a[i];
    assert forall i :: 0 <= i < |b| ==> t[i] == b[i];
    assert s[|a|] == '|' && t[|b|] == '|';
    assert |a| == |b|;
    assert s[..|a|] == a && t[..|b|] == b && s[|a| + 1..] == x && t[|b| + 1..] == y;
  }

  lemma SplitAtLastBar(a: string, x: string, b: string, y: string)
    requires '|' !in x && '|' !in y && a + "|" + x == b + "|" + y
    ensures a == b && x == y
  {
    var s, t := a + "|" + x, b + "|" + y;
    assert forall i :: |a| < i < |s| ==> s[i] == x[i - |a| - 1];
    assert forall i :: |b| < i < |t| ==> t[i] == y[i - |b| - 1];
    assert s[|a|] == '|' && t[|b|] == '|';
    assert |a| == |b|;
    assert s[..|a|] == a && t[..|b|] == b && s[|a| + 1..] == x && t[|b| + 1..] == y;
  }

  /** Among channels without a bar the text determines title, channel and start; the title may hold any bars. */
  lemma ProgramKeyDetermines(t1: string, c1: string, s1: string, t2: string, c2: string, s2: string)
    requires '|' !in c1 && '|' !in c2 && '|' !in s1 && '|' !in s2
    ensures ProgramKeyText(t1, c1, s1) == ProgramKeyText(t2, c2, s2) <==> t1 == t2 && c1 == c2 && s1 == s2
  {
    if ProgramKeyText(t1, c1, s1) == ProgramKeyText(t2, c2, s2) {
      SplitAtLastBar(t1 + "|" + c1, s1, t2 + "|" + c2, s2);
      SplitAtLastBar(t1, c1, t2, c2);
    }
  }

  /** Among sources and channels without a bar the text determines source, channel and URL. */
  lemma M3uKeyDetermines(s1: string, c1: string, u1: string, s2: string, c2: string, u2: string)
    requires '|' !in s1 && '|' !in s2 && '|' !in c1 && '|' !in c2
    ensures M3uKeyText(s1, c1, u1) == M3uKeyText(s2, c2, u2) <==> s1 == s2 && c1 == c2 && u1 == u2
  {
    if M3uKeyText(s1, c1, u1) == M3uKeyText(s2, c2, u2) {
      var a, b := s1 + "|" + (c1 + "|" + u1), s2 + "|" + (c2 + "|" + u2);
      assert M3uKeyText(s1, c1, u1)[4..] == a && M3uKeyText(s2, c2, u2)[4..] == b;
      SplitAtFirstBar(s1, c1 + "|" + u1, s2, c2 + "|" + u2);
      SplitAtFirstBar(c1, u1, c2, u2);
    }
  }

  // ---------- which programs share a key text ----------

  /** The length limits of a channel's id. */
  predicate IsChannelId(c: string)
  {
    1 <= |c| <= 64
  }

  /** `t` is what some valid title becomes in a key text: stripped, not empty, at most 512 long, lower-cased. */
  ghost predicate IsKeyTitle(lower: string -> string, t: string)
  {
    exists raw :: 1 <= |Strip(raw)| <= 512 && lower(Strip(raw)) == t
  }

  /** No program with another title, channel or start has the same key text. */
  ghost predicate SoleOwner(lower: string -> string, title: string, channelId: string, start: string)
  {
    forall t, c, s ::
      IsKeyTitle(lower, t) && IsChannelId(c) && '|' !in s &&
      ProgramKeyText(t, c, s) == ProgramKeyText(title, channelId, start) ==>
        t == title && c == channelId && s == start
  }

  /** Cutting the text at its i-th character leaves a valid title before and a valid channel id after. */
  ghost predicate SplitsAt(lower: string -> string, text: string, i: int)
  {
    0 <= i < |text| && text[i] == '|' && IsKeyTitle(lower, text[..i]) && IsChannelId(text[i + 1..])
  }

  lemma SplitAt(t: string, c: string, text: string)
    requires t + "|" + c == text
    ensures |t| < |text| && text[|t|] == '|' && text[..|t|] == t && text[|t| + 1..] == c
  {
  }

  /**
    A program is the only one with its key text exactly if no other bar of title and channel splits them into
    a title and a channel id that some program could have.
  */
  lemma SoleOwnerExactly(lower: string -> string, title: string, channelId: string, start: string)
    requires IsKeyTitle(lower, title) && IsChannelId(channelId) && '|' !in start
    ensures SoleOwner(lower, title, channelId, start) <==>
            forall i :: SplitsAt(lower, title + "|" + channelId, i) ==> i == |title|
  {
    hide IsKeyTitle;
    var text := title + "|" + channelId;
    if SoleOwner(lower, title, channelId, start) {
      forall i | SplitsAt(lower, text, i)
        ensures i == |title|
      {
        assert text == text[..i] + "|" + text[i + 1..];
        assert ProgramKeyText(text[..i], text[i + 1..], start) == ProgramKeyText(title, channelId, start);
      }
    }
    if forall i :: SplitsAt(lower, text, i) ==> i == |title| {
      forall t, c, s | IsKeyTitle(lower, t) && IsChannelId(c) && '|' !in s &&
                       ProgramKeyText(t, c, s) == ProgramKeyText(title, channelId, start)
        ensures t == title && c == channelId && s == start
      {
        SplitAtLastBar(t + "|" + c, s, text, start);
        SplitAt(t, c, text);
        SplitAt(title, channelId, text);
        assert SplitsAt(lower, text, |t|);
      }
    }
  }

  /** Lower-casing that keeps lengths and trimmed ends and does nothing the second time. */
  ghost predicate LowersSimply(lower: string -> string)
  {
    forall s :: Trim(s) ==> Trim(lower(s)) && |lower(s)| == |s| && lower(lower(s)) == lower(s)
  }

  /** Then a caller can see what a valid title is: trimmed, lower-case already, and of the right length. */
  lemma KeyTitleExactly(lower: string -> string, t: string)
    requires LowersSimply(lower)
    ensures IsKeyTitle(lower, t) <==> 1 <= |t| <= 512 && Trim(t) && lower(t) == t
  {
    hide Strip, Trim;
    if IsKeyTitle(lower, t) {
      var raw :| 1 <= |Strip(raw)| <= 512 && lower(Strip(raw)) == t;
      StripTrims(raw);
    }
    if 1 <= |t| <= 512 && Trim(t) && lower(t) == t {
      TrimIsStripped(t);
      assert lower(Strip(t)) == t;
    }
  }

  function LowerChar(c: char): char
  {
    if 'A' <= c <= 'Z' then (c as int + 32) as char else c
  }

  /** `str.lower` on ASCII text. */
  function LowerAscii(s: string): string
  {
    seq(|s|, i requires 0 <= i < |s| => LowerChar(s[i]))
  }

  lemma LowerAsciiIsSimple()
    ensures LowersSimply(LowerAscii)
  {
    forall s: string | Trim(s)
      ensures Trim(LowerAscii(s)) && |LowerAscii(s)| == |s| && LowerAscii(LowerAscii(s)) == LowerAscii(s)
    {
    }
  }

  /** Two real programs that share a key text: "a|b" on channel "c", and "a" on channel "b|c". */
  lemma CollidingPair(start: string)
    requires '|' !in start
    ensures IsKeyTitle(LowerAscii, "a|b") && IsKeyTitle(LowerAscii, "a")
    ensures ProgramKeyText("a|b", "c", start) == ProgramKeyText("a", "b|c", start)
    ensures !SoleOwner(LowerAscii, "a|b", "c", start) && !SoleOwner(LowerAscii, "a", "b|c", start)
  {
    LowerAsciiIsSimple();
    KeyTitleExactly(LowerAscii, "a|b");
    KeyTitleExactly(LowerAscii, "a");
    assert LowerAscii("a|b") == "a|b" && LowerAscii("a") == "a";
    assert ProgramKeyText("a|b", "c", start) == "a|b|c|" + start == ProgramKeyText("a", "b|c", start);
  }

  /** A bar alone is no harm: nothing shares the text of "news" on channel "BBC|1", as no key title has capitals. */
  lemma BarredYetSole(start: string)
    requires '|' !in start
    ensures SoleOwner(LowerAscii, "news", "BBC|1", start)
  {
    LowerAsciiIsSimple();
    var text := "news" + "|" + "BBC|1";
    assert text == "news|BBC|1";
    KeyTitleExactly(LowerAscii, "news");
    assert LowerAscii("news") == "news";
    CapitalIsNoKeyTitle(text[..8], 5);
    assert forall i :: 0 <= i < |text| && text[i] == '|' ==> i == 4 || i == 8;
    SoleOwnerExactly(LowerAscii, "news", "BBC|1", start);
  }

  lemma CapitalIsNoKeyTitle(t: string, i: nat)
    requires i < |t| && 'A' <= t[i] <= 'Z'
    ensures !IsKeyTitle(LowerAscii, t)
  {
    LowerAsciiIsSimple();
    KeyTitleExactly(LowerAscii, t);
    assert LowerAscii(t)[i] == LowerChar(t[i]);
  }
}
