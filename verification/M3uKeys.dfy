/** Which entries of playlists share the text that is hashed into their identity keys. */
module M3uKeys {
  import opened Prelude
  import opened Text
  import opened IdentityKey
  import opened M3uSource

  /** The scanner reads the channel id from this header line and accepts it. */
  predicate GivesChannel(header: string, channelId: string)
  {
    var line := Strip(header);
    && OneLine(header) && IsHeader(header)
    && channelId == ChannelIdOf(TvgIdOf(line), NameOf(line)) && ValidChannel(channelId, NameOf(line))
  }

  /** Some header line gives an entry with this channel id. */
  ghost predicate IsEntryChannel(channelId: string)
  {
    exists header :: GivesChannel(header, channelId)
  }

  /** Some line is read as this URL. */
  ghost predicate IsEntryUrl(url: string)
  {
    exists line :: OneLine(line) && Strip(line) == url
  }

  // ---------- what channel ids and URLs entries can have ----------

  lemma StripChars(s: string, c: char)
    requires c in Strip(s)
    ensures c in s
  {
    LStripChars(s, c);
    RStripChars(LStrip(s), c);
  }

  lemma {:induction false} LStripChars(s: string, c: char)
    ensures c in LStrip(s) ==> c in s
  {
    if s != "" {
      LStripChars(s[1..], c);
    }
  }

  lemma {:induction false} RStripChars(s: string, c: char)
    ensures c in RStrip(s) ==> c in s
  {
    if s != "" {
      RStripChars(s[..|s| - 1], c);
    }
  }

  lemma {:induction false} AfterFirstChars(s: string, pat: string, c: char)
    requires AfterFirst(s, pat).Some? && c in AfterFirst(s, pat).value
    ensures c in s
  {
    if !(pat <= s) {
      AfterFirstChars(s[1..], pat, c);
    }
  }

  lemma {:induction false} BeforeFirstChars(s: string, q: char, c: char)
    requires c in BeforeFirst(s, [q])
    ensures c in s && c != q
  {
    if s != "" && s[0] != q && c != s[0] {
      BeforeFirstChars(s[1..], q, c);
    }
  }

  lemma NameOfChars(line: string)
    requires OneLine(line)
    ensures OneLine(NameOf(line)) && Trim(NameOf(line))
  {
    hide Strip, AfterFirst;
    if AfterFirst(line, ",").Some? {
      var rest := AfterFirst(line, ",").value;
      StripTrims(rest);
      forall c | c in Strip(rest)
        ensures !IsLineBreak(c)
      {
        StripChars(rest, c);
        AfterFirstChars(line, ",", c);
      }
    }
  }

  lemma TvgIdOfChars(line: string)
    requires OneLine(line)
    ensures OneLine(TvgIdOf(line)) && '"' !in TvgIdOf(line)
  {
    hide AfterFirst, BeforeFirst;
    if AfterFirst(line, TVG_ID).Some? {
      var rest := AfterFirst(line, TVG_ID).value;
      forall c | c in BeforeFirst(rest, "\"")
        ensures !IsLineBreak(c) && c != '"'
      {
        BeforeFirstChars(rest, '"', c);
        AfterFirstChars(line, TVG_ID, c);
      }
    }
  }

  lemma StripIsOneLine(s: string)
    requires OneLine(s)
    ensures OneLine(Strip(s))
  {
    forall c | c in Strip(s)
      ensures !IsLineBreak(c)
    {
      StripChars(s, c);
    }
  }

  lemma NoTvgIdIn(s: string)
    requires 't' !in s
    ensures !Contains(s, TVG_ID)
  {
    NotContained(s, TVG_ID);
  }

  /** A text without a quote can be read from a `tvg-id` attribute, here one that stands in the name. */
  lemma ChannelFromTvgId(c: string)
    requires IsChannelId(c) && OneLine(c) && '"' !in c
    ensures IsEntryChannel(c)
  {
    hide Strip, AfterFirst, BeforeFirst;
    var name, header := TVG_ID + c + "\"x", HEADER + "," + (TVG_ID + c + "\"x");
    TrimIsStripped(header);
    TrimIsStripped(name);
    NotContained(HEADER, ",");
    FirstOccurrence(HEADER, ",", name);
    NoTvgIdIn(HEADER + ",");
    TvgIdIsNoPrefixOfItself();
    assert header == HEADER + "," + TVG_ID + (c + "\"x");
    FirstOccurrence(HEADER + ",", TVG_ID, c + "\"x");
    NotContained(c, "\"");
    assert c + "\"x" == c + "\"" + "x";
    FirstOccurrence(c, "\"", "x");
    assert GivesChannel(header, c);
  }

  /** A trimmed text is read from the name, behind an empty `tvg-id`. */
  lemma ChannelFromName(c: string)
    requires IsChannelId(c) && OneLine(c) && Trim(c)
    ensures IsEntryChannel(c)
  {
    hide Strip, AfterFirst, BeforeFirst;
    var head := HEADER + TVG_ID + "\"";
    var header := head + "," + c;
    TrimIsStripped(header);
    TrimIsStripped(c);
    NotContained(head, ",");
    FirstOccurrence(head, ",", c);
    NoTvgIdIn(HEADER);
    TvgIdIsNoPrefixOfItself();
    assert header == HEADER + TVG_ID + ("\"," + c);
    FirstOccurrence(HEADER, TVG_ID, "\"," + c);
    NotContained("", "\"");
    assert "\"," + c == "" + "\"" + ("," + c);
    FirstOccurrence("", "\"", "," + c);
    assert GivesChannel(header, c);
  }

  /** The channel ids entries have: within the length limits, on one line, and without a quote unless trimmed. */
  lemma EntryChannelExactly(c: string)
    ensures IsEntryChannel(c) <==> IsChannelId(c) && OneLine(c) && ('"' !in c || Trim(c))
  {
    hide Strip, NameOf, TvgIdOf, IsHeader, OneLine, Trim;
    if IsEntryChannel(c) {
      var header :| GivesChannel(header, c);
      StripIsOneLine(header);
      NameOfChars(Strip(header));
      TvgIdOfChars(Strip(header));
    }
    if IsChannelId(c) && OneLine(c) && '"' !in c {
      ChannelFromTvgId(c);
    }
    if IsChannelId(c) && OneLine(c) && Trim(c) {
      ChannelFromName(c);
    }
  }

  lemma EntryUrlExactly(url: string)
    ensures IsEntryUrl(url) <==> OneLine(url) && Trim(url)
  {
    hide Strip, OneLine, Trim;
    if IsEntryUrl(url) {
      var line :| OneLine(line) && Strip(line) == url;
      StripIsOneLine(line);
      StripTrims(line);
    }
    if OneLine(url) && Trim(url) {
      TrimIsStripped(url);
    }
  }

  // ---------- which entries share a key text ----------

  /** No entry with another channel or URL, of this or another source, has the same key text. */
  ghost predicate SoleOwner(sourceId: string, channelId: string, url: string)
  {
    forall s, c, u ::
      IsEntryChannel(c) && IsEntryUrl(u) && M3uKeyText(s, c, u) == M3uKeyText(sourceId, channelId, url) ==>
        s == sourceId && c == channelId && u == url
  }

  /** Cutting the text at its i-th and j-th character leaves a channel id between them and a URL behind. */
  ghost predicate SplitsAt(text: string, i: int, j: int)
  {
    && 0 <= i < j < |text| && text[i] == '|' && text[j] == '|'
    && IsEntryChannel(text[i + 1..j]) && IsEntryUrl(text[j + 1..])
  }

  lemma SplitAtTwo(s: string, c: string, u: string, text: string)
    requires s + "|" + c + "|" + u == text
    ensures var i, j := |s|, |s| + 1 + |c|;
            && j < |text| && text[i] == '|' && text[j] == '|'
            && text[..i] == s && text[i + 1..j] == c && text[j + 1..] == u
  {
  }

  lemma KeyTextExactly(s: string, c: string, u: string, text: string)
    ensures M3uKeyText(s, c, u) == "m3u|" + text <==> s + "|" + c + "|" + u == text
  {
    assert M3uKeyText(s, c, u) == "m3u|" + (s + "|" + c + "|" + u);
    assert ("m3u|" + text)[4..] == text && ("m3u|" + (s + "|" + c + "|" + u))[4..] == s + "|" + c + "|" + u;
  }

  lemma RivalSplits(s: string, c: string, u: string, text: string)
    requires IsEntryChannel(c) && IsEntryUrl(u) && M3uKeyText(s, c, u) == "m3u|" + text
    ensures SplitsAt(text, |s|, |s| + 1 + |c|)
    ensures s == text[..|s|] && c == text[|s| + 1..|s| + 1 + |c|] && u == text[|s| + 1 + |c| + 1..]
  {
    hide IsEntryChannel, IsEntryUrl, M3uKeyText;
    KeyTextExactly(s, c, u, text);
    SplitAtTwo(s, c, u, text);
  }

  lemma SplitIsRival(text: string, i: int, j: int)
    requires SplitsAt(text, i, j)
    ensures M3uKeyText(text[..i], text[i + 1..j], text[j + 1..]) == "m3u|" + text
  {
    hide IsEntryChannel, IsEntryUrl, M3uKeyText;
    assert text == text[..i] + "|" + text[i + 1..j] + "|" + text[j + 1..];
    KeyTextExactly(text[..i], text[i + 1..j], text[j + 1..], text);
  }

  /**
    An entry is the only one with its key text exactly if no other two bars of source, channel and URL cut them
    into a source, a channel id and a URL that some entry could have. Source ids may be any text.
  */
  lemma SoleOwnerExactly(sourceId: string, channelId: string, url: string)
    requires IsEntryChannel(channelId) && IsEntryUrl(url)
    ensures SoleOwner(sourceId, channelId, url) <==>
            forall i, j :: SplitsAt(sourceId + "|" + channelId + "|" + url, i, j) ==>
              i == |sourceId| && j == |sourceId| + 1 + |channelId|
  {
    hide IsEntryChannel, IsEntryUrl, M3uKeyText;
    var text := sourceId + "|" + channelId + "|" + url;
    KeyTextExactly(sourceId, channelId, url, text);
    RivalSplits(sourceId, channelId, url, text);
    if SoleOwner(sourceId, channelId, url) {
      forall i, j | SplitsAt(text, i, j)
        ensures i == |sourceId| && j == |sourceId| + 1 + |channelId|
      {
        SplitIsRival(text, i, j);
      }
    }
    if forall i, j :: SplitsAt(text, i, j) ==> i == |sourceId| && j == |sourceId| + 1 + |channelId| {
      forall s, c, u | IsEntryChannel(c) && IsEntryUrl(u) && M3uKeyText(s, c, u) == M3uKeyText(sourceId, channelId, url)
        ensures s == sourceId && c == channelId && u == url
      {
        RivalSplits(s, c, u, text);
      }
    }
  }

  /** An entry's header without attributes, and its URL. */
  function Plain(name: string, url: string): Item
  {
    Item("", None, "", name, url)
  }

  lemma PlainIsWellFormed(name: string, url: string)
    requires name != "" && |name| <= 64 && 't' !in name && Trim(name) && Trim(url)
    ensures WellFormed(Plain(name, url)) && HeaderLine(Plain(name, url)) == "#EXTINF," + name
  {
    hide AfterFirst;
    NoTvgIdIn(HEADER);
    assert HEADER + "" == HEADER;
    assert HeaderLine(Plain(name, url)) == "#EXTINF," + name;
    NoTvgIdIn(HeaderLine(Plain(name, url)));
  }

  /** Two entries of one playlist, read in full, of which merging keeps only one. */
  lemma CollidingEntries(o: Origin)
    ensures var es := Scan(o, ["#EXTINF,a|b", "c", "#EXTINF,a", "b|c"]);
            && es.Success? && |es.value| == 2 && es.value[0].keyText == es.value[1].keyText
            && es.value[0].channelId == "a|b" && es.value[0].url == "c"
            && es.value[1].channelId == "a" && es.value[1].url == "b|c"
  {
    hide Scan, WellFormed, HeaderLine, M3uKeyText;
    var blocks := [Block([], Plain("a|b", "c")), Block([], Plain("a", "b|c"))];
    PlainIsWellFormed("a|b", "c");
    PlainIsWellFormed("a", "b|c");
    PlaylistReadsBack(o, blocks, []);
    assert blocks[1..] == [blocks[1]] && blocks[1..][1..] == [];
    assert "#EXTINF," + "a|b" == "#EXTINF,a|b" && "#EXTINF," + "a" == "#EXTINF,a";
    assert Lines(blocks) + [] == ["#EXTINF,a|b", "c", "#EXTINF,a", "b|c"];
    assert o.sourceId + "|" + "a|b" + "|" + "c" == o.sourceId + "|a|b|c" == o.sourceId + "|" + "a" + "|" + "b|c";
    KeyTextExactly(o.sourceId, "a|b", "c", o.sourceId + "|a|b|c");
    KeyTextExactly(o.sourceId, "a", "b|c", o.sourceId + "|a|b|c");
  }
}
