/**
  The M3U line scanner: every header line takes the line after it as its URL, whatever that line is.
*/
module M3uSource {
  import opened Prelude
  import opened Text
  import opened IdentityKey

  const HEADER := "#EXTINF"
  const TVG_ID := "tvg-id=\""

  datatype Error = ParseError | ValidationError

  /** The source a file was fetched for, and when it is parsed, in microseconds. */
  datatype Origin = Origin(sourceId: string, now: int)

  /** A parsed `TVProgram`; its random id is left out, its key stands as the text that is hashed. */
  datatype Entry = Entry(
    title: string,
    url: string,
    channelId: string,
    channelName: string,
    start: int,
    end: int,
    sourceIds: seq<string>,
    keyText: string,
    createdAt: int)

  const SECOND := 1000000
  const DAY := 86400 * SECOND

  /** The placeholder slot is the day of parsing, from midnight to the beginning of its last second. */
  function DayStart(now: int): int
  {
    now - now % DAY
  }

  function NewEntry(o: Origin, name: string, channelId: string, url: string): Entry
  {
    Entry(name + " (m3u entry)", url, channelId, name, DayStart(o.now), DayStart(o.now) + DAY - SECOND,
          [o.sourceId], M3uKeyText(o.sourceId, channelId, url), o.now)
  }

  predicate IsHeader(line: string)
  {
    HEADER <= Strip(line)
  }

  /** The name and the `tvg-id` of a stripped header line. */
  function NameOf(line: string): string
  {
    match AfterFirst(line, ",")
    case Some(rest) => Strip(rest)
    case None => "unknown"
  }

  function TvgIdOf(line: string): string
  {
    match AfterFirst(line, TVG_ID)
    case Some(rest) => BeforeFirst(rest, "\"")
    case None => ""
  }

  function ChannelIdOf(tvg: string, name: string): string
  {
    if tvg != "" then tvg else name
  }

  /** The length limits the `Channel` model enforces. */
  predicate ValidChannel(id: string, name: string)
  {
    IsChannelId(id) && 1 <= |name| <= 255
  }

  function MakeEntry(o: Origin, name: string, tvg: string, url: string): Result<Entry, Error>
  {
    var id := ChannelIdOf(tvg, name);
    if ValidChannel(id, name)
    then Success(NewEntry(o, name, id, url))
    else Failure(ValidationError)
  }

  /** What is scanned from `lines` on. */
  function Scan(o: Origin, lines: seq<string>): Result<seq<Entry>, Error>
    decreases |lines|
  {
    if lines == [] then Success([])
    else if !IsHeader(lines[0]) then Scan(o, lines[1..])
    else
      var line := Strip(lines[0]);
      var url := if |lines| > 1 then Strip(lines[1]) else "";
      match MakeEntry(o, NameOf(line), TvgIdOf(line), url)
      case Failure(e) => Failure(e)
      case Success(entry) => Prepend([entry], Scan(o, lines[if |lines| > 1 then 2 else 1..]))
  }

  function Prepend(es: seq<Entry>, r: Result<seq<Entry>, Error>): Result<seq<Entry>, Error>
  {
    match r
    case Success(rest) => Success(es + rest)
    case Failure(e) => Failure(e)
  }

  method Parse(o: Origin, text: string) returns (r: Result<seq<Entry>, Error>)
    ensures r == if !Contains(text, "#EXTM3U") then Failure(ParseError) else Scan(o, SplitLines(text))
  {
    if !Contains(text, "#EXTM3U") {
      return Failure(ParseError);
    }
    var programs := [];
    var lines := SplitLines(text);
    var i := 0;
    assert lines[0..] == lines;
    PrependNothing(Scan(o, lines));
    while i < |lines|
      invariant 0 <= i <= |lines|
      invariant Scan(o, lines) == Prepend(programs, Scan(o, lines[i..]))
    {
      ghost var rest := lines[i..];
      var line := Strip(lines[i]);
      if HEADER <= line {
        var name := NameOf(line);
        var tvg := TvgIdOf(line);
        var url := "";
        if i + 1 < |lines| {
          url := Strip(lines[i + 1]);
          assert rest[1] == lines[i + 1] && rest[2..] == lines[i + 2..];
          i := i + 2;
        } else {
          assert rest[1..] == lines[i + 1..];
          i := i + 1;
        }
        var entry := MakeEntry(o, name, tvg, url);
        if entry.Failure? {
          return Failure(entry.error);
        }
        PrependTwice(programs, [entry.value], Scan(o, lines[i..]));
        programs := programs + [entry.value];
      } else {
        assert rest[1..] == lines[i + 1..];
        i := i + 1;
      }
    }
    assert programs + [] == programs;
    r := Success(programs);
  }

  lemma PrependNothing(r: Result<seq<Entry>, Error>)
    ensures Prepend([], r) == r
  {
    if r.Success? {
      assert [] + r.value == r.value;
    }
  }

  lemma PrependTwice(a: seq<Entry>, b: seq<Entry>, r: Result<seq<Entry>, Error>)
    ensures Prepend(a, Prepend(b, r)) == Prepend(a + b, r)
  {
    if r.Success? {
      assert a + (b + r.value) == a + b + r.value;
    }
  }

  // ---------- which lines become programs ----------

  /** How many header lines stand directly before line `i`. */
  function HeadersBefore(lines: seq<string>, i: nat): nat
    requires i <= |lines|
  {
    if i == 0 || !IsHeader(lines[i - 1]) then 0 else 1 + HeadersBefore(lines, i - 1)
  }

  /** A header is read as one, and not swallowed as a URL, if an even number of headers stand directly before it. */
  predicate IsRead(lines: seq<string>, i: nat)
    requires i < |lines|
  {
    IsHeader(lines[i]) && HeadersBefore(lines, i) % 2 == 0
  }

  function EntryAt(o: Origin, lines: seq<string>, i: nat): Result<Entry, Error>
    requires i < |lines|
  {
    var line := Strip(lines[i]);
    MakeEntry(o, NameOf(line), TvgIdOf(line), if i + 1 < |lines| then Strip(lines[i + 1]) else "")
  }

  /** The reference reading: every line decides on its own whether it yields a program. */
  function ReadEach(o: Origin, lines: seq<string>, i: nat): Result<seq<Entry>, Error>
    requires i <= |lines|
    decreases |lines| - i
  {
    if i == |lines| then Success([])
    else if !IsRead(lines, i) then ReadEach(o, lines, i + 1)
    else
      match EntryAt(o, lines, i)
      case Failure(e) => Failure(e)
      case Success(entry) => Prepend([entry], ReadEach(o, lines, i + 1))
  }

  lemma {:induction false} ScanFromIsReadEach(o: Origin, lines: seq<string>, i: nat)
    requires i <= |lines| && HeadersBefore(lines, i) % 2 == 0
    ensures Scan(o, lines[i..]) == ReadEach(o, lines, i)
    decreases |lines| - i
  {
    hide MakeEntry, NameOf, TvgIdOf, IsHeader;
    if i < |lines| {
      var rest := lines[i..];
      assert rest[0] == lines[i] && rest[1..] == lines[i + 1..];
      if IsHeader(lines[i]) && i + 1 < |lines| {
        assert rest[1] == lines[i + 1] && rest[2..] == lines[i + 2..];
        assert HeadersBefore(lines, i + 1) == HeadersBefore(lines, i) + 1 && !IsRead(lines, i + 1);
        assert ReadEach(o, lines, i + 1) == ReadEach(o, lines, i + 2);
        ScanFromIsReadEach(o, lines, i + 2);
      } else if !IsHeader(lines[i]) {
        ScanFromIsReadEach(o, lines, i + 1);
      }
    }
  }

  /** The scanner, which jumps over lines, reads exactly what the line-by-line reference reads. */
  lemma ScanIsReadEach(o: Origin, lines: seq<string>)
    ensures Scan(o, lines) == ReadEach(o, lines, 0)
  {
    assert lines[0..] == lines;
    ScanFromIsReadEach(o, lines, 0);
  }

  lemma {:induction false} ReadEachSucceedsExactly(o: Origin, lines: seq<string>, i: nat)
    requires i <= |lines|
    ensures ReadEach(o, lines, i).Success? <==>
            forall j :: i <= j < |lines| && IsRead(lines, j) ==> EntryAt(o, lines, j).Success?
    decreases |lines| - i
  {
    hide EntryAt, IsRead;
    if i < |lines| {
      ReadEachSucceedsExactly(o, lines, i + 1);
    }
  }

  /** One bad header that is read, say without a name, fails the whole file; one swallowed as a URL does not. */
  lemma ScanSucceedsExactly(o: Origin, lines: seq<string>)
    ensures Scan(o, lines).Success? <==>
            forall j :: 0 <= j < |lines| && IsRead(lines, j) ==> GivesProgram(lines[j])
  {
    hide EntryAt, GivesProgram, IsRead;
    ScanIsReadEach(o, lines);
    ReadEachSucceedsExactly(o, lines, 0);
    forall j | 0 <= j < |lines|
      ensures EntryAt(o, lines, j).Success? <==> GivesProgram(lines[j])
    {
      EntryExactly(o, lines, j);
    }
  }

  /** A header with a name of 1 to 255 characters and an id, from the attribute or else the name, of 1 to 64. */
  predicate GivesProgram(header: string)
  {
    var line := Strip(header);
    var name, tvg := NameOf(line), TvgIdOf(line);
    1 <= |name| <= 255 && 1 <= |if tvg != "" then tvg else name| <= 64
  }

  lemma EntryExactly(o: Origin, lines: seq<string>, j: nat)
    requires j < |lines|
    ensures EntryAt(o, lines, j).Success? <==> GivesProgram(lines[j])
  {
    hide Strip, NameOf, TvgIdOf;
  }

  /** Every line without the whitespace around it. */
  function Stripped(lines: seq<string>): seq<string>
  {
    seq(|lines|, i requires 0 <= i < |lines| => Strip(lines[i]))
  }

  lemma StripTwice(s: string)
    ensures Strip(Strip(s)) == Strip(s)
  {
    StripTrims(s);
    TrimIsStripped(Strip(s));
  }

  /** Whitespace around lines, headers and URLs alike, makes no difference. */
  lemma {:induction false} PaddingDoesNotMatter(o: Origin, lines: seq<string>)
    ensures Scan(o, Stripped(lines)) == Scan(o, lines)
    decreases |lines|
  {
    hide Strip, NameOf, TvgIdOf, MakeEntry;
    if lines != [] {
      StripTwice(lines[0]);
      var step := if IsHeader(lines[0]) && |lines| > 1 then 2 else 1;
      if |lines| > 1 {
        StripTwice(lines[1]);
      }
      assert Stripped(lines)[step..] == Stripped(lines[step..]);
      PaddingDoesNotMatter(o, lines[step..]);
    }
  }

  // ---------- how many programs come out ----------

  function Headers(lines: seq<string>): seq<bool>
  {
    seq(|lines|, i requires 0 <= i < |lines| => IsHeader(lines[i]))
  }

  function LeadingRun(hs: seq<bool>): (r: nat)
    ensures r <= |hs|
  {
    if hs == [] || !hs[0] then 0 else 1 + LeadingRun(hs[1..])
  }

  /** One program for every two headers of each maximal run of header lines, rounded up. */
  function CountByRuns(hs: seq<bool>): nat
    decreases |hs|
  {
    if hs == [] then 0
    else if !hs[0] then CountByRuns(hs[1..])
    else (LeadingRun(hs) + 1) / 2 + CountByRuns(hs[LeadingRun(hs)..])
  }

  /** Consuming a header and the line after it is consuming two lines of its run, or its end. */
  lemma HeaderTakesTwo(hs: seq<bool>)
    requires hs != [] && hs[0]
    ensures CountByRuns(hs) == 1 + CountByRuns(hs[if |hs| > 1 then 2 else 1..])
  {
    var r := LeadingRun(hs);
    if r == 1 {
      if |hs| > 1 {
        assert hs[1..][1..] == hs[2..];
      }
    } else {
      assert LeadingRun(hs[1..]) == r - 1 && hs[1..][0];
      assert hs[1..][1..] == hs[2..] && LeadingRun(hs[2..]) == r - 2;
      assert hs[2..][r - 2..] == hs[r..];
    }
  }

  /** Every maximal run of r consecutive header lines yields ceil(r/2) programs, and nothing else yields any. */
  lemma {:induction false} ProgramsPerRun(o: Origin, lines: seq<string>)
    requires Scan(o, lines).Success?
    ensures |Scan(o, lines).value| == CountByRuns(Headers(lines))
    decreases |lines|
  {
    var hs := Headers(lines);
    if lines != [] {
      var step := if IsHeader(lines[0]) && |lines| > 1 then 2 else 1;
      assert Headers(lines[step..]) == hs[step..];
      ProgramsPerRun(o, lines[step..]);
      if hs[0] {
        HeaderTakesTwo(hs);
      }
    }
  }

  // ---------- fetching again ----------

  /** The entry as it would have been parsed at another time. */
  function Restamped(e: Entry, now: int): Entry
  {
    e.(start := DayStart(now), end := DayStart(now) + DAY - SECOND, createdAt := now)
  }

  function RestampAll(es: seq<Entry>, now: int): seq<Entry>
  {
    seq(|es|, i requires 0 <= i < |es| => Restamped(es[i], now))
  }

  lemma RestampCons(e: Entry, es: seq<Entry>, now: int)
    ensures RestampAll([e] + es, now) == [Restamped(e, now)] + RestampAll(es, now)
  {
  }

  lemma {:induction false} RescanRestamps(o: Origin, lines: seq<string>, later: int)
    ensures Scan(o.(now := later), lines) ==
            match Scan(o, lines)
            case Failure(e) => Failure(e)
            case Success(es) => Success(RestampAll(es, later))
    decreases |lines|
  {
    hide IsHeader, NameOf, TvgIdOf, Strip;
    assert RestampAll([], later) == [];
    if lines != [] {
      var step := if IsHeader(lines[0]) && |lines| > 1 then 2 else 1;
      RescanRestamps(o, lines[step..], later);
      var line, url := Strip(lines[0]), if |lines| > 1 then Strip(lines[1]) else "";
      var entry := MakeEntry(o, NameOf(line), TvgIdOf(line), url);
      var rest := Scan(o, lines[step..]);
      if IsHeader(lines[0]) && entry.Success? && rest.Success? {
        RestampCons(entry.value, rest.value, later);
      }
    }
  }

  /** What a program of this source must look like, given its channel and URL. */
  predicate IsEntryOf(o: Origin, e: Entry)
  {
    && e.title == e.channelName + " (m3u entry)"
    && 1 <= |e.channelId| <= 64 && 1 <= |e.channelName| <= 255
    && e.start <= o.now < e.start + 86400 * 1000000 && e.start % (86400 * 1000000) == 0
    && e.end == e.start + 86399 * 1000000
    && e.sourceIds == [o.sourceId]
    && e.keyText == "m3u|" + o.sourceId + "|" + e.channelId + "|" + e.url
    && e.createdAt == o.now
  }

  lemma NewEntryIsEntry(o: Origin, name: string, channelId: string, url: string)
    requires ValidChannel(channelId, name)
    ensures IsEntryOf(o, NewEntry(o, name, channelId, url))
    ensures var e := NewEntry(o, name, channelId, url);
            e.channelId == channelId && e.channelName == name && e.url == url
  {
  }

  /** Every program of a file follows from its channel and URL: title, the day's slot, source, key and time. */
  lemma {:induction false} ScanGivesEntries(o: Origin, lines: seq<string>)
    requires Scan(o, lines).Success?
    ensures forall e :: e in Scan(o, lines).value ==> IsEntryOf(o, e)
    decreases |lines|
  {
    hide IsHeader, NameOf, TvgIdOf, Strip, NewEntry, IsEntryOf, ValidChannel;
    if lines != [] {
      ScanGivesEntries(o, lines[if IsHeader(lines[0]) && |lines| > 1 then 2 else 1..]);
      var line, url := Strip(lines[0]), if |lines| > 1 then Strip(lines[1]) else "";
      if IsHeader(lines[0]) {
        NewEntryIsEntry(o, NameOf(line), ChannelIdOf(TvgIdOf(line), NameOf(line)), url);
      }
    }
  }

  lemma SameDayExactly(now: int, later: int)
    ensures DayStart(now) <= now < DayStart(now) + DAY
    ensures DayStart(later) == DayStart(now) <==> DayStart(now) <= later < DayStart(now) + DAY
  {
  }

  lemma DayOfEntry(o: Origin, e: Entry)
    requires IsEntryOf(o, e)
    ensures e.start == DayStart(o.now) && e.end + SECOND == e.start + DAY
  {
  }

  /**
    Parsing a file again later gives the same entries but for their time stamps: titles, channels, URLs and
    above all keys stay, so an upsert finds the rows of the crawl before. The slots stay exactly on the same
    day, and hold the moment of parsing unless that is within the day's last second.
  */
  lemma RefetchKeepsKeys(o: Origin, lines: seq<string>, later: int)
    ensures match Scan(o, lines)
            case Failure(e) => Scan(o.(now := later), lines) == Failure(e)
            case Success(es) =>
              && Scan(o.(now := later), lines) == Success(RestampAll(es, later))
              && (forall i :: 0 <= i < |es| ==> RestampAll(es, later)[i].keyText == es[i].keyText)
              && (forall i :: 0 <= i < |es| ==>
                    && es[i].start <= o.now < es[i].end + SECOND
                    && (RestampAll(es, later)[i].start == es[i].start <==> es[i].start <= later < es[i].end + SECOND))
  {
    hide Scan, DayStart, IsEntryOf;
    RescanRestamps(o, lines, later);
    SameDayExactly(o.now, later);
    if Scan(o, lines).Success? {
      ScanGivesEntries(o, lines);
      forall e | e in Scan(o, lines).value
        ensures e.start == DayStart(o.now) && e.end + SECOND == e.start + DAY
      {
        DayOfEntry(o, e);
      }
    }
  }

  // ---------- well-formed playlists ----------

  /**
    A header line and its URL: duration and attributes before the `tvg-id` attribute, its value, the
    attributes after it, and the name after the comma.
  */
  datatype Item = Item(before: string, tvgId: Option<string>, after: string, name: string, url: string)

  function TvgAttribute(it: Item): string
  {
    if it.tvgId.Some? then "tvg-id=\"" + it.tvgId.value + "\"" else ""
  }

  function HeaderLine(it: Item): string
  {
    "#EXTINF" + it.before + TvgAttribute(it) + it.after + "," + it.name
  }

  function TvgId(it: Item): string
  {
    if it.tvgId.Some? then it.tvgId.value else ""
  }

  predicate WellFormed(it: Item)
  {
    && ',' !in it.before && ',' !in it.after
    && !Contains("#EXTINF" + it.before, "tvg-id=\"")
    && (it.tvgId.Some? ==> ',' !in it.tvgId.value && '"' !in it.tvgId.value)
    && (it.tvgId.None? ==> !Contains(HeaderLine(it), "tvg-id=\""))
    && it.name != "" && Trim(it.name) && Trim(it.url)
    && ValidChannel(ChannelIdOf(TvgId(it), it.name), it.name)
  }

  lemma HeaderLineIsHeader(it: Item)
    requires WellFormed(it)
    ensures Strip(HeaderLine(it)) == HeaderLine(it) && IsHeader(HeaderLine(it))
  {
    hide AfterFirst, Strip;
    var line := HeaderLine(it);
    assert line[0] == '#' && line[|line| - 1] == it.name[|it.name| - 1] && HEADER <= line;
    TrimIsStripped(line);
  }

  lemma HeaderLineName(it: Item)
    requires WellFormed(it)
    ensures NameOf(HeaderLine(it)) == it.name
  {
    hide IsSpace, AfterFirst, BeforeFirst, Strip;
    var head := HEADER + it.before + TvgAttribute(it) + it.after;
    assert ',' !in head;
    NotContained(head, ",");
    FirstOccurrence(head, ",", it.name);
    TrimIsStripped(it.name);
  }

  lemma TvgIdIsNoPrefixOfItself()
    ensures TVG_ID != "" && TVG_ID[0] !in TVG_ID[1..]
  {
  }

  lemma Reassociate(h: string, p: string, id: string, q: string, a: string, c: string, n: string)
    ensures h + (p + id + q) + a + c + n == h + p + (id + q + (a + c + n))
  {
  }

  lemma HeaderLineTvgId(it: Item)
    requires WellFormed(it)
    ensures TvgIdOf(HeaderLine(it)) == TvgId(it)
  {
    hide IsSpace, AfterFirst, BeforeFirst, Strip;
    if it.tvgId.Some? {
      var head, id, tail := HEADER + it.before, it.tvgId.value, it.after + "," + it.name;
      TvgIdIsNoPrefixOfItself();
      FirstOccurrence(head, TVG_ID, id + "\"" + tail);
      Reassociate(head, TVG_ID, id, "\"", it.after, ",", it.name);
      NotContained(id, "\"");
      FirstOccurrence(id, "\"", tail);
    }
  }

  /** Any lines but headers, then a header line and its URL line. */
  datatype Block = Block(noise: seq<string>, item: Item)

  predicate IsNoise(lines: seq<string>)
  {
    forall l :: l in lines ==> !IsHeader(l)
  }

  function Lines(blocks: seq<Block>): seq<string>
  {
    if blocks == [] then []
    else blocks[0].noise + [HeaderLine(blocks[0].item), blocks[0].item.url] + Lines(blocks[1..])
  }

  function EntryOf(o: Origin, it: Item): Entry
  {
    var id, midnight := if TvgId(it) != "" then TvgId(it) else it.name, DayStart(o.now);
    Entry(it.name + " (m3u entry)", it.url, id, it.name, midnight, midnight + DAY - SECOND, [o.sourceId],
          "m3u|" + o.sourceId + "|" + id + "|" + it.url, o.now)
  }

  function Entries(o: Origin, blocks: seq<Block>): seq<Entry>
  {
    seq(|blocks|, i requires 0 <= i < |blocks| => EntryOf(o, blocks[i].item))
  }

  lemma {:induction false} NoiseIsSkipped(o: Origin, noise: seq<string>, rest: seq<string>)
    requires IsNoise(noise)
    ensures Scan(o, noise + rest) == Scan(o, rest)
  {
    if noise == [] {
      assert noise + rest == rest;
    } else {
      assert (noise + rest)[0] == noise[0] && (noise + rest)[1..] == noise[1..] + rest;
      NoiseIsSkipped(o, noise[1..], rest);
    }
  }

  lemma ItemIsRead(o: Origin, it: Item, rest: seq<string>)
    requires WellFormed(it)
    ensures Scan(o, [HeaderLine(it), it.url] + rest) == Prepend([EntryOf(o, it)], Scan(o, rest))
  {
    hide IsSpace, AfterFirst, Strip, NameOf, TvgIdOf, HeaderLine;
    var lines := [HeaderLine(it), it.url] + rest;
    HeaderLineIsHeader(it);
    HeaderLineName(it);
    HeaderLineTvgId(it);
    TrimIsStripped(it.url);
    assert lines[2..] == rest && lines[1] == it.url;
  }

  lemma NoiseGivesNothing(o: Origin, noise: seq<string>)
    requires IsNoise(noise)
    ensures Scan(o, noise) == Success([])
  {
    NoiseIsSkipped(o, noise, []);
    assert noise + [] == noise;
  }

  lemma EntriesCons(o: Origin, blocks: seq<Block>)
    requires blocks != []
    ensures Entries(o, blocks) == [EntryOf(o, blocks[0].item)] + Entries(o, blocks[1..])
  {
  }

  /** A playlist of well-formed pairs, with other lines between them, reads back as exactly its pairs, in order. */
  lemma {:induction false} PlaylistReadsBack(o: Origin, blocks: seq<Block>, end: seq<string>)
    requires IsNoise(end) && forall b :: b in blocks ==> IsNoise(b.noise) && WellFormed(b.item)
    ensures Scan(o, Lines(blocks) + end) == Success(Entries(o, blocks))
  {
    hide Scan, IsHeader, WellFormed, HeaderLine, EntryOf;
    if blocks == [] {
      NoiseGivesNothing(o, end);
      assert Lines(blocks) + end == end && Entries(o, blocks) == [];
    } else {
      var b, rest := blocks[0], Lines(blocks[1..]) + end;
      PlaylistReadsBack(o, blocks[1..], end);
      NoiseIsSkipped(o, b.noise, [HeaderLine(b.item), b.item.url] + rest);
      ItemIsRead(o, b.item, rest);
      assert Lines(blocks) + end == b.noise + ([HeaderLine(b.item), b.item.url] + rest);
      EntriesCons(o, blocks);
    }
  }

  /** The same for whole files: writing a playlist out, with any line break, and parsing the text returns its pairs. */
  lemma FileReadsBack(o: Origin, blocks: seq<Block>, brk: string, end: string)
    requires forall b :: b in blocks ==> IsNoise(b.noise) && WellFormed(b.item)
    requires forall l :: l in Lines(blocks) ==> OneLine(l)
    requires IsBreak(brk) && OneLine(end) && !IsHeader(end)
    ensures var text := Render(["#EXTM3U"] + Lines(blocks), brk) + end;
            Contains(text, "#EXTM3U") && Scan(o, SplitLines(text)) == Success(Entries(o, blocks))
  {
    hide Scan, Strip, WellFormed, SplitLines, IsBreak, Entries, Lines;
    var lines, last := ["#EXTM3U"] + Lines(blocks), if end == "" then [] else [end];
    assert OneLine("#EXTM3U");
    var text := Render(lines, brk) + end;
    assert lines[0] == "#EXTM3U" && "#EXTM3U" <= text;
    SplitLinesOfRender(lines, brk, end);
    MagicIsNoise();
    NoiseIsSkipped(o, ["#EXTM3U"], Lines(blocks) + last);
    assert lines + last == ["#EXTM3U"] + (Lines(blocks) + last);
    PlaylistReadsBack(o, blocks, last);
  }

  lemma MagicIsNoise()
    ensures IsNoise(["#EXTM3U"])
  {
    TrimIsStripped("#EXTM3U");
    assert "#EXTM3U"[4] != HEADER[4];
  }

  lemma HeaderWithoutName(o: Origin)
    ensures Scan(o, ["#EXTINF:-1"]) == Prepend([EntryOf(o, Item("", None, "", "unknown", ""))], Success([]))
  {
    hide Strip, AfterFirst;
    TrimIsStripped("#EXTINF:-1");
    NotContained("#EXTINF:-1", ",");
    NotContained("#EXTINF:-1", TVG_ID);
    assert ["#EXTINF:-1"][1..] == [];
    assert HEADER <= "#EXTINF:-1";
  }

  function SampleEntry(o: Origin, title: string, name: string, id: string, url: string, keyText: string): Entry
  {
    var midnight := o.now - o.now % 86400000000;
    Entry(title, url, id, name, midnight, midnight + 86399000000, [o.sourceId], keyText, o.now)
  }

  /** One playlist in full: an id from its attribute, one from the name, and a last header with neither name nor URL. */
  lemma SamplePlaylist(o: Origin)
    ensures Scan(o, ["#EXTM3U", "#EXTINF:0 tvg-id=\"b1\",BBC", "u1", "#EXTINF:0,News", "u2", "#EXTINF:-1"]) ==
            Success([SampleEntry(o, "BBC (m3u entry)", "BBC", "b1", "u1", "m3u|" + o.sourceId + "|b1|u1"),
                     SampleEntry(o, "News (m3u entry)", "News", "News", "u2", "m3u|" + o.sourceId + "|News|u2"),
                     SampleEntry(o, "unknown (m3u entry)", "unknown", "unknown", "",
                                 "m3u|" + o.sourceId + "|unknown|")])
  {
    hide Scan, Strip, AfterFirst, WellFormed, HeaderLine, EntryOf, SampleEntry;
    var a, b := Item(":0 ", Some("b1"), "", "BBC", "u1"), Item(":0", None, "", "News", "u2");
    var c := Item("", None, "", "unknown", "");
    SampleWithId(o, a);
    SampleWithoutId(o, b);
    SampleWithoutName(o, c);
    HeaderWithoutName(o);
    MagicIsNoise();
    var third := ["#EXTINF:-1"];
    var second := [HeaderLine(b), b.url] + third;
    var first := [HeaderLine(a), a.url] + second;
    ItemIsRead(o, b, third);
    ItemIsRead(o, a, second);
    NoiseIsSkipped(o, ["#EXTM3U"], first);
    assert ["#EXTM3U"] + first ==
           ["#EXTM3U", "#EXTINF:0 tvg-id=\"b1\",BBC", "u1", "#EXTINF:0,News", "u2", "#EXTINF:-1"];
    assert Scan(o, third).value == [EntryOf(o, c)];
    assert Scan(o, second).value == [EntryOf(o, b), EntryOf(o, c)];
    assert Scan(o, first).value == [EntryOf(o, a), EntryOf(o, b), EntryOf(o, c)];
  }

  lemma SampleWithId(o: Origin, a: Item)
    requires a == Item(":0 ", Some("b1"), "", "BBC", "u1")
    ensures WellFormed(a) && HeaderLine(a) == "#EXTINF:0 tvg-id=\"b1\",BBC"
    ensures EntryOf(o, a) == SampleEntry(o, "BBC (m3u entry)", "BBC", "b1", "u1", "m3u|" + o.sourceId + "|b1|u1")
  {
    hide WellFormed, HeaderLine, EntryOf, SampleEntry;
    SampleIsWellFormed(a);
    SampleHeader(a);
    SampleText(o.sourceId, "b1", "u1", "|b1|u1");
    assert "BBC" + " (m3u entry)" == "BBC (m3u entry)";
    EntryOfItem(o, a);
  }

  lemma SampleIsWellFormed(a: Item)
    requires a == Item(":0 ", Some("b1"), "", "BBC", "u1")
    ensures WellFormed(a)
  {
    hide AfterFirst, HeaderLine;
    var before := "#EXTINF" + a.before;
    assert before == "#EXTINF:0 ";
    NotContained(before, "tvg-id=\"");
  }

  lemma SampleHeader(a: Item)
    requires a == Item(":0 ", Some("b1"), "", "BBC", "u1")
    ensures HeaderLine(a) == "#EXTINF:0 tvg-id=\"b1\",BBC"
  {
    assert TvgAttribute(a) == "tvg-id=\"b1\"";
  }

  lemma SampleText(sourceId: string, id: string, url: string, tail: string)
    requires "|" + id + "|" + url == tail
    ensures "m3u|" + sourceId + "|" + id + "|" + url == "m3u|" + sourceId + tail
  {
    var front := "m3u|" + sourceId;
    assert front + "|" + id + "|" + url == front + ("|" + id + "|" + url);
  }

  lemma EntryOfItem(o: Origin, it: Item)
    ensures var id := if TvgId(it) != "" then TvgId(it) else it.name;
            EntryOf(o, it) == SampleEntry(o, it.name + " (m3u entry)", it.name, id, it.url,
                                          "m3u|" + o.sourceId + "|" + id + "|" + it.url)
  {
  }

  lemma SampleWithoutId(o: Origin, b: Item)
    requires b == Item(":0", None, "", "News", "u2")
    ensures WellFormed(b) && HeaderLine(b) == "#EXTINF:0,News"
    ensures EntryOf(o, b) == SampleEntry(o, "News (m3u entry)", "News", "News", "u2", "m3u|" + o.sourceId + "|News|u2")
  {
    hide AfterFirst, EntryOf, SampleEntry;
    assert HeaderLine(b) == "#EXTINF:0,News" && "#EXTINF" + b.before == "#EXTINF:0";
    NotContained("#EXTINF:0", "tvg-id=\"");
    NotContained("#EXTINF:0,News", "tvg-id=\"");
    SampleText(o.sourceId, "News", "u2", "|News|u2");
    assert "News" + " (m3u entry)" == "News (m3u entry)";
    EntryOfItem(o, b);
  }

  lemma SampleWithoutName(o: Origin, c: Item)
    requires c == Item("", None, "", "unknown", "")
    ensures EntryOf(o, c) ==
            SampleEntry(o, "unknown (m3u entry)", "unknown", "unknown", "", "m3u|" + o.sourceId + "|unknown|")
  {
    hide EntryOf, SampleEntry;
    SampleText(o.sourceId, "unknown", "", "|unknown|");
    assert "unknown" + " (m3u entry)" == "unknown (m3u entry)";
    EntryOfItem(o, c);
  }
}
