// The subtitle cue parser (scripts/transcribe_audio.py, try_youtube_subtitles),
// against a printer for WebVTT cues (section 4.1 of W3C WebVTT, hours always
// present).  Times are whole milliseconds.
module VttParser {
  import opened Common
  import opened Text

  datatype Segment = Segment(text: string, start: nat, end: nat)

  // ---- timing lines ------------------------------------------------------

  predicate IsDigit(c: char) { '0' <= c <= '9' }

  function Digit(c: char): nat
    requires IsDigit(c)
  {
    c as int - '0' as int
  }

  predicate Digits(s: string, k: nat, n: nat) {
    k + n <= |s| && forall j :: k <= j < k + n ==> IsDigit(s[j])
  }

  function Two(s: string, k: nat): nat
    requires Digits(s, k, 2)
  {
    Digit(s[k]) * 10 + Digit(s[k + 1])
  }

  // HH:MM:SS.mmm at position k.
  predicate IsStamp(s: string, k: nat) {
    && k + 12 <= |s|
    && Digits(s, k, 2) && s[k + 2] == ':' && Digits(s, k + 3, 2) && s[k + 5] == ':'
    && Digits(s, k + 6, 2) && s[k + 8] == '.' && Digits(s, k + 9, 3)
  }

  function StampAt(s: string, k: nat): nat
    requires IsStamp(s, k)
  {
    Two(s, k) * 3600000 + Two(s, k + 3) * 60000 + Two(s, k + 6) * 1000
    + Digit(s[k + 9]) * 100 + Digit(s[k + 10]) * 10 + Digit(s[k + 11])
  }

  function SkipSpace(s: string, k: nat): (j: nat)
    ensures j >= k
    decreases |s| - k
  {
    if k < |s| && IsSpace(s[k]) then SkipSpace(s, k + 1) else k
  }

  predicate ArrowAt(s: string, k: nat) { k + 3 <= |s| && s[k] == '-' && s[k + 1] == '-' && s[k + 2] == '>' }

  // re.match of the time pattern: start and end, when the line begins with them.
  function TimeOf(s: string): Option<(nat, nat)> {
    if !IsStamp(s, 0) then None
    else
      var a := SkipSpace(s, 12);
      if !ArrowAt(s, a) then None
      else
        var b := SkipSpace(s, a + 3);
        if IsStamp(s, b) then Some((StampAt(s, 0), StampAt(s, b))) else None
  }

  // ---- text lines --------------------------------------------------------

  function FindClose(s: string, k: nat): (j: nat)
    ensures k <= |s| ==> k <= j <= |s|
    decreases |s| - k
  {
    if k < |s| && s[k] != '>' then FindClose(s, k + 1) else k
  }

  // re.sub(r'<[^>]+>', '', s).
  function StripTags(s: string): string
    decreases |s|
  {
    if s == "" then ""
    else if s[0] == '<' then
      var j := FindClose(s, 1);
      if 1 < j < |s| then StripTags(s[j + 1..]) else [s[0]] + StripTags(s[1..])
    else [s[0]] + StripTags(s[1..])
  }

  function CleanLine(s: string): string { Strip(StripTags(s)) }

  function CleanLines(lines: seq<string>): seq<string> {
    if lines == [] then []
    else
      CleanLines(lines[..|lines| - 1])
      + if CleanLine(lines[|lines| - 1]) != "" then [CleanLine(lines[|lines| - 1])] else []
  }

  function JoinWith(parts: seq<string>, sep: string): string {
    if parts == [] then "" else if |parts| == 1 then parts[0] else parts[0] + sep + JoinWith(parts[1..], sep)
  }

  // ---- the parse ---------------------------------------------------------

  predicate IsTextLine(s: string) { Strip(s) != "" && TimeOf(s).None? }

  function TextEnd(lines: seq<string>, k: nat): (j: nat)
    requires k <= |lines|
    ensures k <= j <= |lines|
    decreases |lines| - k
  {
    if k < |lines| && IsTextLine(lines[k]) then TextEnd(lines, k + 1) else k
  }

  // Appends a cue unless it has no text or repeats the last text.
  function AddCue(segments: seq<Segment>, texts: seq<string>, start: nat, end: nat): seq<Segment> {
    if texts == [] then segments
    else
      var text := JoinWith(texts, " ");
      if segments == [] || segments[|segments| - 1].text != text then segments + [Segment(text, start, end)]
        else segments
  }

  function ParseFrom(lines: seq<string>, i: nat, segments: seq<Segment>): seq<Segment>
    requires i <= |lines|
    decreases |lines| - i
  {
    if i == |lines| then segments
    else
      var t := TimeOf(lines[i]);
      if t.None? then ParseFrom(lines, i + 1, segments)
      else
        var j := TextEnd(lines, i + 1);
        ParseFrom(lines, j, AddCue(segments, CleanLines(lines[i + 1..j]), t.value.0, t.value.1))
  }

  // content.split('\n').
  function SplitLines(s: string): (lines: seq<string>)
    ensures lines != []
  {
    if s == "" then [""]
    else
      var rest := SplitLines(s[1..]);
      if s[0] == '\n' then [""] + rest else [[s[0]] + rest[0]] + rest[1..]
  }

  method ParseCues(content: string) returns (segments: seq<Segment>, lyrics: string)
    ensures segments == ParseFrom(SplitLines(content), 0, [])
    ensures lyrics == JoinWith(Texts(segments), " ")
    ensures Tidy(segments)
  {
    hide TimeOf, CleanLines, TextEnd, SplitLines;
    var lines := SplitLines(content);
    segments := [];
    var lyricsParts := [];
    var i := 0;
    while i < |lines|
      invariant i <= |lines|
      invariant ParseFrom(lines, 0, []) == ParseFrom(lines, i, segments)
      invariant lyricsParts == Texts(segments)
    {
      var time := TimeOf(lines[i]);
      if time.Some? {
        var textLines;
        textLines, i := ReadText(lines, i + 1);
        if textLines != [] {
          var text := JoinWith(textLines, " ");
          if segments == [] || segments[|segments| - 1].text != text {
            segments := segments + [Segment(text, time.value.0, time.value.1)];
            lyricsParts := lyricsParts + [text];
          }
        }
      } else {
        i := i + 1;
      }
    }
    lyrics := JoinWith(lyricsParts, " ");
    ParseIsTidy(lines, 0, []);
  }

  // The inner loop: text lines until a blank line or the next timing line.
  method ReadText(lines: seq<string>, first: nat) returns (textLines: seq<string>, i: nat)
    requires first <= |lines|
    ensures i == TextEnd(lines, first) && textLines == CleanLines(lines[first..i])
  {
    hide TimeOf, CleanLine, Strip;
    textLines, i := [], first;
    while i < |lines| && Strip(lines[i]) != "" && TimeOf(lines[i]).None?
      invariant first <= i <= |lines|
      invariant TextEnd(lines, first) == TextEnd(lines, i)
      invariant textLines == CleanLines(lines[first..i])
    {
      assert lines[first..i + 1][..i - first] == lines[first..i];
      var clean := CleanLine(lines[i]);
      if clean != "" { textLines := textLines + [clean]; }
      i := i + 1;
    }
  }

  function Texts(segments: seq<Segment>): (texts: seq<string>)
    ensures |texts| == |segments| && forall k :: 0 <= k < |segments| ==> texts[k] == segments[k].text
  {
    seq(|segments|, k requires 0 <= k < |segments| => segments[k].text)
  }

  // ---- any input ---------------------------------------------------------

  ghost predicate Tidy(segments: seq<Segment>) {
    && (forall k :: 0 <= k < |segments| ==> segments[k].text != "")
    && (forall k :: 0 <= k < |segments| - 1 ==> segments[k].text != segments[k + 1].text)
  }

  lemma {:induction false} CleanLinesNotEmpty(lines: seq<string>)
    ensures forall k :: 0 <= k < |CleanLines(lines)| ==> CleanLines(lines)[k] != ""
  {
    if lines != [] { CleanLinesNotEmpty(lines[..|lines| - 1]); }
  }

  lemma AddCueKeepsTidy(segments: seq<Segment>, texts: seq<string>, start: nat, end: nat)
    requires Tidy(segments) && forall k :: 0 <= k < |texts| ==> texts[k] != ""
    ensures Tidy(AddCue(segments, texts, start, end))
  {
    if texts != [] { assert texts[0] != ""; }
  }

  // Whatever the file holds, no text is empty and no two neighbours are equal.
  lemma {:induction false} ParseIsTidy(lines: seq<string>, i: nat, segments: seq<Segment>)
    requires i <= |lines| && Tidy(segments)
    ensures Tidy(ParseFrom(lines, i, segments))
    decreases |lines| - i
  {
    hide TimeOf, CleanLine, AddCue;
    if i < |lines| {
      var t := TimeOf(lines[i]);
      if t.None? {
        ParseIsTidy(lines, i + 1, segments);
      } else {
        var j := TextEnd(lines, i + 1);
        CleanLinesNotEmpty(lines[i + 1..j]);
        AddCueKeepsTidy(segments, CleanLines(lines[i + 1..j]), t.value.0, t.value.1);
        ParseIsTidy(lines, j, AddCue(segments, CleanLines(lines[i + 1..j]), t.value.0, t.value.1));
      }
    }
  }

  // ---- the printer -------------------------------------------------------

  // A cue with its text lines; `settings` is what follows the times on their line.
  datatype Cue = Cue(start: nat, end: nat, settings: string, lines: seq<string>)

  function Char(d: nat): char
    requires d < 10
  {
    ('0' as int + d) as char
  }

  function Pad2(n: nat): string
    requires n < 100
  {
    [Char(n / 10), Char(n % 10)]
  }

  const HUNDRED_HOURS := 360000000

  function Stamp(ms: nat): (s: string)
    requires ms < HUNDRED_HOURS
    ensures |s| == 12
  {
    Pad2(ms / 3600000) + [':'] + Pad2(ms / 60000 % 60) + [':'] + Pad2(ms / 1000 % 60)
    + ['.', Char(ms % 1000 / 100), Char(ms % 100 / 10), Char(ms % 10)]
  }

  function TimingLine(c: Cue): string
    requires c.start < HUNDRED_HOURS && c.end < HUNDRED_HOURS
  {
    Stamp(c.start) + " --> " + Stamp(c.end) + c.settings
  }

  // A cue block holds no blank line, no line break and no line that starts like a
  // timing line.
  ghost predicate Printable(c: Cue) {
    && c.start < HUNDRED_HOURS && c.end < HUNDRED_HOURS && '\n' !in c.settings
    && forall k :: 0 <= k < |c.lines| ==> IsTextLine(c.lines[k]) && '\n' !in c.lines[k]
  }

  function CueLines(c: Cue): seq<string>
    requires c.start < HUNDRED_HOURS && c.end < HUNDRED_HOURS
  {
    [TimingLine(c)] + c.lines + [""]
  }

  function AllCueLines(cues: seq<Cue>): seq<string>
    requires forall k :: 0 <= k < |cues| ==> Printable(cues[k])
  {
    if cues == [] then []
    else
      assert Printable(cues[0]);
      CueLines(cues[0]) + AllCueLines(cues[1..])
  }

  function FileLines(cues: seq<Cue>): seq<string>
    requires forall k :: 0 <= k < |cues| ==> Printable(cues[k])
  {
    ["WEBVTT", ""] + AllCueLines(cues)
  }

  function PrintFile(cues: seq<Cue>): string
    requires forall k :: 0 <= k < |cues| ==> Printable(cues[k])
  {
    JoinWith(FileLines(cues), "\n")
  }

  // ---- printing and splitting lines --------------------------------------

  lemma {:induction false} SplitOne(s: string)
    requires '\n' !in s
    ensures SplitLines(s) == [s]
  {
    if s != "" {
      SplitOne(s[1..]);
      assert [s[0]] + s[1..] == s;
    }
  }

  lemma {:induction false} SplitFirst(s: string, rest: string)
    requires '\n' !in s
    ensures SplitLines(s + "\n" + rest) == [s] + SplitLines(rest)
  {
    var text := s + "\n" + rest;
    if s == "" {
      assert text[1..] == rest;
    } else {
      assert text[1..] == s[1..] + "\n" + rest;
      SplitFirst(s[1..], rest);
      assert [s[0]] + s[1..] == s;
    }
  }

  lemma {:induction false} SplitUndoesJoin(lines: seq<string>)
    requires lines != [] && forall k :: 0 <= k < |lines| ==> '\n' !in lines[k]
    ensures SplitLines(JoinWith(lines, "\n")) == lines
  {
    if |lines| == 1 {
      SplitOne(lines[0]);
    } else {
      SplitUndoesJoin(lines[1..]);
      SplitFirst(lines[0], JoinWith(lines[1..], "\n"));
    }
  }

  // ---- the timing line reads back ----------------------------------------

  lemma TwoReadsBack(s: string, k: nat, n: nat)
    requires n < 100 && k + 2 <= |s| && s[k] == Pad2(n)[0] && s[k + 1] == Pad2(n)[1]
    ensures Digits(s, k, 2) && Two(s, k) == n
  {
  }

  lemma ThreeReadsBack(n: nat)
    requires n < 1000
    ensures n == n / 100 * 100 + n % 100 / 10 * 10 + n % 10
    ensures n / 100 < 10 && n % 100 / 10 < 10
  {
  }

  lemma ClockAddsUp(ms: nat)
    ensures ms == ms / 3600000 * 3600000 + ms / 60000 % 60 * 60000 + ms / 1000 % 60 * 1000 + ms % 1000
  {
    var seconds, minutes := ms / 1000, ms / 60000;
    assert minutes == seconds / 60;
    assert ms / 3600000 == minutes / 60;
    assert ms == seconds * 1000 + ms % 1000;
    assert seconds == minutes * 60 + seconds % 60;
    assert minutes == minutes / 60 * 60 + minutes % 60;
  }

  lemma LastTwoDigits(ms: nat)
    ensures ms % 1000 % 100 == ms % 100
  {
    var q, r := ms / 1000, ms % 1000;
    assert ms / 100 == 10 * q + r / 100;
  }

  lemma LastDigit(ms: nat)
    ensures ms % 1000 % 10 == ms % 10
  {
    var q, r := ms / 1000, ms % 1000;
    assert ms / 10 == 100 * q + r / 10;
  }

  lemma StampReadsBack(ms: nat, s: string, k: nat)
    requires ms < HUNDRED_HOURS && k + 12 <= |s| && s[k..k + 12] == Stamp(ms)
    ensures IsStamp(s, k) && StampAt(s, k) == ms
  {
    var t := Stamp(ms);
    StampChars(ms);
    assert forall j :: 0 <= j < 12 ==> s[k + j] == t[j];
    hide Stamp, Pad2, Two;
    assert s[k] == t[0] && s[k + 1] == t[1] && s[k + 2] == t[2] && s[k + 3] == t[3] && s[k + 4] == t[4]
           && s[k + 5] == t[5];
    assert s[k + 6] == t[6] && s[k + 7] == t[7] && s[k + 8] == t[8] && s[k + 9] == t[9] && s[k + 10] == t[10]
           && s[k + 11] == t[11];
    TwoReadsBack(s, k, ms / 3600000);
    TwoReadsBack(s, k + 3, ms / 60000 % 60);
    TwoReadsBack(s, k + 6, ms / 1000 % 60);
    ThreeReadsBack(ms % 1000);
    ClockAddsUp(ms);
    LastTwoDigits(ms);
    LastDigit(ms);
  }

  // The stamp character by character.
  lemma StampChars(ms: nat)
    requires ms < HUNDRED_HOURS
    ensures var t, h, m, s := Stamp(ms), Pad2(ms / 3600000), Pad2(ms / 60000 % 60), Pad2(ms / 1000 % 60);
            && t[0] == h[0] && t[1] == h[1] && t[2] == ':' && t[3] == m[0] && t[4] == m[1] && t[5] == ':'
            && t[6] == s[0] && t[7] == s[1] && t[8] == '.'
            && t[9] == Char(ms % 1000 / 100) && t[10] == Char(ms % 100 / 10) && t[11] == Char(ms % 10)
  {
  }

  lemma TimingLineReadsBack(c: Cue)
    requires c.start < HUNDRED_HOURS && c.end < HUNDRED_HOURS
    ensures TimeOf(TimingLine(c)) == Some((c.start, c.end))
  {
    hide Stamp, StampAt, IsStamp;
    var s := TimingLine(c);
    assert |s| >= 29 && s[0..12] == Stamp(c.start) && s[17..29] == Stamp(c.end) && s[12..17] == " --> ";
    StampReadsBack(c.start, s, 0);
    StampReadsBack(c.end, s, 17);
    assert s[12] == ' ' && s[13] == '-' && s[14] == '-' && s[15] == '>' && s[16] == ' ';
    StampStartsWithDigit(c.end);
    assert s[17] == Stamp(c.end)[0];
    assert SkipSpace(s, 13) == 13 && SkipSpace(s, 17) == 17;
    assert SkipSpace(s, 12) == 13 && SkipSpace(s, 16) == 17;
  }

  lemma StampStartsWithDigit(ms: nat)
    requires ms < HUNDRED_HOURS
    ensures IsDigit(Stamp(ms)[0]) && '\n' !in Stamp(ms)
  {
  }

  // ---- the round trip ----------------------------------------------------

  ghost predicate AllPrintable(cues: seq<Cue>) { forall k :: 0 <= k < |cues| ==> Printable(cues[k]) }

  // What the parser makes of cues: each cue's cleaned lines joined, cues without
  // text and repeats dropped.
  function Expected(cues: seq<Cue>, segments: seq<Segment>): seq<Segment> {
    if cues == [] then segments
    else Expected(cues[1..], AddCue(segments, CleanLines(cues[0].lines), cues[0].start, cues[0].end))
  }

  lemma {:induction false} TextBlockEnds(lines: seq<string>, a: nat, b: nat)
    requires a <= b < |lines| && !IsTextLine(lines[b])
    requires forall k :: a <= k < b ==> IsTextLine(lines[k])
    ensures TextEnd(lines, a) == b
    decreases b - a
  {
    if a < b { TextBlockEnds(lines, a + 1, b); }
  }

  // From line i on, the file holds the block of cue c: its timing line, its text
  // lines, and a blank line.
  ghost predicate Block(lines: seq<string>, i: nat, c: Cue) {
    var b := i + 1 + |c.lines|;
    && b < |lines| && TimeOf(lines[i]) == Some((c.start, c.end))
    && lines[i + 1..b] == c.lines && lines[b] == ""
    && forall k :: i < k < b ==> IsTextLine(lines[k])
  }

  lemma PrintedCueIsABlock(lines: seq<string>, i: nat, c: Cue, rest: seq<string>)
    requires Printable(c) && i <= |lines| && lines[i..] == CueLines(c) + rest
    ensures Block(lines, i, c) && lines[i + |c.lines| + 2..] == rest
  {
    hide TimeOf, IsTextLine, TimingLine;
    var file := CueLines(c) + rest;
    TimingLineReadsBack(c);
    assert forall k :: 0 <= k < |file| ==> file[k] == lines[i + k];
    assert file[0] == TimingLine(c) && file[|c.lines| + 1] == "";
    assert forall k :: 0 <= k < |c.lines| ==> file[k + 1] == c.lines[k];
    forall k | i < k < i + 1 + |c.lines|
      ensures IsTextLine(lines[k]) && lines[k] == c.lines[k - i - 1]
    {
      assert lines[k] == file[k - i - 1 + 1];
    }
    assert lines[i + 1..i + 1 + |c.lines|] == c.lines;
    assert lines[i + |c.lines| + 2..] == file[|c.lines| + 2..] == rest;
  }

  lemma ParseBlock(lines: seq<string>, i: nat, c: Cue, segments: seq<Segment>)
    requires Block(lines, i, c)
    ensures ParseFrom(lines, i, segments)
         == ParseFrom(lines, i + |c.lines| + 2, AddCue(segments, CleanLines(c.lines), c.start, c.end))
  {
    BlankIsNoTime();
    hide TimeOf, IsTextLine, CleanLines, AddCue;
    TextBlockEnds(lines, i + 1, i + 1 + |c.lines|);
  }

  lemma BlankIsNoTime()
    ensures TimeOf("") == None && TimeOf("WEBVTT") == None && !IsTextLine("")
  {
  }

  lemma {:induction false} ParseAllCues(lines: seq<string>, i: nat, cues: seq<Cue>, segments: seq<Segment>)
    requires AllPrintable(cues) && i <= |lines| && lines[i..] == AllCueLines(cues)
    ensures ParseFrom(lines, i, segments) == Expected(cues, segments)
    decreases |cues|
  {
    hide ParseFrom, CueLines, Printable, Block, AddCue, CleanLines;
    if cues == [] {
      ParseEnds(lines, segments);
    } else {
      var c := cues[0];
      assert Printable(c) && AllPrintable(cues[1..]);
      PrintedCueIsABlock(lines, i, c, AllCueLines(cues[1..]));
      BlockFits(lines, i, c);
      ParseBlock(lines, i, c, segments);
      ParseAllCues(lines, i + |c.lines| + 2, cues[1..], AddCue(segments, CleanLines(c.lines), c.start, c.end));
    }
  }

  lemma ParseEnds(lines: seq<string>, segments: seq<Segment>)
    ensures ParseFrom(lines, |lines|, segments) == segments
  {
  }

  lemma BlockFits(lines: seq<string>, i: nat, c: Cue)
    requires Block(lines, i, c)
    ensures i + |c.lines| + 2 <= |lines|
  {
  }

  lemma {:induction false} NoBreaks(cues: seq<Cue>)
    requires AllPrintable(cues)
    ensures forall k :: 0 <= k < |AllCueLines(cues)| ==> '\n' !in AllCueLines(cues)[k]
  {
    hide TimeOf, IsTextLine, Stamp;
    if cues != [] {
      NoBreaks(cues[1..]);
      StampStartsWithDigit(cues[0].start);
      StampStartsWithDigit(cues[0].end);
      assert '\n' !in TimingLine(cues[0]);
    }
  }

  // Parsing a printed file gives the cues back, cleaned, without repeats.
  lemma ParseUndoesPrint(cues: seq<Cue>)
    requires AllPrintable(cues)
    ensures ParseFrom(SplitLines(PrintFile(cues)), 0, []) == Expected(cues, [])
  {
    var lines := FileLines(cues);
    NoBreaks(cues);
    SplitUndoesJoin(lines);
    BlankIsNoTime();
    hide TimeOf, AllCueLines, SplitLines, Expected, JoinWith;
    assert lines[0] == "WEBVTT" && lines[1] == "";
    assert ParseFrom(lines, 0, []) == ParseFrom(lines, 1, []);
    assert ParseFrom(lines, 1, []) == ParseFrom(lines, 2, []);
    assert lines[2..] == AllCueLines(cues);
    ParseAllCues(lines, 2, cues, []);
  }

  // A text line without markup: the parser leaves it as it is.
  predicate PlainLine(s: string) { s != "" && Trimmed(s) && '<' !in s && '\n' !in s && TimeOf(s).None? }

  lemma {:induction false} TagFreeIsKept(s: string)
    requires '<' !in s
    ensures StripTags(s) == s
  {
    if s != "" { TagFreeIsKept(s[1..]); }
  }

  lemma PlainLineIsKept(line: string)
    requires PlainLine(line)
    ensures CleanLine(line) == line
  {
    hide TimeOf, Strip, StripTags;
    TagFreeIsKept(line);
  }

  lemma {:induction false} PlainLinesAreKept(lines: seq<string>)
    requires forall k :: 0 <= k < |lines| ==> PlainLine(lines[k])
    ensures CleanLines(lines) == lines
  {
    if lines != [] {
      var front, last := lines[..|lines| - 1], lines[|lines| - 1];
      assert CleanLines(lines) == CleanLines(front) + if CleanLine(last) != "" then [CleanLine(last)] else [];
      assert PlainLine(last) && last != "";
      hide PlainLine, CleanLine, CleanLines;
      PlainLinesAreKept(front);
      PlainLineIsKept(last);
      assert front + [last] == lines;
    } else {
      assert CleanLines([]) == [];
    }
  }

  ghost predicate PlainCue(c: Cue) {
    && c.start < HUNDRED_HOURS && c.end < HUNDRED_HOURS && '\n' !in c.settings && c.lines != []
    && forall k :: 0 <= k < |c.lines| ==> PlainLine(c.lines[k])
  }

  function SegmentOf(c: Cue): Segment { Segment(JoinWith(c.lines, " "), c.start, c.end) }

  function SegmentsOf(cues: seq<Cue>): (segments: seq<Segment>)
    ensures |segments| == |cues| && forall k :: 0 <= k < |cues| ==> segments[k] == SegmentOf(cues[k])
  {
    seq(|cues|, k requires 0 <= k < |cues| => SegmentOf(cues[k]))
  }

  lemma PlainIsPrintable(c: Cue)
    requires PlainCue(c)
    ensures Printable(c)
  {
    hide TimeOf, Strip;
  }

  // Neighbouring cues have different texts.
  ghost predicate NoRepeats(cues: seq<Cue>) {
    forall k :: 0 < k < |cues| ==> Differs(cues, k)
  }

  ghost predicate Differs(cues: seq<Cue>, k: nat)
    requires 0 < k < |cues|
  {
    SegmentOf(cues[k - 1]).text != SegmentOf(cues[k]).text
  }

  ghost predicate AllPlain(cues: seq<Cue>) { forall k :: 0 <= k < |cues| ==> PlainCue(cues[k]) }

  // The first of these cues does not repeat the last segment.
  ghost predicate Fresh(segments: seq<Segment>, cues: seq<Cue>) {
    segments != [] && cues != [] ==> segments[|segments| - 1].text != SegmentOf(cues[0]).text
  }

  lemma {:induction false} ExpectedOfPlain(cues: seq<Cue>, segments: seq<Segment>)
    requires AllPlain(cues) && NoRepeats(cues) && Fresh(segments, cues)
    ensures Expected(cues, segments) == segments + SegmentsOf(cues)
    decreases |cues|
  {
    hide *;
    if cues == [] {
      ExpectedOfNone(segments);
    } else {
      FirstPlainCue(cues, segments);
      ExpectedOfPlain(cues[1..], segments + [SegmentOf(cues[0])]);
      SegmentsOfCons(cues);
      Regroup(segments, SegmentOf(cues[0]), SegmentsOf(cues[1..]));
    }
  }

  lemma ExpectedOfNone(segments: seq<Segment>)
    ensures Expected([], segments) == segments + SegmentsOf([])
  {
  }

  lemma Regroup(a: seq<Segment>, x: Segment, b: seq<Segment>)
    ensures a + [x] + b == a + ([x] + b)
  {
  }

  // The first cue is added as it is, and leaves the rest in the same situation.
  lemma FirstPlainCue(cues: seq<Cue>, segments: seq<Segment>)
    requires cues != [] && AllPlain(cues) && NoRepeats(cues) && Fresh(segments, cues)
    ensures Expected(cues, segments) == Expected(cues[1..], segments + [SegmentOf(cues[0])])
    ensures AllPlain(cues[1..]) && NoRepeats(cues[1..]) && Fresh(segments + [SegmentOf(cues[0])], cues[1..])
  {
    hide PlainCue, SegmentOf, AddCue, CleanLines;
    PlainCueIsAdded(cues[0], segments);
    NoRepeatsRest(cues);
  }

  lemma SegmentsOfCons(cues: seq<Cue>)
    requires cues != []
    ensures SegmentsOf(cues) == [SegmentOf(cues[0])] + SegmentsOf(cues[1..])
  {
    hide SegmentOf;
  }

  lemma NoRepeatsRest(cues: seq<Cue>)
    requires cues != [] && NoRepeats(cues)
    ensures NoRepeats(cues[1..])
    ensures |cues| > 1 ==> SegmentOf(cues[0]).text != SegmentOf(cues[1]).text
  {
    assert |cues| > 1 ==> Differs(cues, 1);
    forall k | 0 < k < |cues[1..]|
      ensures Differs(cues[1..], k)
    {
      assert Differs(cues, k + 1);
    }
  }

  lemma PlainCueIsAdded(c: Cue, segments: seq<Segment>)
    requires PlainCue(c) && (segments != [] ==> segments[|segments| - 1].text != SegmentOf(c).text)
    ensures AddCue(segments, CleanLines(c.lines), c.start, c.end) == segments + [SegmentOf(c)]
  {
    hide PlainLine, CleanLines;
    PlainLinesAreKept(c.lines);
  }

  // Printed cues with plain text and no repeats come back exactly: texts and times.
  lemma PlainCuesRoundTrip(cues: seq<Cue>)
    requires AllPlain(cues) && NoRepeats(cues)
    ensures AllPrintable(cues)
    ensures ParseFrom(SplitLines(PrintFile(cues)), 0, []) == SegmentsOf(cues)
  {
    hide PlainCue, Printable, SegmentOf, FileLines;
    forall k | 0 <= k < |cues| ensures Printable(cues[k]) { PlainIsPrintable(cues[k]); }
    ParseUndoesPrint(cues);
    ExpectedOfPlain(cues, []);
    assert [] + SegmentsOf(cues) == SegmentsOf(cues);
  }
}
