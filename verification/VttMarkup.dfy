// Subtitle markup: what the cue parser makes of tags, of cues without text and of
// repeated cues (scripts/transcribe_audio.py, try_youtube_subtitles).
module VttMarkup {
  import opened Common
  import opened Text
  import opened VttParser

  // ---- tags --------------------------------------------------------------

  // A text line as subtitles are printed: tag-free pieces with a tag between any two.
  datatype Line = Line(pieces: seq<string>, tags: seq<string>)

  predicate WellMarked(l: Line) {
    && |l.pieces| == |l.tags| + 1
    && (forall k :: 0 <= k < |l.pieces| ==> '<' !in l.pieces[k])
    && (forall k :: 0 <= k < |l.tags| ==> l.tags[k] != "" && '>' !in l.tags[k])
  }

  function Marked(pieces: seq<string>, tags: seq<string>): string
    requires |pieces| == |tags| + 1
  {
    if tags == [] then pieces[0] else pieces[0] + ("<" + tags[0] + ">" + Marked(pieces[1..], tags[1..]))
  }

  function Concat(pieces: seq<string>): string {
    if pieces == [] then "" else pieces[0] + Concat(pieces[1..])
  }

  lemma {:induction false} PieceIsKept(piece: string, rest: string)
    requires '<' !in piece
    ensures StripTags(piece + rest) == piece + StripTags(rest)
  {
    if piece == "" {
      assert piece + rest == rest;
    } else {
      assert (piece + rest)[0] == piece[0] && (piece + rest)[1..] == piece[1..] + rest;
      PieceIsKept(piece[1..], rest);
    }
  }

  lemma {:induction false} CloseIsFound(s: string, k: nat, n: nat)
    requires k <= n < |s| && s[n] == '>' && forall j :: k <= j < n ==> s[j] != '>'
    ensures FindClose(s, k) == n
    decreases n - k
  {
    if k < n { CloseIsFound(s, k + 1, n); }
  }

  lemma TagIsDropped(tag: string, rest: string)
    requires tag != "" && '>' !in tag
    ensures StripTags("<" + tag + ">" + rest) == StripTags(rest)
  {
    var s, n := "<" + tag + ">" + rest, 1 + |tag|;
    assert s[n] == '>' && s[n + 1..] == rest;
    assert forall j :: 1 <= j < n ==> s[j] == tag[j - 1];
    CloseIsFound(s, 1, n);
  }

  // Exactly the tags go, and exactly the pieces stay.
  lemma {:induction false} TagsAreStripped(pieces: seq<string>, tags: seq<string>)
    requires WellMarked(Line(pieces, tags))
    ensures StripTags(Marked(pieces, tags)) == Concat(pieces)
    decreases |tags|
  {
    if tags == [] {
      PieceIsKept(pieces[0], "");
      assert pieces[0] + "" == pieces[0] && pieces[1..] == [] && Concat([]) == "";
    } else {
      assert WellMarked(Line(pieces[1..], tags[1..]));
      TagsAreStripped(pieces[1..], tags[1..]);
      PieceIsKept(pieces[0], "<" + tags[0] + ">" + Marked(pieces[1..], tags[1..]));
      TagIsDropped(tags[0], Marked(pieces[1..], tags[1..]));
    }
  }

  // s[i..j] is a tag without its closing bracket.
  predicate TagAt(s: string, i: nat, j: nat) {
    i + 1 < j < |s| && s[i] == '<' && s[j] == '>' && '>' !in s[i + 1..j]
  }

  ghost predicate TagFree(s: string) { forall i: nat, j: nat :: !TagAt(s, i, j) }

  lemma {:induction false} CloseIsFirst(s: string, k: nat)
    requires k <= |s|
    ensures var j := FindClose(s, k);
            && k <= j <= |s| && (j < |s| ==> s[j] == '>') && forall i :: k <= i < j ==> s[i] != '>'
    decreases |s| - k
  {
    if k < |s| && s[k] != '>' { CloseIsFirst(s, k + 1); }
  }

  // Without a closing bracket nothing changes.
  lemma {:induction false} OpenIsKept(s: string)
    requires '>' !in s
    ensures StripTags(s) == s
  {
    if s != "" {
      if s[0] == '<' {
        CloseIsFirst(s, 1);
        assert FindClose(s, 1) == |s|;
      }
      OpenIsKept(s[1..]);
      assert [s[0]] + s[1..] == s;
    }
  }

  lemma TagFreeCons(c: char, s: string)
    requires TagFree(s) && (c != '<' || s == "" || s[0] == '>' || '>' !in s)
    ensures TagFree([c] + s)
  {
    var t := [c] + s;
    forall i: nat, j: nat
      ensures !TagAt(t, i, j)
    {
      assert 1 < j < |t| ==> t[1..j][0] == t[1] && t[j] == s[j - 1];
      if i > 0 && TagAt(t, i, j) {
        assert t[i + 1..j] == s[i..j - 1];
        assert TagAt(s, i - 1, j - 1);
      }
    }
  }

  lemma StartsAlike(s: string)
    requires s != "" && s[0] == '>'
    ensures StripTags(s) != "" && StripTags(s)[0] == '>'
  {
  }

  // Whatever the line holds, no tag survives.
  lemma {:induction false} NoTagSurvives(s: string)
    ensures TagFree(StripTags(s))
    decreases |s|
  {
    if s != "" {
      var j := FindClose(s, 1);
      CloseIsFirst(s, 1);
      if s[0] == '<' && 1 < j < |s| {
        NoTagSurvives(s[j + 1..]);
      } else {
        NoTagSurvives(s[1..]);
        if s[0] == '<' && j == |s| {
          assert forall i :: 0 <= i < |s[1..]| ==> s[1..][i] == s[i + 1];
          OpenIsKept(s[1..]);
        } else if s[0] == '<' && |s| > 1 {
          StartsAlike(s[1..]);
        }
        TagFreeCons(s[0], StripTags(s[1..]));
      }
    }
  }

  // ---- cues with markup --------------------------------------------------

  datatype MarkedCue = MarkedCue(start: nat, end: nat, settings: string, lines: seq<Line>)

  function Printed(lines: seq<Line>): (printed: seq<string>)
    requires forall k :: 0 <= k < |lines| ==> WellMarked(lines[k])
    ensures |printed| == |lines|
    ensures forall k :: 0 <= k < |lines| ==> printed[k] == PrintLine(lines[k])
  {
    seq(|lines|, k requires 0 <= k < |lines| => PrintLine(lines[k]))
  }

  function PrintLine(l: Line): string
    requires WellMarked(l)
  {
    Marked(l.pieces, l.tags)
  }

  // The trimmed texts of the lines, without those that are only markup.
  function Shown(lines: seq<Line>): seq<string> {
    if lines == [] then []
    else
      var text := Strip(Concat(lines[|lines| - 1].pieces));
      Shown(lines[..|lines| - 1]) + if text != "" then [text] else []
  }

  lemma {:induction false} MarkupIsCleaned(lines: seq<Line>)
    requires forall k :: 0 <= k < |lines| ==> WellMarked(lines[k])
    ensures CleanLines(Printed(lines)) == Shown(lines)
  {
    hide Strip, StripTags, WellMarked, Marked, Concat;
    if lines != [] {
      var n := |lines| - 1;
      MarkupIsCleaned(lines[..n]);
      TagsAreStripped(lines[n].pieces, lines[n].tags);
      assert Printed(lines)[..n] == Printed(lines[..n]);
    }
  }

  ghost predicate PrintableMarked(c: MarkedCue) {
    && (forall k :: 0 <= k < |c.lines| ==> WellMarked(c.lines[k]))
    && Printable(Cue(c.start, c.end, c.settings, Printed(c.lines)))
  }

  ghost predicate AllMarked(cues: seq<MarkedCue>) { forall k :: 0 <= k < |cues| ==> PrintableMarked(cues[k]) }

  function CueOf(c: MarkedCue): (r: Cue)
    requires PrintableMarked(c)
    ensures Printable(r)
  {
    Cue(c.start, c.end, c.settings, Printed(c.lines))
  }

  function CuesOf(cues: seq<MarkedCue>): (rs: seq<Cue>)
    requires AllMarked(cues)
    ensures |rs| == |cues| && AllPrintable(rs) && forall k :: 0 <= k < |cues| ==> rs[k] == CueOf(cues[k])
  {
    seq(|cues|, k requires 0 <= k < |cues| => CueOf(cues[k]))
  }

  // The cues that show any text.
  function ShownCues(cues: seq<MarkedCue>): seq<Segment> {
    if cues == [] then []
    else
      var c := cues[0];
      (if Shown(c.lines) != [] then [Segment(JoinWith(Shown(c.lines), " "), c.start, c.end)] else [])
      + ShownCues(cues[1..])
  }

  // Of neighbours with the same text, the first one.
  function KeepFirsts(segments: seq<Segment>): seq<Segment> {
    var n := |segments|;
    if n == 0 then []
    else
      KeepFirsts(segments[..n - 1])
      + if n > 1 && segments[n - 2].text == segments[n - 1].text then [] else [segments[n - 1]]
  }

  // The parser's way: one segment after another.
  function AddSegment(segments: seq<Segment>, s: Segment): seq<Segment> {
    if segments == [] || segments[|segments| - 1].text != s.text then segments + [s] else segments
  }

  lemma {:induction false} KeepFirstsEndsAlike(segments: seq<Segment>)
    requires segments != []
    ensures KeepFirsts(segments) != []
    ensures KeepFirsts(segments)[|KeepFirsts(segments)| - 1].text == segments[|segments| - 1].text
  {
    if |segments| > 1 { KeepFirstsEndsAlike(segments[..|segments| - 1]); }
  }

  lemma KeepFirstsSnoc(segments: seq<Segment>, s: Segment)
    ensures KeepFirsts(segments + [s]) == AddSegment(KeepFirsts(segments), s)
  {
    assert (segments + [s])[..|segments|] == segments;
    if segments != [] { KeepFirstsEndsAlike(segments); }
  }

  lemma {:induction false} ExpectedKeepsFirsts(cues: seq<MarkedCue>, before: seq<Segment>)
    requires AllMarked(cues)
    ensures Expected(CuesOf(cues), KeepFirsts(before)) == KeepFirsts(before + ShownCues(cues))
    decreases |cues|
  {
    hide Shown, KeepFirsts, PrintableMarked, CleanLines, CueOf;
    if cues == [] {
      assert before + [] == before;
    } else {
      var c, rest := cues[0], cues[1..];
      assert CuesOf(cues)[1..] == CuesOf(rest);
      FirstCue(c, before);
      if Shown(c.lines) != [] {
        var s := Segment(JoinWith(Shown(c.lines), " "), c.start, c.end);
        ExpectedKeepsFirsts(rest, before + [s]);
        assert before + [s] + ShownCues(rest) == before + ShownCues(cues);
      } else {
        ExpectedKeepsFirsts(rest, before);
        assert ShownCues(cues) == ShownCues(rest);
      }
    }
  }

  lemma FirstCue(c: MarkedCue, before: seq<Segment>)
    requires PrintableMarked(c)
    ensures var r, s := CueOf(c), Segment(JoinWith(Shown(c.lines), " "), c.start, c.end);
            AddCue(KeepFirsts(before), CleanLines(r.lines), r.start, r.end)
            == KeepFirsts(if Shown(c.lines) != [] then before + [s] else before)
  {
    hide KeepFirsts, Shown, CleanLines, Printable, WellMarked;
    MarkupIsCleaned(c.lines);
    KeepFirstsSnoc(before, Segment(JoinWith(Shown(c.lines), " "), c.start, c.end));
  }

  // Parsing any printed cues with markup gives their texts without the markup and
  // their times, without cues that show nothing, and only the first of repeats.
  lemma MarkedCuesRoundTrip(cues: seq<MarkedCue>)
    requires AllMarked(cues)
    ensures ParseFrom(SplitLines(PrintFile(CuesOf(cues))), 0, []) == KeepFirsts(ShownCues(cues))
  {
    hide PrintFile, SplitLines, ParseFrom;
    ParseUndoesPrint(CuesOf(cues));
    assert KeepFirsts([]) == [];
    ExpectedKeepsFirsts(cues, []);
    assert [] + ShownCues(cues) == ShownCues(cues);
  }

  // ---- timing lines ------------------------------------------------------

  lemma {:induction false} SpaceIsSkipped(s: string, k: nat, j: nat)
    requires k <= j < |s| && !IsSpace(s[j]) && forall i :: k <= i < j ==> IsSpace(s[i])
    ensures SkipSpace(s, k) == j
    decreases j - k
  {
    if k < j { SpaceIsSkipped(s, k + 1, j); }
  }

  // Any white space around the arrow, none included, and anything after the times.
  lemma AnySpacingReadsBack(start: nat, end: nat, before: string, after: string, rest: string)
    requires start < HUNDRED_HOURS && end < HUNDRED_HOURS && Blank(before) && Blank(after)
    ensures TimeOf(Stamp(start) + before + "-->" + after + Stamp(end) + rest) == Some((start, end))
  {
    hide *;
    var first, last := Stamp(start), Stamp(end);
    var s := first + before + "-->" + after + last + rest;
    var a, b := 12 + |before|, 15 + |before| + |after|;
    Layout(first, before, after, last, rest);
    StampReadsBack(start, s, 0);
    StampReadsBack(end, s, b);
    StampStartsWithDigit(end);
    NotSpace(s[b]);
    NotSpace(s[a]);
    SpaceIsSkipped(s, 12, a);
    SpaceIsSkipped(s, a + 3, b);
    TimeIs(s, a, b);
  }

  lemma Layout(first: string, before: string, after: string, last: string, rest: string)
    requires |first| == |last| == 12 && Blank(before) && Blank(after)
    ensures var s := first + before + "-->" + after + last + rest;
            var a, b := 12 + |before|, 15 + |before| + |after|;
            && |s| >= b + 12 && s[0..12] == first && s[b..b + 12] == last && s[b] == last[0]
            && s[a] == '-' && s[a + 1] == '-' && s[a + 2] == '>'
            && (forall i :: 12 <= i < a ==> IsSpace(s[i])) && (forall i :: a + 3 <= i < b ==> IsSpace(s[i]))
  {
    var s := first + before + "-->" + after + last + rest;
    var a, b := 12 + |before|, 15 + |before| + |after|;
    assert forall i :: 12 <= i < a ==> s[i] == before[i - 12];
    assert forall i :: a + 3 <= i < b ==> s[i] == after[i - a - 3];
    hide IsSpace;
  }

  lemma NotSpace(c: char)
    ensures IsDigit(c) || c == '-' ==> !IsSpace(c)
  {
  }

  lemma TimeIs(s: string, a: nat, b: nat)
    requires IsStamp(s, 0) && SkipSpace(s, 12) == a && a + 3 <= |s|
    requires s[a] == '-' && s[a + 1] == '-' && s[a + 2] == '>'
    requires SkipSpace(s, a + 3) == b && IsStamp(s, b)
    ensures TimeOf(s) == Some((StampAt(s, 0), StampAt(s, b)))
  {
    hide IsStamp, StampAt;
  }
}
