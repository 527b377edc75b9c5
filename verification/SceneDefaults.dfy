// What sanitising puts into each scene, and what fallback scenes are made of
// (scripts/analyze_lyrics.py, sanitize_analysis_payload and build_fallback_scenes).
module SceneDefaults {
  import opened Common
  import opened Text
  import opened Rounding
  import opened Sanitising

  // ---- one scene ---------------------------------------------------------

  // The start is the given one, or five seconds a position; the end is the given one,
  // or the start and the duration, which is five seconds when missing and at least one;
  // an end that is not after the start is put five seconds after it.  All are rounded.
  lemma SanitisedTimesAre(i: nat, r: Raw, style: string)
    requires r.Dict?
    ensures var c := SanitiseOne(i, r, style);
            var start := if r.start.Some? then r.start.value else 5.0 * i as real;
            var length := if r.duration.None? then 5.0 else if r.duration.value < 1.0 then 1.0 else r.duration.value;
            && c.start == Round3(start)
            && (r.end.None? ==> c.end == Round3(start + length) && c.duration == Round3(length))
            && (r.end.Some? && r.end.value > start ==>
                  c.end == Round3(r.end.value) && c.duration == Round3(r.end.value - start))
            && (r.end.Some? && r.end.value <= start ==> c.end == Round3(start + 5.0) && c.duration == Round3(5.0))
  {
    hide Round3, VisualPrompt, Strip, Numeral;
    assert (i * 5) as real == 5.0 * i as real;
    var start := RawStart(i, r);
    assert (start + 5.0) - start == 5.0;
    assert r.duration.Some? ==> (start + r.duration.value) - start == r.duration.value;
  }

  // The verse and the prompt are the given ones without the white space around them,
  // when anything is left; a known transition is kept, and any other is a cut.
  lemma SanitisedTextIs(i: nat, r: Raw, style: string)
    requires r.Dict?
    ensures var c := SanitiseOne(i, r, style);
            && c.verse == (if Strip(r.verse) != "" then Strip(r.verse) else "scene " + Numeral(i + 1))
            && (Strip(r.prompt) != "" ==> c.prompt == Strip(r.prompt))
            && (Strip(r.prompt) == "" ==>
                  c.prompt == c.verse + ", dressed in casual clothes, natural pose, face focus, " + style
                              + ", high quality, dramatic lighting, cinematic")
            && c.transition == match Strip(r.transition)
                               case "fade" => "fade"
                               case "dissolve" => "dissolve"
                               case _ => "cut"
  {
    hide Round3, Strip, Numeral, RawStart, RawEnd;
  }

  // The number in a default verse is written in decimal.
  function Value(digits: string): int {
    if digits == [] then 0 else Value(digits[..|digits| - 1]) * 10 + (digits[|digits| - 1] as int - '0' as int)
  }

  lemma {:induction false} NumeralReadsBack(n: nat)
    ensures Value(Numeral(n)) == n
  {
    if n >= 10 {
      NumeralReadsBack(n / 10);
      assert Numeral(n)[..|Numeral(n)| - 1] == Numeral(n / 10);
    } else {
      assert Numeral(n)[..0] == [];
      assert Value([]) == 0;
    }
  }

  // ---- the list ----------------------------------------------------------

  // Usable entries among the first n.
  function UsableBefore(raws: seq<Raw>, n: nat): nat
    requires n <= |raws|
  {
    if n == 0 then 0 else UsableBefore(raws, n - 1) + if raws[n - 1].Dict? then 1 else 0
  }

  lemma {:induction false} UsableBeforeGrows(raws: seq<Raw>, i: nat, n: nat)
    requires i < n <= |raws| && raws[i].Dict?
    ensures UsableBefore(raws, i) < UsableBefore(raws, n)
    decreases n
  {
    if i < n - 1 { UsableBeforeGrows(raws, i, n - 1); }
  }

  lemma {:induction false} SameUsableBefore(raws: seq<Raw>, m: nat, n: nat)
    requires n <= m <= |raws|
    ensures UsableBefore(raws[..m], n) == UsableBefore(raws, n)
  {
    if n > 0 { SameUsableBefore(raws, m, n - 1); }
  }

  // Every usable entry up to the scene limit goes out, in order, numbered by its
  // position in the input.
  lemma {:induction false} EntryGoesOut(raws: seq<Raw>, style: string, i: nat)
    requires i < |raws| && raws[i].Dict?
    ensures |SanitiseFrom(raws, style)| == UsableBefore(raws, |raws|) > UsableBefore(raws, i)
    ensures SanitiseFrom(raws, style)[UsableBefore(raws, i)] == SanitiseOne(i, raws[i], style)
  {
    var n := |raws| - 1;
    hide SanitiseOne;
    UsableBeforeGrows(raws, i, |raws|);
    LengthIsUsable(raws, style);
    LengthIsUsable(raws[..n], style);
    SameUsableBefore(raws, n, n);
    if i < n {
      EntryGoesOut(raws[..n], style, i);
      SameUsableBefore(raws, n, i);
    }
  }

  lemma {:induction false} LengthIsUsable(raws: seq<Raw>, style: string)
    ensures |SanitiseFrom(raws, style)| == UsableBefore(raws, |raws|)
  {
    hide SanitiseOne;
    if raws != [] {
      LengthIsUsable(raws[..|raws| - 1], style);
      SameUsableBefore(raws, |raws| - 1, |raws| - 1);
    }
  }

  lemma SceneGoesOut(raws: seq<Raw>, src: Source, i: nat)
    requires i < |raws| && i < src.maxScenes && raws[i].Dict?
    ensures UsableBefore(raws, i) < |Sanitise(raws, src)|
    ensures Sanitise(raws, src)[UsableBefore(raws, i)] == SanitiseOne(i, raws[i], src.style)
    ensures |Sanitise(raws, src)| == UsableBefore(raws, Min(|raws|, src.maxScenes))
  {
    var m := Min(|raws|, src.maxScenes);
    assert Input(raws, src) == raws[..m];
    EntryGoesOut(raws[..m], src.style, i);
    SameUsableBefore(raws, m, i);
    SameUsableBefore(raws, m, m);
  }

  // ---- fallback scenes ---------------------------------------------------

  // Segments with text among the first n.
  function SpokenBefore(segments: seq<Line>, n: nat): nat
    requires n <= |segments|
  {
    if n == 0 then 0 else SpokenBefore(segments, n - 1) + if Strip(segments[n - 1].text) != "" then 1 else 0
  }

  lemma {:induction false} SameSpokenBefore(segments: seq<Line>, m: nat, n: nat)
    requires n <= m <= |segments|
    ensures SpokenBefore(segments[..m], n) == SpokenBefore(segments, n)
  {
    hide Strip;
    if n > 0 { SameSpokenBefore(segments, m, n - 1); }
  }

  lemma {:induction false} FallbackLength(segments: seq<Line>, style: string, max: nat)
    ensures |FallbackFromSegments(segments, style, max)| == Min(SpokenBefore(segments, |segments|), max)
  {
    hide Strip, FallbackScene;
    if segments != [] {
      FallbackLength(segments[..|segments| - 1], style, max);
      SameSpokenBefore(segments, |segments| - 1, |segments| - 1);
    }
  }

  // Up to the limit every segment with text becomes a scene, in order: its trimmed text
  // and its times, from zero when it has no start, and five seconds long when it has no
  // end after its start.
  lemma {:induction false} SegmentBecomesScene(segments: seq<Line>, style: string, max: nat, j: nat)
    requires j < |segments| && Strip(segments[j].text) != "" && SpokenBefore(segments, j) < max
    ensures SpokenBefore(segments, j) < |FallbackFromSegments(segments, style, max)|
    ensures var c, l := FallbackFromSegments(segments, style, max)[SpokenBefore(segments, j)], segments[j];
            var start := if l.start.Some? then l.start.value else 0.0;
            && c.verse == Strip(l.text) && c.start == start && c.transition == "cut"
            && c.end == (if l.end.Some? && l.end.value > start then l.end.value else start + 5.0)
            && c.duration == Round3(c.end - c.start) && c.verse <= c.prompt
  {
    hide Strip, Round3, FallbackScene;
    SegmentScene(segments[j], style);
    SegmentAt(segments, style, max, j);
  }

  lemma SegmentScene(l: Line, style: string)
    ensures var c := FallbackScene(l, style);
            var start := if l.start.Some? then l.start.value else 0.0;
            && c.verse == Strip(l.text) && c.start == start && c.transition == "cut"
            && c.end == (if l.end.Some? && l.end.value > start then l.end.value else start + 5.0)
            && c.duration == Round3(c.end - c.start) && c.verse <= c.prompt
  {
    hide Strip, Round3;
  }

  lemma {:induction false} SegmentAt(segments: seq<Line>, style: string, max: nat, j: nat)
    requires j < |segments| && Strip(segments[j].text) != "" && SpokenBefore(segments, j) < max
    ensures SpokenBefore(segments, j) < |FallbackFromSegments(segments, style, max)|
    ensures FallbackFromSegments(segments, style, max)[SpokenBefore(segments, j)] == FallbackScene(segments[j], style)
  {
    var n := |segments| - 1;
    hide Strip, FallbackScene;
    FallbackLength(segments[..n], style, max);
    SameSpokenBefore(segments, n, n);
    SameSpokenBefore(segments, n, j);
    if j < n { SegmentAt(segments[..n], style, max, j); }
  }

  function WrittenBefore(lines: seq<string>, n: nat): nat
    requires n <= |lines|
  {
    if n == 0 then 0 else WrittenBefore(lines, n - 1) + if Strip(lines[n - 1]) != "" then 1 else 0
  }

  lemma {:induction false} SameWrittenBefore(lines: seq<string>, m: nat, n: nat)
    requires n <= m <= |lines|
    ensures WrittenBefore(lines[..m], n) == WrittenBefore(lines, n)
  {
    hide Strip;
    if n > 0 { SameWrittenBefore(lines, m, n - 1); }
  }

  lemma {:induction false} WrittenLines(lines: seq<string>, j: nat)
    requires j <= |lines|
    ensures |NonBlank(lines)| == WrittenBefore(lines, |lines|)
    ensures j < |lines| && Strip(lines[j]) != "" ==>
              WrittenBefore(lines, j) < |NonBlank(lines)| && NonBlank(lines)[WrittenBefore(lines, j)] == Strip(lines[j])
  {
    hide Strip;
    if lines != [] {
      var n := |lines| - 1;
      WrittenLines(lines[..n], if j < n then j else n);
      SameWrittenBefore(lines, n, n);
      if j < n { SameWrittenBefore(lines, n, j); }
    }
  }

  // Without segments every written line becomes a scene of five seconds, one after the
  // other; without lines there is one instrumental scene.
  lemma LineBecomesScene(src: Source, k: nat)
    requires FallbackFromSegments(src.segments, src.style, src.maxScenes) == [] && k < |Fallback(src)|
    ensures var c, n := Fallback(src)[k], WrittenBefore(src.lines, |src.lines|);
            && |Fallback(src)| == Min(if n == 0 then 1 else n, src.maxScenes)
            && c.start == 5.0 * k as real && c.end == c.start + 5.0 && c.duration == 5.0 && c.transition == "cut"
            && (n == 0 ==> c.verse == "instrumental moment, emotive cinematic atmosphere")
            && forall j :: 0 <= j < |src.lines| && Strip(src.lines[j]) != "" && WrittenBefore(src.lines, j) == k ==>
                 c.verse == Strip(src.lines[j])
  {
    var lines := if NonBlank(src.lines) != [] then NonBlank(src.lines) else [INSTRUMENTAL];
    FallbackIsLines(src, lines);
    LineScene(lines[k], k, src.style);
    WrittenLines(src.lines, |src.lines|);
    hide Fallback, FallbackLine, Strip, NonBlank, FallbackFromSegments, WrittenBefore;
    forall j | 0 <= j < |src.lines| && Strip(src.lines[j]) != "" && WrittenBefore(src.lines, j) == k
      ensures lines[k] == Strip(src.lines[j])
    {
      WrittenLines(src.lines, j);
    }
  }

  lemma FallbackIsLines(src: Source, lines: seq<string>)
    requires FallbackFromSegments(src.segments, src.style, src.maxScenes) == []
    requires lines == if NonBlank(src.lines) != [] then NonBlank(src.lines) else [INSTRUMENTAL]
    ensures |Fallback(src)| == Min(|lines|, src.maxScenes)
    ensures forall k :: 0 <= k < |Fallback(src)| ==> Fallback(src)[k] == FallbackLine(lines[k], k, src.style)
  {
    hide FallbackFromSegments, NonBlank, FallbackLine;
  }

  lemma LineScene(line: string, k: nat, style: string)
    ensures var c := FallbackLine(line, k, style);
            && c.verse == line && c.start == 5.0 * k as real && c.end == c.start + 5.0 && c.duration == 5.0
            && c.transition == "cut"
  {
    hide VisualPrompt;
    assert (k * 5) as real == 5.0 * k as real;
  }
}
