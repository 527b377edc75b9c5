// Sanitising an analysis payload and building fallback scenes
// (scripts/analyze_lyrics.py, sanitize_analysis_payload and build_fallback_scenes).
module Sanitising {
  import opened Common
  import opened Text
  import opened Rounding

  // An entry of the incoming scene list.  A time is absent when it is missing or
  // not a number.
  datatype Raw =
    | NotADict
    | Dict(verse: string, start: Option<real>, end: Option<real>, duration: Option<real>, prompt: string,
      transition: string)

  datatype Clean = Clean(verse: string, start: real, end: real, duration: real, prompt: string, transition: string)

  // A transcription segment as the fallback reads it.
  datatype Line = Line(text: string, start: Option<real>, end: Option<real>)

  // Lyrics, segments, visual style and scene limit.
  datatype Source = Source(lines: seq<string>, segments: seq<Line>, style: string, maxScenes: nat)

  function Or(x: Option<real>, default: real): real { if x.Some? then x.value else default }

  function VisualPrompt(verse: string, style: string): string {
    verse + ", dressed in casual clothes, natural pose, face focus, " + style
      + ", high quality, dramatic lighting, cinematic"
  }

  function Numeral(n: nat): string {
    if n < 10 then [('0' as int + n) as char] else Numeral(n / 10) + [('0' as int + n % 10) as char]
  }

  // ---- one scene ---------------------------------------------------------

  function RawStart(i: nat, r: Raw): real
    requires r.Dict?
  {
    Or(r.start, (i * 5) as real)
  }

  function RawEnd(i: nat, r: Raw): (end: real)
    requires r.Dict?
    ensures end > RawStart(i, r)
  {
    var start := RawStart(i, r);
    var d := Or(r.duration, 5.0);
    var end := Or(r.end, start + if d >= 1.0 then d else 1.0);
    if end <= start then start + 5.0 else end
  }

  function SanitiseOne(i: nat, r: Raw, style: string): Clean
    requires r.Dict?
  {
    var verse := if Strip(r.verse) != "" then Strip(r.verse) else "scene " + Numeral(i + 1);
    var prompt := if Strip(r.prompt) != "" then Strip(r.prompt) else VisualPrompt(verse, style);
    var t := Strip(r.transition);
    Clean(verse, Round3(RawStart(i, r)), Round3(RawEnd(i, r)), Round3(RawEnd(i, r) - RawStart(i, r)), prompt,
          if t == "fade" || t == "cut" || t == "dissolve" then t else "cut")
  }

  // ---- the whole list ----------------------------------------------------

  function SanitiseFrom(raws: seq<Raw>, style: string): seq<Clean> {
    if raws == [] then []
    else
      var n := |raws| - 1;
      SanitiseFrom(raws[..n], style) + if raws[n].Dict? then [SanitiseOne(n, raws[n], style)] else []
  }

  function FallbackScene(l: Line, style: string): Clean {
    var text := Strip(l.text);
    var start := Or(l.start, 0.0);
    var given := Or(l.end, start + 5.0);
    var end := if given <= start then start + 5.0 else given;
    Clean(text, start, end, Round3(end - start), VisualPrompt(text, style), "cut")
  }

  function FallbackFromSegments(segments: seq<Line>, style: string, max: nat): seq<Clean> {
    if segments == [] then []
    else
      var before := FallbackFromSegments(segments[..|segments| - 1], style, max);
      var last := segments[|segments| - 1];
      if |before| >= max || Strip(last.text) == "" then before else before + [FallbackScene(last, style)]
  }

  function NonBlank(lines: seq<string>): seq<string> {
    if lines == [] then []
    else
      NonBlank(lines[..|lines| - 1])
      + if Strip(lines[|lines| - 1]) != "" then [Strip(lines[|lines| - 1])] else []
  }

  const INSTRUMENTAL := "instrumental moment, emotive cinematic atmosphere"

  function FallbackLine(line: string, k: nat, style: string): Clean {
    Clean(line, (k * 5) as real, (k * 5) as real + 5.0, 5.0, VisualPrompt(line, style), "cut")
  }

  function Fallback(src: Source): seq<Clean> {
    var fromSegments := FallbackFromSegments(src.segments, src.style, src.maxScenes);
    if fromSegments != [] then fromSegments
    else
      var lines := if NonBlank(src.lines) != [] then NonBlank(src.lines) else [INSTRUMENTAL];
      seq(Min(|lines|, src.maxScenes),
        k requires 0 <= k < Min(|lines|, src.maxScenes) => FallbackLine(lines[k], k, src.style))
  }

  function AsRaw(c: Clean): Raw { Dict(c.verse, Some(c.start), Some(c.end), Some(c.duration), c.prompt, c.transition) }

  function AsRaws(cs: seq<Clean>): (rs: seq<Raw>)
    ensures |rs| == |cs| && forall k :: 0 <= k < |cs| ==> rs[k] == AsRaw(cs[k])
  {
    seq(|cs|, k requires 0 <= k < |cs| => AsRaw(cs[k]))
  }

  // The entries that are looked at: fallback scenes for an empty list, cut at the limit.
  function Input(raws: seq<Raw>, src: Source): (input: seq<Raw>)
    ensures |input| <= src.maxScenes
  {
    var scenes := if raws == [] then AsRaws(Fallback(src)) else raws;
    scenes[..Min(|scenes|, src.maxScenes)]
  }

  function Sanitise(raws: seq<Raw>, src: Source): seq<Clean> {
    var clean := SanitiseFrom(Input(raws, src), src.style);
    if clean == [] then Fallback(src) else clean
  }

  // ---- the code ----------------------------------------------------------

  method BuildFallbackScenes(src: Source) returns (scenes: seq<Clean>)
    ensures scenes == Fallback(src)
  {
    hide VisualPrompt, NonBlank, FallbackFromSegments;
    scenes := ScenesFromSegments(src.segments, src.style, src.maxScenes);
    if scenes != [] { return; }
    var lines := NonBlankLines(src.lines);
    if lines == [] { lines := [INSTRUMENTAL]; }
    for k := 0 to Min(|lines|, src.maxScenes)
      invariant |scenes| == k && forall j :: 0 <= j < k ==> scenes[j] == FallbackLine(lines[j], j, src.style)
    {
      var start := (k * 5) as real;
      scenes := scenes + [Clean(lines[k], start, start + 5.0, 5.0, VisualPrompt(lines[k], src.style), "cut")];
    }
  }

  method ScenesFromSegments(segs: seq<Line>, style: string, max: nat) returns (scenes: seq<Clean>)
    ensures scenes == FallbackFromSegments(segs, style, max)
  {
    hide Strip, Round3, VisualPrompt;
    scenes := [];
    var i := 0;
    while i < |segs| && |scenes| < max
      invariant i <= |segs|
      invariant scenes == FallbackFromSegments(segs[..i], style, max)
    {
      assert segs[..i + 1][..i] == segs[..i];
      var seg := segs[i];
      i := i + 1;
      var text := Strip(seg.text);
      if text == "" { continue; }
      var start := Or(seg.start, 0.0);
      var end := Or(seg.end, start + 5.0);
      if end <= start { end := start + 5.0; }
      scenes := scenes + [Clean(text, start, end, Round3(end - start), VisualPrompt(text, style), "cut")];
    }
    if i < |segs| { FullIsFull(segs, style, max, i); }
    assert segs[..|segs|] == segs;
  }

  // Once the limit is reached, further segments change nothing.
  lemma {:induction false} FullIsFull(segs: seq<Line>, style: string, max: nat, i: nat)
    requires i <= |segs| && |FallbackFromSegments(segs[..i], style, max)| >= max
    ensures FallbackFromSegments(segs, style, max) == FallbackFromSegments(segs[..i], style, max)
    decreases |segs|
  {
    if i < |segs| {
      var front := segs[..|segs| - 1];
      assert front[..i] == segs[..i];
      FullIsFull(front, style, max, i);
    } else {
      assert segs[..i] == segs;
    }
  }

  method NonBlankLines(lines: seq<string>) returns (kept: seq<string>)
    ensures kept == NonBlank(lines)
  {
    kept := [];
    for i := 0 to |lines|
      invariant kept == NonBlank(lines[..i])
    {
      assert lines[..i + 1][..i] == lines[..i];
      if Strip(lines[i]) != "" { kept := kept + [Strip(lines[i])]; }
    }
    assert lines[..|lines|] == lines;
  }

  method SanitizeAnalysisPayload(raws: seq<Raw>, src: Source) returns (scenes: seq<Clean>)
    ensures scenes == Sanitise(raws, src)
  {
    hide SanitiseOne, Fallback;
    var list := raws;
    if raws == [] {
      var fallback := BuildFallbackScenes(src);
      list := AsRaws(fallback);
    }
    var capped := list[..Min(|list|, src.maxScenes)];
    scenes := [];
    for i := 0 to |capped|
      invariant scenes == SanitiseFrom(capped[..i], src.style)
    {
      assert capped[..i + 1][..i] == capped[..i];
      var scene := capped[i];
      if scene.NotADict? { continue; }
      var clean := CleanScene(i, scene, src.style);
      scenes := scenes + [clean];
    }
    assert capped[..|capped|] == capped;
    if scenes == [] { scenes := BuildFallbackScenes(src); }
  }

  method CleanScene(i: nat, scene: Raw, style: string) returns (clean: Clean)
    requires scene.Dict?
    ensures clean == SanitiseOne(i, scene, style)
  {
    hide Strip, Round3, VisualPrompt, Numeral;
    var verse := Strip(scene.verse);
    if verse == "" { verse := "scene " + Numeral(i + 1); }
    var start := Or(scene.start, (i * 5) as real);
    var minimum := Or(scene.duration, 5.0);
    if minimum < 1.0 { minimum := 1.0; }
    var end := Or(scene.end, start + minimum);
    if end <= start { end := start + 5.0; }
    var duration := end - start;
    var prompt := Strip(scene.prompt);
    if prompt == "" { prompt := VisualPrompt(verse, style); }
    var transition := Strip(scene.transition);
    if transition != "fade" && transition != "cut" && transition != "dissolve" { transition := "cut"; }
    clean := Clean(verse, Round3(start), Round3(end), Round3(duration), prompt, transition);
  }

  // ---- what sanitising guarantees ----------------------------------------

  // Durations agree with the times to a millisecond, never run backwards, and all
  // three are whole milliseconds.
  ghost predicate Timed(c: Clean) {
    && c.start <= c.end && 0.0 <= c.duration
    && -0.001 <= c.duration - (c.end - c.start) <= 0.001
  }

  // Rounding a difference against the difference of the roundings.
  lemma RoundedDifference(s: real, e: real)
    requires s <= e
    ensures -0.001 <= Round3(e - s) - (Round3(e) - Round3(s)) <= 0.001
    ensures Round3(s) <= Round3(e) && 0.0 <= Round3(e - s)
  {
    var a, b, c := HalfEven((e - s) * 1000.0), HalfEven(e * 1000.0), HalfEven(s * 1000.0);
    HalfEvenIsNearest((e - s) * 1000.0);
    HalfEvenIsNearest(e * 1000.0);
    HalfEvenIsNearest(s * 1000.0);
    assert (e - s) * 1000.0 == e * 1000.0 - s * 1000.0;
    hide HalfEven;
    assert -1.5 <= (a - (b - c)) as real <= 1.5;
    assert -1 <= a - (b - c) <= 1;
    Round3Monotone(s, e);
    HalfEvenOfInt(0);
    HalfEvenMonotone(0.0, (e - s) * 1000.0);
  }

  // A scene's times before rounding; the end is always after the start.
  lemma SanitiseOneIsTimed(i: nat, r: Raw, style: string)
    requires r.Dict?
    ensures Timed(SanitiseOne(i, r, style))
    ensures WholeMillis(SanitiseOne(i, r, style).start) && WholeMillis(SanitiseOne(i, r, style).end)
    ensures WholeMillis(SanitiseOne(i, r, style).duration)
    // The rounded end is still after the rounded start when more than a
    // millisecond separates them.
    ensures RawEnd(i, r) - RawStart(i, r) > 0.001 ==> SanitiseOne(i, r, style).start < SanitiseOne(i, r, style).end
  {
    hide WholeMillis, Round3, Strip, VisualPrompt, Numeral;
    var s, e := RawStart(i, r), RawEnd(i, r);
    RoundedDifference(s, e);
    Round3Monotone(s, e);
    Round3FixesMillis(s);
    Round3FixesMillis(e);
    Round3FixesMillis(e - s);
  }

  // On whole milliseconds nothing is lost: end after start, and the duration is
  // exactly their distance.
  lemma SanitiseOneOnMillis(i: nat, r: Raw, style: string)
    requires r.Dict? && WholeMillis(RawStart(i, r)) && WholeMillis(RawEnd(i, r))
    ensures var c := SanitiseOne(i, r, style);
            && c.start == RawStart(i, r) && c.end == RawEnd(i, r) && c.start < c.end
            && c.duration == c.end - c.start
  {
    MillisAddUp(RawEnd(i, r), RawStart(i, r));
    Round3FixesMillis(RawStart(i, r));
    Round3FixesMillis(RawEnd(i, r));
    Round3FixesMillis(RawEnd(i, r) - RawStart(i, r));
  }

  // Sanitising a sanitised scene changes nothing exactly when rounding kept the end
  // after the start and the duration equal to their distance.
  lemma SanitiseOneTwiceIff(i: nat, j: nat, r: Raw, style: string)
    requires r.Dict?
    ensures var s, e := RawStart(i, r), RawEnd(i, r);
            SanitiseOne(j, AsRaw(SanitiseOne(i, r, style)), style) == SanitiseOne(i, r, style)
            <==> Round3(s) != Round3(e) && Round3(e - s) == Round3(e) - Round3(s)
  {
    var c := SanitiseOne(i, r, style);
    SanitiseOneIsTimed(i, r, style);
    TextIsStable(i, r, style);
    hide Strip, VisualPrompt, Numeral;
    if c.start < c.end {
      assert RawEnd(j, AsRaw(c)) == c.end;
      SanitiseOneOnMillis(j, AsRaw(c), style);
    } else {
      assert c.start == c.end && RawEnd(j, AsRaw(c)) == c.end + 5.0;
      assert WholeMillis(5.0) by { HalfEvenOfInt(5000); }
      MillisAddUp(c.end, 5.0);
      SanitiseOneOnMillis(j, AsRaw(c), style);
    }
  }

  // The text fields come out trimmed and non-empty.
  lemma TextIsStable(i: nat, r: Raw, style: string)
    requires r.Dict?
    ensures var c := SanitiseOne(i, r, style);
            && c.verse != "" && Strip(c.verse) == c.verse
            && c.prompt != "" && Strip(c.prompt) == c.prompt
            && Strip(c.transition) == c.transition
            && (c.transition == "fade" || c.transition == "cut" || c.transition == "dissolve")
  {
    hide Round3, RawStart, RawEnd, Strip, VisualPrompt, Numeral;
    var c := SanitiseOne(i, r, style);
    SceneNumberIsTrimmed(i + 1);
    if Strip(r.prompt) == "" { VisualPromptIsTrimmed(c.verse, style); }
  }

  lemma SceneNumberIsTrimmed(n: nat)
    ensures Trimmed("scene " + Numeral(n))
  {
    NumeralIsDigits(n);
  }

  lemma {:induction false} NumeralIsDigits(n: nat)
    ensures Numeral(n) != [] && forall k :: 0 <= k < |Numeral(n)| ==> '0' <= Numeral(n)[k] <= '9'
  {
    if n >= 10 { NumeralIsDigits(n / 10); }
  }

  // ---- the list ----------------------------------------------------------

  lemma {:induction false} FallbackScenesAreTimed(segments: seq<Line>, style: string, max: nat)
    ensures var cs := FallbackFromSegments(segments, style, max);
            |cs| <= max && forall k :: 0 <= k < |cs| ==> Timed(cs[k]) && cs[k].start < cs[k].end
  {
    if segments != [] {
      FallbackScenesAreTimed(segments[..|segments| - 1], style, max);
      FallbackSceneIsTimed(segments[|segments| - 1], style);
    }
  }

  lemma FallbackSceneIsTimed(l: Line, style: string)
    ensures Timed(FallbackScene(l, style)) && FallbackScene(l, style).start < FallbackScene(l, style).end
  {
    hide Strip, VisualPrompt;
    var c := FallbackScene(l, style);
    Round3IsNearest(c.end - c.start);
    HalfEvenOfInt(0);
    Round3Monotone(0.0, c.end - c.start);
  }

  lemma FallbackIsUsable(src: Source)
    requires src.maxScenes >= 1
    ensures 1 <= |Fallback(src)| <= src.maxScenes
    ensures forall k :: 0 <= k < |Fallback(src)| ==>
            Timed(Fallback(src)[k]) && Fallback(src)[k].start < Fallback(src)[k].end
  {
    hide VisualPrompt, Strip, FallbackFromSegments, NonBlank, Timed;
    FallbackScenesAreTimed(src.segments, src.style, src.maxScenes);
    forall line, k: nat
      ensures Timed(FallbackLine(line, k, src.style))
              && FallbackLine(line, k, src.style).start < FallbackLine(line, k, src.style).end
    {
      FallbackLineIsTimed(line, k, src.style);
    }
  }

  lemma FallbackLineIsTimed(line: string, k: nat, style: string)
    ensures Timed(FallbackLine(line, k, style)) && FallbackLine(line, k, style).start < FallbackLine(line, k, style).end
  {
  }

  lemma {:induction false} SanitiseFromIsTimed(raws: seq<Raw>, style: string)
    ensures |SanitiseFrom(raws, style)| <= |raws|
    ensures forall k :: 0 <= k < |SanitiseFrom(raws, style)| ==> Timed(SanitiseFrom(raws, style)[k])
    ensures (exists i :: 0 <= i < |raws| && raws[i].Dict?) ==> SanitiseFrom(raws, style) != []
  {
    hide SanitiseOne;
    if raws != [] {
      var n := |raws| - 1;
      SanitiseFromIsTimed(raws[..n], style);
      if raws[n].Dict? { SanitiseOneIsTimed(n, raws[n], style); }
      if i :| 0 <= i < |raws| && raws[i].Dict? && i < n { assert raws[..n][i].Dict?; }
    }
  }

  // Whatever comes in, the scene list that goes out is not empty, not too long, and
  // its times and durations agree to a millisecond.  Every scene ends after it starts
  // exactly when no entry's times round to the same millisecond; entries that run
  // backwards are no exception, because they have been given five seconds.
  lemma SanitisedListIsUsable(raws: seq<Raw>, src: Source)
    requires src.maxScenes >= 1
    ensures 1 <= |Sanitise(raws, src)| <= src.maxScenes
    ensures forall k :: 0 <= k < |Sanitise(raws, src)| ==> Timed(Sanitise(raws, src)[k])
    ensures Forward(Sanitise(raws, src)) <==> AllNoticeable(Input(raws, src))
  {
    FallbackIsUsable(src);
    SanitiseFromIsTimed(Input(raws, src), src.style);
    ForwardFrom(Input(raws, src), src.style);
  }

  ghost predicate Forward(cs: seq<Clean>) { forall k :: 0 <= k < |cs| ==> cs[k].start < cs[k].end }

  ghost predicate Noticeable(i: nat, r: Raw)
    requires r.Dict?
  {
    !SameMilli(RawStart(i, r), RawEnd(i, r))
  }

  ghost predicate AllNoticeable(raws: seq<Raw>) {
    forall i :: 0 <= i < |raws| && raws[i].Dict? ==> Noticeable(i, raws[i])
  }

  // The scenes to worry about are those given a positive length of at most a millisecond.
  lemma UnnoticeableIsShort(i: nat, r: Raw)
    requires r.Dict? && !Noticeable(i, r)
    ensures 0.0 < RawEnd(i, r) - RawStart(i, r) <= 0.001
    ensures r.end.Some? && r.end.value == RawEnd(i, r)
  {
    SameMilliIff(RawStart(i, r), RawEnd(i, r));
    hide SameMilli;
  }

  lemma ForwardOne(i: nat, r: Raw, style: string)
    requires r.Dict?
    ensures SanitiseOne(i, r, style).start < SanitiseOne(i, r, style).end <==> Noticeable(i, r)
  {
    SameMilliIff(RawStart(i, r), RawEnd(i, r));
    Round3Monotone(RawStart(i, r), RawEnd(i, r));
    hide SameMilli, Round3;
  }

  lemma {:induction false} ForwardFrom(raws: seq<Raw>, style: string)
    ensures Forward(SanitiseFrom(raws, style)) <==> AllNoticeable(raws)
  {
    hide SanitiseOne, Noticeable;
    if raws != [] {
      var n := |raws| - 1;
      ForwardFrom(raws[..n], style);
      AllNoticeableSnoc(raws);
      if raws[n].Dict? {
        ForwardOne(n, raws[n], style);
        ForwardSnoc(SanitiseFrom(raws[..n], style), SanitiseOne(n, raws[n], style));
      } else {
        assert SanitiseFrom(raws, style) == SanitiseFrom(raws[..n], style);
      }
    }
  }

  lemma ForwardSnoc(cs: seq<Clean>, c: Clean)
    ensures Forward(cs + [c]) <==> Forward(cs) && c.start < c.end
  {
    assert (cs + [c])[|cs|] == c;
    assert forall k :: 0 <= k < |cs| ==> (cs + [c])[k] == cs[k];
  }

  lemma AllNoticeableSnoc(raws: seq<Raw>)
    requires raws != []
    ensures var n := |raws| - 1; AllNoticeable(raws) <==>
            AllNoticeable(raws[..n]) && (raws[n].Dict? ==> Noticeable(n, raws[n]))
  {
    hide Noticeable;
    var n := |raws| - 1;
    assert forall i :: 0 <= i < n ==> raws[..n][i] == raws[i];
  }

  // ---- sanitising twice --------------------------------------------------

  // The incoming times round to different milliseconds, and are rounded alike.
  ghost predicate Stable(i: nat, r: Raw)
    requires r.Dict?
  {
    Noticeable(i, r) && RoundedAlike(RawStart(i, r), RawEnd(i, r))
  }

  ghost predicate AllStable(raws: seq<Raw>) {
    forall i :: 0 <= i < |raws| && raws[i].Dict? ==> Stable(i, raws[i])
  }

  lemma {:induction false} TwiceFrom(raws: seq<Raw>, style: string)
    ensures SanitiseFrom(AsRaws(SanitiseFrom(raws, style)), style) == SanitiseFrom(raws, style) <==> AllStable(raws)
    ensures |SanitiseFrom(AsRaws(SanitiseFrom(raws, style)), style)| == |SanitiseFrom(raws, style)|
  {
    if raws == [] { return; }
    var n := |raws| - 1;
    var once := SanitiseFrom(raws[..n], style);
    TwiceFrom(raws[..n], style);
    LastEntry(raws, style);
    hide *;
    AllStableSnoc(raws);
    if raws[n].Dict? {
      var c := SanitiseOne(n, raws[n], style);
      SanitiseStableIff(n, |once|, raws[n], style);
      SanitiseSnoc(once, c, style);
      SameSnoc(SanitiseFrom(AsRaws(once), style), SanitiseOne(|once|, AsRaw(c), style), once, c);
    }
  }

  lemma LastEntry(raws: seq<Raw>, style: string)
    requires raws != []
    ensures var n := |raws| - 1;
            SanitiseFrom(raws, style) ==
            if raws[n].Dict? then SanitiseFrom(raws[..n], style) + [SanitiseOne(n, raws[n], style)]
              else SanitiseFrom(raws[..n], style)
  {
    hide SanitiseOne;
  }

  lemma SameSnoc(a: seq<Clean>, x: Clean, b: seq<Clean>, y: Clean)
    requires |a| == |b|
    ensures a + [x] == b + [y] <==> a == b && x == y
  {
    if a + [x] == b + [y] {
      assert a == (a + [x])[..|a|] && b == (b + [y])[..|b|];
      assert (a + [x])[|a|] == x && (b + [y])[|b|] == y;
    }
  }

  lemma SanitiseSnoc(cs: seq<Clean>, c: Clean, style: string)
    ensures SanitiseFrom(AsRaws(cs + [c]), style)
            == SanitiseFrom(AsRaws(cs), style) + [SanitiseOne(|cs|, AsRaw(c), style)]
  {
    hide SanitiseOne;
    assert AsRaws(cs + [c])[..|cs|] == AsRaws(cs);
  }

  lemma SanitiseStableIff(i: nat, j: nat, r: Raw, style: string)
    requires r.Dict?
    ensures SanitiseOne(j, AsRaw(SanitiseOne(i, r, style)), style) == SanitiseOne(i, r, style) <==> Stable(i, r)
  {
    hide *;
    SanitiseOneTwiceIff(i, j, r, style);
    StableIff(i, r);
  }

  lemma StableIff(i: nat, r: Raw)
    requires r.Dict?
    ensures var s, e := RawStart(i, r), RawEnd(i, r);
            Stable(i, r) <==> Round3(s) != Round3(e) && Round3(e - s) == Round3(e) - Round3(s)
  {
    hide Round3, SameMilli, RoundedAlike, RawStart, RawEnd;
    SameMilliIff(RawStart(i, r), RawEnd(i, r));
    RoundedAlikeIff(RawStart(i, r), RawEnd(i, r));
  }

  lemma AllStableSnoc(raws: seq<Raw>)
    requires raws != []
    ensures var n := |raws| - 1; AllStable(raws) <==> AllStable(raws[..n]) && (raws[n].Dict? ==> Stable(n, raws[n]))
  {
    hide Stable;
    var n := |raws| - 1;
    assert forall i :: 0 <= i < n ==> raws[..n][i] == raws[i];
  }

  ghost predicate SomeDict(raws: seq<Raw>) { exists i :: 0 <= i < |raws| && raws[i].Dict? }

  // Sanitising twice is sanitising once exactly when rounding harms no entry that is
  // kept.  A list without a usable entry is replaced by unrounded fallback scenes,
  // and then their times have to be whole milliseconds.
  lemma SanitiseTwiceIff(raws: seq<Raw>, src: Source)
    requires src.maxScenes >= 1
    ensures Sanitise(AsRaws(Sanitise(raws, src)), src) == Sanitise(raws, src) <==>
            if SomeDict(Input(raws, src)) then AllStable(Input(raws, src))
            else forall k :: 0 <= k < |Fallback(src)| ==>
                 WholeMillis(Fallback(src)[k].start) && WholeMillis(Fallback(src)[k].end)
  {
    hide Fallback, SanitiseOne, Stable;
    var once := Sanitise(raws, src);
    FallbackIsUsable(src);
    SanitiseFromIsTimed(Input(raws, src), src.style);
    assert AsRaws(once)[..Min(|once|, src.maxScenes)] == AsRaws(once);
    assert Input(AsRaws(once), src) == AsRaws(once);
    if SomeDict(Input(raws, src)) {
      TwiceFrom(Input(raws, src), src.style);
    } else {
      NoDicts(Input(raws, src), src.style);
      FallbackTwice(src);
    }
  }

  lemma {:induction false} NoDicts(raws: seq<Raw>, style: string)
    requires !SomeDict(raws)
    ensures SanitiseFrom(raws, style) == []
  {
    if raws != [] {
      var front := raws[..|raws| - 1];
      assert forall i :: 0 <= i < |front| ==> front[i] == raws[i];
      NoDicts(front, style);
    }
  }

  lemma {:induction false} SanitiseFromAsRaws(cs: seq<Clean>, style: string)
    ensures |SanitiseFrom(AsRaws(cs), style)| == |cs|
    ensures forall k :: 0 <= k < |cs| ==> SanitiseFrom(AsRaws(cs), style)[k] == SanitiseOne(k, AsRaw(cs[k]), style)
  {
    hide SanitiseOne;
    if cs != [] {
      SanitiseFromAsRaws(cs[..|cs| - 1], style);
      assert AsRaws(cs)[..|cs| - 1] == AsRaws(cs[..|cs| - 1]);
    }
  }

  // A fallback scene has text that sanitising keeps, and a rounded duration.
  ghost predicate FallbackOk(c: Clean, style: string) {
    && c.start < c.end && c.duration == Round3(c.end - c.start)
    && c.verse != "" && Trimmed(c.verse) && c.prompt != "" && Trimmed(c.prompt) && c.transition == "cut"
  }

  lemma VisualPromptIsTrimmed(verse: string, style: string)
    requires verse != "" && Trimmed(verse)
    ensures Trimmed(VisualPrompt(verse, style)) && VisualPrompt(verse, style) != ""
  {
    var p := VisualPrompt(verse, style);
    assert p[0] == verse[0] && p[|p| - 1] == 'c';
  }

  lemma {:induction false} NonBlankIsTrimmed(lines: seq<string>)
    ensures forall k :: 0 <= k < |NonBlank(lines)| ==> NonBlank(lines)[k] != "" && Trimmed(NonBlank(lines)[k])
  {
    if lines != [] { NonBlankIsTrimmed(lines[..|lines| - 1]); }
  }

  lemma {:induction false} SegmentFallbackOk(segments: seq<Line>, style: string, max: nat)
    ensures forall k :: 0 <= k < |FallbackFromSegments(segments, style, max)| ==>
            FallbackOk(FallbackFromSegments(segments, style, max)[k], style)
  {
    hide VisualPrompt, Round3;
    if segments != [] {
      SegmentFallbackOk(segments[..|segments| - 1], style, max);
      var text := Strip(segments[|segments| - 1].text);
      if text != "" { VisualPromptIsTrimmed(text, style); }
    }
  }

  lemma InstrumentalIsTrimmed()
    ensures INSTRUMENTAL != "" && Trimmed(INSTRUMENTAL)
  {
    var text := INSTRUMENTAL;
    assert text[..24] == "instrumental moment, emo";
    assert text[0] == text[..24][0] == 'i' && text[|text| - 1] == 'e';
  }

  lemma LineFallbackOk(line: string, k: nat, style: string)
    requires line != "" && Trimmed(line)
    ensures FallbackOk(FallbackLine(line, k, style), style)
  {
    VisualPromptIsTrimmed(line, style);
    HalfEvenOfInt(5000);
    hide VisualPrompt;
  }

  lemma FallbackIsOk(src: Source)
    ensures forall k :: 0 <= k < |Fallback(src)| ==> FallbackOk(Fallback(src)[k], src.style)
  {
    hide FallbackOk, NonBlank, FallbackFromSegments, Strip, VisualPrompt, FallbackLine;
    SegmentFallbackOk(src.segments, src.style, src.maxScenes);
    if FallbackFromSegments(src.segments, src.style, src.maxScenes) == [] {
      NonBlankIsTrimmed(src.lines);
      InstrumentalIsTrimmed();
      var lines := if NonBlank(src.lines) != [] then NonBlank(src.lines) else [INSTRUMENTAL];
      forall k | 0 <= k < Min(|lines|, src.maxScenes)
        ensures FallbackOk(FallbackLine(lines[k], k, src.style), src.style)
      {
        LineFallbackOk(lines[k], k, src.style);
      }
    }
  }

  lemma FallbackSceneTwice(j: nat, c: Clean, style: string)
    requires FallbackOk(c, style)
    ensures SanitiseOne(j, AsRaw(c), style) == c <==> WholeMillis(c.start) && WholeMillis(c.end)
  {
    Round3FixesMillis(c.start);
    Round3FixesMillis(c.end);
    assert RawStart(j, AsRaw(c)) == c.start && RawEnd(j, AsRaw(c)) == c.end;
    assert Strip(c.verse) == c.verse && Strip(c.prompt) == c.prompt && Strip("cut") == "cut";
    hide Round3, WholeMillis, Strip, VisualPrompt, Numeral;
  }

  lemma FallbackTwice(src: Source)
    ensures var f := Fallback(src);
            SanitiseFrom(AsRaws(f), src.style) == f <==>
              forall k :: 0 <= k < |f| ==> WholeMillis(f[k].start) && WholeMillis(f[k].end)
  {
    hide Fallback, SanitiseOne, WholeMillis, FallbackOk;
    var f := Fallback(src);
    FallbackIsOk(src);
    SanitiseFromAsRaws(f, src.style);
    forall k | 0 <= k < |f|
      ensures SanitiseFrom(AsRaws(f), src.style)[k] == f[k] <==> WholeMillis(f[k].start) && WholeMillis(f[k].end)
    {
      FallbackSceneTwice(k, f[k], src.style);
    }
  }

  // Whole milliseconds are always stable, so on lists of them sanitising twice is
  // sanitising once.
  lemma MillisAreStable(i: nat, r: Raw)
    requires r.Dict? && WholeMillis(RawStart(i, r)) && WholeMillis(RawEnd(i, r))
    ensures Stable(i, r)
  {
    var c := SanitiseOne(i, r, "");
    SanitiseOneOnMillis(i, r, "");
    SameMilliIff(RawStart(i, r), RawEnd(i, r));
    RoundedAlikeIff(RawStart(i, r), RawEnd(i, r));
    assert c.duration == Round3(RawEnd(i, r) - RawStart(i, r)) && c.start == Round3(RawStart(i, r))
           && c.end == Round3(RawEnd(i, r));
    hide SanitiseOne, Round3, SameMilli, RoundedAlike;
  }

  ghost predicate InMillis(raws: seq<Raw>) {
    forall i :: 0 <= i < |raws| && raws[i].Dict? ==>
      WholeMillis(RawStart(i, raws[i])) && WholeMillis(RawEnd(i, raws[i]))
  }

  lemma SanitiseTwiceOnMillis(raws: seq<Raw>, src: Source)
    requires src.maxScenes >= 1 && SomeDict(Input(raws, src)) && InMillis(Input(raws, src))
    ensures Sanitise(AsRaws(Sanitise(raws, src)), src) == Sanitise(raws, src)
  {
    var input := Input(raws, src);
    forall i | 0 <= i < |input| && input[i].Dict?
      ensures Stable(i, input[i])
    {
      MillisAreStable(i, input[i]);
    }
    SanitiseTwiceIff(raws, src);
  }

  // ---- where each scene comes from ---------------------------------------

  // Indices of the usable entries, in order.
  function Usable(raws: seq<Raw>): seq<nat> {
    if raws == [] then []
    else Usable(raws[..|raws| - 1]) + if raws[|raws| - 1].Dict? then [|raws| - 1] else []
  }

  lemma {:induction false} SanitiseFromUsable(raws: seq<Raw>, style: string)
    ensures |SanitiseFrom(raws, style)| == |Usable(raws)|
    ensures forall k :: 0 <= k < |Usable(raws)| ==>
              && Usable(raws)[k] < |raws| && raws[Usable(raws)[k]].Dict?
              && SanitiseFrom(raws, style)[k] == SanitiseOne(Usable(raws)[k], raws[Usable(raws)[k]], style)
  {
    hide SanitiseOne;
    if raws != [] { SanitiseFromUsable(raws[..|raws| - 1], style); }
  }

  // The length of scene k before rounding.
  function LengthOf(raws: seq<Raw>, src: Source, k: nat): real
    requires k < |Sanitise(raws, src)|
  {
    var input := Input(raws, src);
    SanitiseFromUsable(input, src.style);
    if Usable(input) == [] then Fallback(src)[k].end - Fallback(src)[k].start
    else var i := Usable(input)[k]; RawEnd(i, input[i]) - RawStart(i, input[i])
  }

  lemma DurationIsRoundedLength(raws: seq<Raw>, src: Source, k: nat)
    requires k < |Sanitise(raws, src)|
    ensures Sanitise(raws, src)[k].duration == Round3(LengthOf(raws, src, k))
  {
    hide Round3, Fallback, FallbackOk;
    SanitiseFromUsable(Input(raws, src), src.style);
    FallbackIsOk(src);
    if Usable(Input(raws, src)) == [] { FallbackDuration(Fallback(src)[k], src.style); }
  }

  lemma FallbackDuration(c: Clean, style: string)
    requires FallbackOk(c, style)
    ensures c.duration == Round3(c.end - c.start)
  {
  }

  // ---- durations ---------------------------------------------------------

  ghost predicate HonestDurations(cs: seq<Clean>) {
    forall k :: 0 <= k < |cs| ==> cs[k].duration == cs[k].end - cs[k].start
  }

  ghost predicate AllRoundedAlike(raws: seq<Raw>) {
    forall i :: 0 <= i < |raws| && raws[i].Dict? ==> RoundedAlike(RawStart(i, raws[i]), RawEnd(i, raws[i]))
  }

  lemma {:induction false} HonestFrom(raws: seq<Raw>, style: string)
    ensures HonestDurations(SanitiseFrom(raws, style)) <==> AllRoundedAlike(raws)
  {
    if raws == [] { return; }
    hide *;
    var n := |raws| - 1;
    HonestFrom(raws[..n], style);
    LastEntry(raws, style);
    AllRoundedAlikeSnoc(raws);
    if raws[n].Dict? {
      HonestOne(n, raws[n], style);
      HonestSnoc(SanitiseFrom(raws[..n], style), SanitiseOne(n, raws[n], style));
    }
  }

  lemma HonestOne(i: nat, r: Raw, style: string)
    requires r.Dict?
    ensures var c := SanitiseOne(i, r, style);
            c.duration == c.end - c.start <==> RoundedAlike(RawStart(i, r), RawEnd(i, r))
  {
    hide Round3, RoundedAlike, RawStart, RawEnd;
    RoundedAlikeIff(RawStart(i, r), RawEnd(i, r));
  }

  lemma HonestSnoc(cs: seq<Clean>, c: Clean)
    ensures HonestDurations(cs + [c]) <==> HonestDurations(cs) && c.duration == c.end - c.start
  {
    assert (cs + [c])[|cs|] == c;
    assert forall k :: 0 <= k < |cs| ==> (cs + [c])[k] == cs[k];
  }

  lemma AllRoundedAlikeSnoc(raws: seq<Raw>)
    requires raws != []
    ensures var n := |raws| - 1;
            AllRoundedAlike(raws) <==>
            AllRoundedAlike(raws[..n]) && (raws[n].Dict? ==> RoundedAlike(RawStart(n, raws[n]), RawEnd(n, raws[n])))
  {
    hide RoundedAlike, RawStart, RawEnd;
    var n := |raws| - 1;
    assert forall i :: 0 <= i < n ==> raws[..n][i] == raws[i];
  }

  lemma FallbackHonest(src: Source)
    ensures HonestDurations(Fallback(src)) <==>
            forall k :: 0 <= k < |Fallback(src)| ==> WholeMillis(Fallback(src)[k].end - Fallback(src)[k].start)
  {
    hide Fallback;
    FallbackIsOk(src);
    var f := Fallback(src);
    forall k | 0 <= k < |f|
      ensures f[k].duration == f[k].end - f[k].start <==> WholeMillis(f[k].end - f[k].start)
    {
      FallbackDuration(f[k], src.style);
      Round3FixesMillis(f[k].end - f[k].start);
    }
    hide WholeMillis;
  }

  // Every duration is exactly the distance between start and end exactly when the
  // incoming times of every kept scene are rounded alike; fallback scenes that stand
  // in for a list without a usable entry need lengths in whole milliseconds.
  lemma DurationsAreHonestIff(raws: seq<Raw>, src: Source)
    ensures HonestDurations(Sanitise(raws, src)) <==>
            if SomeDict(Input(raws, src)) then AllRoundedAlike(Input(raws, src))
            else forall k :: 0 <= k < |Fallback(src)| ==> WholeMillis(Fallback(src)[k].end - Fallback(src)[k].start)
  {
    SanitiseFromIsTimed(Input(raws, src), src.style);
    HonestFrom(Input(raws, src), src.style);
    FallbackHonest(src);
    if !SomeDict(Input(raws, src)) { NoDicts(Input(raws, src), src.style); }
    hide Fallback, SanitiseFrom, HonestDurations, AllRoundedAlike, WholeMillis;
  }
}
