// Scene times from transcription segments: alignment in place, then splitting
// (scripts/analyze_lyrics.py, align_scenes_with_segments and split_long_scenes).
module Alignment {
  import opened Common
  import opened Text

  // `norm` is the normalised text (letters and digits, lower case).
  datatype Segment = Segment(norm: string, start: real, end: real)

  const LOOK_AHEAD := 25

  predicate Matches(verse: string, seg: Segment) {
    seg.norm != "" && (Contains(verse, seg.norm) || Contains(seg.norm, verse))
  }

  // ---- the first pass, as a function of the verses and segments ----------

  // A kept scene: its index in the input, the segment it matched (or none), and
  // the times the first pass gives it.
  datatype Placed = Placed(scene: nat, seg: Option<nat>, start: real, end: real)

  // Matching resumes at segment `next`.
  datatype Cursor = Cursor(next: nat, placed: seq<Placed>)

  function WindowEnd(segs: seq<Segment>, from: nat): nat { Min(|segs|, from + LOOK_AHEAD) }

  // First match in segs[lo..hi].
  function FirstMatch(verse: string, segs: seq<Segment>, lo: nat, hi: nat): (m: Option<nat>)
    requires hi <= |segs|
    ensures m.Some? ==> lo <= m.value < hi && Matches(verse, segs[m.value])
    ensures forall j :: lo <= j < (if m.Some? then m.value else hi) ==> !Matches(verse, segs[j])
    decreases hi - lo
  {
    if lo >= hi then None
    else if Matches(verse, segs[lo]) then Some(lo)
    else FirstMatch(verse, segs, lo + 1, hi)
  }

  function PlaceNext(verse: string, segs: seq<Segment>, i: nat, c: Cursor): Cursor
    requires |segs| > 0
  {
    if verse == "" then c
    else
      var m := if c.next <= |segs| then FirstMatch(verse, segs, c.next, WindowEnd(segs, c.next)) else None;
      if m.Some? then
        Cursor(m.value + 1, c.placed + [Placed(i, m, segs[m.value].start, segs[m.value].end)])
      else
        var start := if c.placed != [] then c.placed[|c.placed| - 1].end else segs[0].start;
        Cursor(c.next, c.placed + [Placed(i, None, start, start + 5.0)])
  }

  function Place(verses: seq<string>, segs: seq<Segment>, n: nat): Cursor
    requires |segs| > 0 && n <= |verses|
  {
    if n == 0 then Cursor(0, [])
    else PlaceNext(verses[n - 1], segs, n - 1, Place(verses, segs, n - 1))
  }

  // ---- the later passes --------------------------------------------------

  // Start of kept scene k once the gap at the beginning is closed.
  function StartOf(placed: seq<Placed>, segs: seq<Segment>, k: nat): real
    requires |segs| > 0 && k < |placed|
  {
    if k == 0 && placed[0].start > segs[0].start + 2.0 then segs[0].start else placed[k].start
  }

  function EndOf(placed: seq<Placed>, segs: seq<Segment>, k: nat): real
    requires |segs| > 0 && k < |placed|
  {
    if k + 1 < |placed| then StartOf(placed, segs, k + 1)
    else
      var floor := StartOf(placed, segs, k) + 5.0;
      var end := segs[|segs| - 1].end;
      if floor >= end then floor else end
  }

  datatype Span = Span(start: real, end: real)

  function Spans(placed: seq<Placed>, segs: seq<Segment>): (spans: seq<Span>)
    requires |segs| > 0
    ensures |spans| == |placed|
    ensures forall k :: 0 <= k < |placed| ==> spans[k] == Span(StartOf(placed, segs, k), EndOf(placed, segs, k))
  {
    seq(|placed|, k requires 0 <= k < |placed| => Span(StartOf(placed, segs, k), EndOf(placed, segs, k)))
  }

  // ---- the code ----------------------------------------------------------

  // One scene dictionary; `verse` is the normalised verse text.
  class SceneRec {
    const verse: string
    var startTime: real
    var endTime: real
    var duration: real

    constructor (verse: string, startTime: real, endTime: real, duration: real)
      ensures this.verse == verse && this.startTime == startTime && this.endTime == endTime && this.duration == duration
    {
      this.verse, this.startTime, this.endTime, this.duration := verse, startTime, endTime, duration;
    }
  }

  ghost predicate Distinct(scenes: seq<SceneRec>) {
    forall i, j :: 0 <= i < j < |scenes| ==> scenes[i] != scenes[j]
  }

  function Verses(scenes: seq<SceneRec>): (vs: seq<string>)
    ensures |vs| == |scenes| && forall i :: 0 <= i < |scenes| ==> vs[i] == scenes[i].verse
  {
    seq(|scenes|, i requires 0 <= i < |scenes| => scenes[i].verse)
  }

  // The kept records are scenes[placed[k].scene], in order.
  ghost predicate Kept(scenes: seq<SceneRec>, placed: seq<Placed>, aligned: seq<SceneRec>) {
    && |aligned| == |placed|
    && (forall k :: 0 <= k < |placed| ==> placed[k].scene < |scenes| && aligned[k] == scenes[placed[k].scene])
    && (forall j, k :: 0 <= j < k < |placed| ==> placed[j].scene < placed[k].scene)
  }

  method FindMatch(verse: string, segs: seq<Segment>, from: nat) returns (best: int)
    requires from <= |segs|
    ensures best == match FirstMatch(verse, segs, from, WindowEnd(segs, from)) case Some(m) => m case None => -1
  {
    best := -1;
    var j := from;
    var hi := Min(|segs|, from + LOOK_AHEAD);
    while j < hi
      invariant from <= j <= hi && best == -1
      invariant FirstMatch(verse, segs, from, hi) == FirstMatch(verse, segs, j, hi)
    {
      if Matches(verse, segs[j]) { return j; }
      j := j + 1;
    }
  }

  method AlignScenesWithSegments(scenes: seq<SceneRec>, segs: seq<Segment>) returns (aligned: seq<SceneRec>)
    requires Distinct(scenes)
    modifies scenes
    ensures scenes == [] || segs == [] ==>
              aligned == scenes
              && forall s :: s in scenes ==>
                 s.startTime == old(s.startTime) && s.endTime == old(s.endTime) && s.duration == old(s.duration)
    ensures scenes != [] && segs != [] ==>
              var placed := Place(Verses(scenes), segs, |scenes|).placed;
              && Kept(scenes, placed, aligned)
              && forall k :: 0 <= k < |aligned| ==>
                   && aligned[k].startTime == Spans(placed, segs)[k].start
                   && aligned[k].endTime == Spans(placed, segs)[k].end
                   && aligned[k].duration == aligned[k].endTime - aligned[k].startTime
  {
    if segs == [] || scenes == [] { return scenes; }
    aligned := FirstPass(scenes, segs);
    ghost var placed := Place(Verses(scenes), segs, |scenes|).placed;
    KeptIsDistinct(scenes, placed, aligned);
    ClosePass(aligned, segs, placed);
  }

  lemma KeptIsDistinct(scenes: seq<SceneRec>, placed: seq<Placed>, aligned: seq<SceneRec>)
    requires Distinct(scenes) && Kept(scenes, placed, aligned)
    ensures Distinct(aligned) && forall k :: 0 <= k < |aligned| ==> aligned[k] in scenes
  {
  }

  ghost predicate TimesOf(aligned: seq<SceneRec>, placed: seq<Placed>)
    reads aligned
  {
    |aligned| == |placed|
    && forall k :: 0 <= k < |aligned| ==> aligned[k].startTime == placed[k].start && aligned[k].endTime == placed[k].end
  }

  method FirstPass(scenes: seq<SceneRec>, segs: seq<Segment>) returns (aligned: seq<SceneRec>)
    requires Distinct(scenes) && segs != []
    modifies scenes
    ensures var placed := Place(Verses(scenes), segs, |scenes|).placed;
            Kept(scenes, placed, aligned) && TimesOf(aligned, placed)
  {
    hide PlaceNext, Distinct, Kept, TimesOf;
    aligned := [];
    var current := 0;
    ghost var verses := Verses(scenes);
    NothingKept(scenes);
    for i := 0 to |scenes|
      invariant current == Place(verses, segs, i).next <= |segs|
      invariant KeptSoFar(scenes, Place(verses, segs, i).placed, aligned, i)
      invariant TimesOf(aligned, Place(verses, segs, i).placed)
    {
      aligned, current := PlaceScene(scenes, i, segs, aligned, current, Place(verses, segs, i));
    }
  }

  ghost predicate KeptSoFar(scenes: seq<SceneRec>, placed: seq<Placed>, aligned: seq<SceneRec>, i: nat) {
    Kept(scenes, placed, aligned) && forall k :: 0 <= k < |placed| ==> placed[k].scene < i
  }

  lemma NothingKept(scenes: seq<SceneRec>)
    ensures Kept(scenes, [], []) && TimesOf([], [])
  {
  }

  // The body of the first loop.
  method PlaceScene(scenes: seq<SceneRec>, i: nat, segs: seq<Segment>, before: seq<SceneRec>, current: nat,
                    ghost c: Cursor)
      returns (aligned: seq<SceneRec>, next: nat)
    requires Distinct(scenes) && i < |scenes| && segs != []
    requires current == c.next <= |segs| && KeptSoFar(scenes, c.placed, before, i) && TimesOf(before, c.placed)
    modifies scenes[i]
    ensures var c' := PlaceNext(scenes[i].verse, segs, i, c);
            && next == c'.next <= |segs|
            && KeptSoFar(scenes, c'.placed, aligned, i + 1)
            && TimesOf(aligned, c'.placed)
  {
    KeptLonger(scenes, c.placed, before, i);
    assert before != [] ==> before[|before| - 1].endTime == c.placed[|c.placed| - 1].end && |before| == |c.placed|;
    assert |before| == |c.placed|;
    hide FirstMatch, Matches, KeptSoFar, TimesOf, Distinct;
    aligned, next := before, current;
    var scene := scenes[i];
    if scene.verse == "" { return; }
    var best := FindMatch(scene.verse, segs, current);
    if best != -1 {
      scene.startTime := segs[best].start;
      scene.endTime := segs[best].end;
      next := best + 1;
    } else if aligned != [] {
      var prevEnd := aligned[|aligned| - 1].endTime;
      scene.startTime := prevEnd;
      scene.endTime := prevEnd + 5.0;
    } else {
      scene.startTime := segs[0].start;
      scene.endTime := segs[0].start + 5.0;
    }
    aligned := aligned + [scene];
    ghost var p := PlaceNext(scene.verse, segs, i, c).placed[|c.placed|];
    KeptSnoc(scenes, c.placed, before, i, p);
    TimesSnoc(before, c.placed, scene, p);
  }

  lemma KeptLonger(scenes: seq<SceneRec>, placed: seq<Placed>, before: seq<SceneRec>, i: nat)
    requires Distinct(scenes) && i < |scenes| && KeptSoFar(scenes, placed, before, i)
    ensures KeptSoFar(scenes, placed, before, i + 1) && scenes[i] !in before
  {
  }

  lemma KeptSnoc(scenes: seq<SceneRec>, placed: seq<Placed>, before: seq<SceneRec>, i: nat, p: Placed)
    requires i < |scenes| && KeptSoFar(scenes, placed, before, i) && p.scene == i
    ensures KeptSoFar(scenes, placed + [p], before + [scenes[i]], i + 1)
  {
  }

  lemma TimesSnoc(before: seq<SceneRec>, placed: seq<Placed>, scene: SceneRec, p: Placed)
    requires TimesOf(before, placed) && scene.startTime == p.start && scene.endTime == p.end
    ensures TimesOf(before + [scene], placed + [p])
  {
  }

  // The secondary pass: every scene but the last ends where the next one starts.
  method ChainPass(aligned: seq<SceneRec>)
    requires Distinct(aligned) && aligned != []
    modifies aligned
    ensures forall k :: 0 <= k < |aligned| ==> aligned[k].startTime == old(aligned[k].startTime)
    ensures forall k :: 0 <= k < |aligned| - 1 ==>
              && aligned[k].endTime == old(aligned[k + 1].startTime)
              && aligned[k].duration == aligned[k].endTime - aligned[k].startTime
  {
    for i := 0 to |aligned| - 1
      invariant forall k :: 0 <= k < |aligned| ==> aligned[k].startTime == old(aligned[k].startTime)
      invariant forall k :: 0 <= k < i ==>
                  && aligned[k].endTime == old(aligned[k + 1].startTime)
                  && aligned[k].duration == aligned[k].endTime - aligned[k].startTime
    {
      aligned[i].endTime := aligned[i + 1].startTime;
      aligned[i].duration := aligned[i].endTime - aligned[i].startTime;
    }
  }

  // Closes the gap at the beginning, chains the scenes, and ends the last one.
  method ClosePass(aligned: seq<SceneRec>, segs: seq<Segment>, ghost placed: seq<Placed>)
    requires Distinct(aligned) && segs != [] && TimesOf(aligned, placed)
    modifies aligned
    ensures forall k :: 0 <= k < |aligned| ==>
              && aligned[k].startTime == Spans(placed, segs)[k].start
              && aligned[k].endTime == Spans(placed, segs)[k].end
              && aligned[k].duration == aligned[k].endTime - aligned[k].startTime
  {
    if aligned == [] { return; }
    if aligned[0].startTime > segs[0].start + 2.0 {
      aligned[0].startTime := segs[0].start;
    }
    assert forall k :: 0 <= k < |aligned| ==> aligned[k].startTime == StartOf(placed, segs, k);
    ChainPass(aligned);
    var last := aligned[|aligned| - 1];
    var floor, end := last.startTime + 5.0, segs[|segs| - 1].end;
    last.endTime := if floor >= end then floor else end;
    last.duration := last.endTime - last.startTime;
  }

  // ---- what alignment guarantees -----------------------------------------

  ghost predicate Chain(spans: seq<Span>) {
    forall k :: 0 <= k < |spans| - 1 ==> spans[k].end == spans[k + 1].start
  }

  function TotalLength(spans: seq<Span>): real {
    if spans == [] then 0.0
    else TotalLength(spans[..|spans| - 1]) + (spans[|spans| - 1].end - spans[|spans| - 1].start)
  }

  // A gap-free chain is as long as the stretch it covers.
  lemma {:induction false} ChainTelescopes(spans: seq<Span>)
    requires spans != [] && Chain(spans)
    ensures TotalLength(spans) == spans[|spans| - 1].end - spans[0].start
  {
    var front := spans[..|spans| - 1];
    if front != [] {
      assert front[|front| - 1].end == spans[|spans| - 1].start;
      ChainTelescopes(front);
    }
  }

  lemma AlignmentIsGapFree(placed: seq<Placed>, segs: seq<Segment>)
    requires segs != [] && placed != []
    ensures Chain(Spans(placed, segs))
    ensures TotalLength(Spans(placed, segs)) == EndOf(placed, segs, |placed| - 1) - StartOf(placed, segs, 0)
    ensures EndOf(placed, segs, |placed| - 1) >= segs[|segs| - 1].end
  {
    ChainTelescopes(Spans(placed, segs));
  }

  // How the first pass places kept scene k, next to the one before it.
  ghost predicate PlacedAt(placed: seq<Placed>, segs: seq<Segment>, k: nat)
    requires segs != [] && k < |placed|
  {
    match placed[k].seg
    case Some(m) => m < |segs| && placed[k].start == segs[m].start && placed[k].end == segs[m].end
    case None => placed[k].end == placed[k].start + 5.0
                 && placed[k].start == if k == 0 then segs[0].start else placed[k - 1].end
  }

  ghost predicate PlacedRight(placed: seq<Placed>, segs: seq<Segment>) {
    && segs != []
    && (forall k :: 0 <= k < |placed| ==> PlacedAt(placed, segs, k))
    && (forall j, k :: 0 <= j < k < |placed| && placed[j].seg.Some? && placed[k].seg.Some? ==>
          placed[j].seg.value < placed[k].seg.value)
  }

  // Kept scene p is one of the first n, and matches its segment, one before `next`.
  ghost predicate TrueMatch(verses: seq<string>, segs: seq<Segment>, p: Placed, n: nat, next: nat)
    requires n <= |verses|
  {
    && p.scene < n && verses[p.scene] != ""
    && (p.seg.Some? ==> p.seg.value < next <= |segs| && Matches(verses[p.scene], segs[p.seg.value]))
  }

  // Everything the first pass keeps true of its cursor.
  ghost predicate CursorOk(verses: seq<string>, segs: seq<Segment>, c: Cursor, n: nat)
    requires n <= |verses|
  {
    && PlacedRight(c.placed, segs) && c.next <= |segs|
    && (forall k :: 0 <= k < |c.placed| ==> TrueMatch(verses, segs, c.placed[k], n, c.next))
    && (forall j, k :: 0 <= j < k < |c.placed| ==> c.placed[j].scene < c.placed[k].scene)
  }

  lemma PlacedRightStep(placed: seq<Placed>, segs: seq<Segment>, p: Placed, next: nat)
    requires PlacedRight(placed, segs) && PlacedAt(placed + [p], segs, |placed|)
    requires forall k :: 0 <= k < |placed| && placed[k].seg.Some? ==> placed[k].seg.value < next
    requires p.seg.Some? ==> next <= p.seg.value
    ensures PlacedRight(placed + [p], segs)
  {
    forall k | 0 <= k < |placed| ensures PlacedAt(placed + [p], segs, k) {
      assert PlacedAt(placed, segs, k);
    }
  }

  lemma CursorStep(verses: seq<string>, segs: seq<Segment>, n: nat, c: Cursor)
    requires n < |verses| && CursorOk(verses, segs, c, n)
    ensures CursorOk(verses, segs, PlaceNext(verses[n], segs, n, c), n + 1)
  {
    var c' := PlaceNext(verses[n], segs, n, c);
    forall k | 0 <= k < |c.placed|
      ensures TrueMatch(verses, segs, c.placed[k], n + 1, c'.next) && c.placed[k].scene < n
      ensures c.placed[k].seg.Some? ==> c.placed[k].seg.value < c.next
    {
      assert TrueMatch(verses, segs, c.placed[k], n, c.next);
    }
    if verses[n] != "" {
      var p := c'.placed[|c.placed|];
      assert c'.placed == c.placed + [p];
      hide Matches, PlacedRight;
      PlacedRightStep(c.placed, segs, p, c.next);
    }
  }

  // Scenes keep their order, each matched segment is used once and in order, and a
  // matched scene does match its segment.
  lemma {:induction false} PlacementKeepsOrder(verses: seq<string>, segs: seq<Segment>, n: nat)
    requires segs != [] && n <= |verses|
    ensures CursorOk(verses, segs, Place(verses, segs, n), n)
  {
    hide PlaceNext, TrueMatch;
    if n > 0 {
      PlacementKeepsOrder(verses, segs, n - 1);
      CursorStep(verses, segs, n - 1, Place(verses, segs, n - 1));
    }
  }

  // Unmatched scenes in a row up to and including scene k.
  function UnmatchedRun(placed: seq<Placed>, k: nat): (r: nat)
    requires k < |placed|
    ensures r <= k + 1 && (r < k + 1 ==> placed[k - r].seg.Some?) && (r == 0 <==> placed[k].seg.Some?)
  {
    if placed[k].seg.Some? then 0 else if k == 0 then 1 else UnmatchedRun(placed, k - 1) + 1
  }

  // Where that run begins: the end of the last matched segment before it, or the
  // start of the transcription.
  function RunOrigin(placed: seq<Placed>, segs: seq<Segment>, k: nat): real
    requires k < |placed| && PlacedRight(placed, segs)
  {
    var r := UnmatchedRun(placed, k);
    if r == k + 1 then segs[0].start
    else
      assert PlacedAt(placed, segs, k - r);
      segs[placed[k - r].seg.value].end
  }

  lemma {:induction false} UnmatchedStart(placed: seq<Placed>, segs: seq<Segment>, k: nat)
    requires k < |placed| && PlacedRight(placed, segs) && placed[k].seg.None?
    ensures placed[k].start == RunOrigin(placed, segs, k) + 5.0 * (UnmatchedRun(placed, k) - 1) as real
  {
    assert PlacedAt(placed, segs, k);
    if k > 0 {
      assert PlacedAt(placed, segs, k - 1);
      if placed[k - 1].seg.None? {
        UnmatchedStart(placed, segs, k - 1);
        assert UnmatchedRun(placed, k) == UnmatchedRun(placed, k - 1) + 1;
      }
    }
  }

  // The unmatched run ending at k leaves room before the segment matched next:
  // five seconds for every scene of the run after its first.
  ghost predicate RunFits(placed: seq<Placed>, segs: seq<Segment>, k: nat)
    requires k < |placed| && PlacedRight(placed, segs)
  {
    k + 1 < |placed| && placed[k].seg.None? && placed[k + 1].seg.Some? ==>
      assert PlacedAt(placed, segs, k + 1);
      RunOrigin(placed, segs, k) + 5.0 * (UnmatchedRun(placed, k) - 1) as real <= segs[placed[k + 1].seg.value].start
  }

  ghost predicate OrderedSegments(segs: seq<Segment>) {
    && (forall j :: 0 <= j < |segs| ==> segs[j].start <= segs[j].end)
    && forall i, j :: 0 <= i < j < |segs| ==> segs[i].start <= segs[j].start
  }

  lemma OneDuration(placed: seq<Placed>, segs: seq<Segment>, k: nat)
    requires k < |placed| && PlacedRight(placed, segs) && OrderedSegments(segs)
    ensures StartOf(placed, segs, k) <= EndOf(placed, segs, k) <==> RunFits(placed, segs, k)
  {
    assert PlacedAt(placed, segs, k);
    if k + 1 < |placed| {
      assert PlacedAt(placed, segs, k + 1);
      if placed[k].seg.None? && placed[k + 1].seg.Some? { UnmatchedStart(placed, segs, k); }
    }
  }

  // Alignment gives no scene a negative duration exactly when every unmatched run
  // fits before the next matched segment.
  lemma NoNegativeDurationIff(placed: seq<Placed>, segs: seq<Segment>)
    requires PlacedRight(placed, segs) && OrderedSegments(segs)
    ensures (forall k :: 0 <= k < |placed| ==> Spans(placed, segs)[k].start <= Spans(placed, segs)[k].end)
            <==> forall k :: 0 <= k < |placed| ==> RunFits(placed, segs, k)
  {
    hide RunFits;
    forall k | 0 <= k < |placed|
      ensures Spans(placed, segs)[k].start <= Spans(placed, segs)[k].end <==> RunFits(placed, segs, k)
    {
      OneDuration(placed, segs, k);
    }
  }

  // In particular when every kept scene matches a segment.
  lemma AllMatchedIsMonotone(verses: seq<string>, segs: seq<Segment>, k: nat)
    requires segs != [] && OrderedSegments(segs)
    requires forall j :: 0 <= j < |Place(verses, segs, |verses|).placed| ==>
             Place(verses, segs, |verses|).placed[j].seg.Some?
    requires k < |Place(verses, segs, |verses|).placed|
    ensures var placed := Place(verses, segs, |verses|).placed;
            && StartOf(placed, segs, k) <= EndOf(placed, segs, k)
            && (k + 1 < |placed| ==> StartOf(placed, segs, k) <= StartOf(placed, segs, k + 1))
  {
    PlacementKeepsOrder(verses, segs, |verses|);
    OneDuration(Place(verses, segs, |verses|).placed, segs, k);
  }

  lemma SingleLetters(x: string, y: string)
    requires |x| == 1 && |y| == 1
    ensures Contains(x, y) <==> x == y
  {
    if x == y { assert At(x, 0, y); }
    if i :| 0 <= i <= |x| && At(x, i, y) { assert x[0..1] == x; }
  }

  const EXAMPLE_VERSES := ["a", "b", "c", "d"]
  const EXAMPLE_SEGMENTS := [Segment("a", 0.0, 4.0), Segment("d", 5.0, 9.0)]
  const EXAMPLE_SPANS := [Span(0.0, 4.0), Span(4.0, 9.0), Span(9.0, 5.0), Span(5.0, 10.0)]

  // Two unmatched scenes between adjacent segments do not fit: the second one gets
  // a negative duration.
  lemma NegativeDurationExample()
    ensures Spans(Place(EXAMPLE_VERSES, EXAMPLE_SEGMENTS, 4).placed, EXAMPLE_SEGMENTS) == EXAMPLE_SPANS
    ensures EXAMPLE_SPANS[2].end - EXAMPLE_SPANS[2].start == -4.0
  {
    var segs, verses := EXAMPLE_SEGMENTS, EXAMPLE_VERSES;
    SingleLetters("a", "a");
    SingleLetters("b", "d");
    SingleLetters("d", "b");
    SingleLetters("c", "d");
    SingleLetters("d", "c");
    SingleLetters("d", "d");
    hide Contains;
    assert Place(verses, segs, 1) == Cursor(1, [Placed(0, Some(0), 0.0, 4.0)]);
    assert FirstMatch("b", segs, 1, 2) == None && FirstMatch("c", segs, 1, 2) == None;
    assert Place(verses, segs, 2) == Cursor(1, [Placed(0, Some(0), 0.0, 4.0), Placed(1, None, 4.0, 9.0)]);
    assert Place(verses, segs, 3).placed[2] == Placed(2, None, 9.0, 14.0);
    assert FirstMatch("d", segs, 1, 2) == Some(1);
  }
}
