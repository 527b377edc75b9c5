// The tail of the analysis put together: aligned scenes are split, cut at the scene
// limit and sanitised (scripts/analyze_lyrics.py).
module FinalTimes {
  import opened Common
  import opened Rounding
  import opened Alignment
  import opened Splitting
  import opened Sanitising

  function RawOf(s: Scene): Raw { Dict(s.verse, Some(s.start), Some(s.end), Some(s.duration), s.prompt, "cut") }

  function RawsOf(scenes: seq<Scene>): (rs: seq<Raw>)
    ensures |rs| == |scenes| && forall k :: 0 <= k < |rs| ==> rs[k] == RawOf(scenes[k])
  {
    seq(|scenes|, k requires 0 <= k < |scenes| => RawOf(scenes[k]))
  }

  function Capped(scenes: seq<Scene>, max: nat): seq<Scene> { scenes[..Min(|scenes|, max)] }

  function FinalScenes(aligned: seq<Scene>, src: Source): seq<Clean> {
    Sanitise(RawsOf(Capped(Split(aligned), src.maxScenes)), src)
  }

  // Every scene ends after it starts, and the next one starts there.
  ghost predicate Tiles(cs: seq<Clean>) {
    Forward(cs) && forall k :: 0 <= k < |cs| - 1 ==> Meets(cs, k)
  }

  predicate Meets(cs: seq<Clean>, k: nat)
    requires k + 1 < |cs|
  {
    cs[k].end == cs[k + 1].start
  }

  predicate Lasts(s: Scene) { s.start < s.end }

  // Rounding does not make the scene vanish.
  ghost predicate Visible(s: Scene) { Lasts(s) ==> !SameMilli(s.start, s.end) }

  // Every scene but the last has a positive length, and none vanishes in rounding.
  ghost predicate Tileable(scenes: seq<Scene>) {
    && (forall k :: 0 <= k < |scenes| - 1 ==> Lasts(scenes[k]))
    && (forall k :: 0 <= k < |scenes| ==> Visible(scenes[k]))
  }

  // ---- one chain through the sanitiser -----------------------------------

  lemma {:induction false} SanitiseFromDicts(scenes: seq<Scene>, style: string)
    ensures var cs := SanitiseFrom(RawsOf(scenes), style);
            |cs| == |scenes| && forall k :: 0 <= k < |cs| ==> cs[k] == SanitiseOne(k, RawOf(scenes[k]), style)
  {
    hide SanitiseOne;
    if scenes != [] {
      SanitiseFromDicts(scenes[..|scenes| - 1], style);
      assert RawsOf(scenes)[..|scenes| - 1] == RawsOf(scenes[..|scenes| - 1]);
    }
  }

  lemma ShiftedByFive(x: real)
    ensures Round3(x + 5.0) == Round3(x) + 5.0
  {
    var n := HalfEven(x * 1000.0);
    RoundsToIs(x, n);
    RoundsToIs(x + 5.0, n + 5000);
    assert (x + 5.0) * 1000.0 == x * 1000.0 + 5000.0;
    hide HalfEven;
  }

  // A scene that runs backwards is given five seconds, whatever comes after it.
  lemma OneScene(k: nat, s: Scene, style: string)
    ensures var c := SanitiseOne(k, RawOf(s), style);
            && c.start == Round3(s.start)
            && (if Lasts(s) then c.end == Round3(s.end) else c.end == c.start + 5.0 >= Round3(s.end) + 5.0)
            && (c.start < c.end <==> Visible(s))
  {
    hide Round3, SameMilli;
    ForwardOne(k, RawOf(s), style);
    ShiftedByFive(s.start);
    SameMilliIff(s.start, s.start + 5.0);
    if !Lasts(s) { Round3Monotone(s.end, s.start); }
  }

  // A chain comes out as a chain exactly when it is tileable; after a scene that
  // runs backwards the list overlaps by five seconds or more.
  lemma SanitisedChainTilesIff(scenes: seq<Scene>, style: string)
    requires Chain(SpansOf(scenes))
    ensures var cs := SanitiseFrom(RawsOf(scenes), style);
            && |cs| == |scenes|
            && (Tiles(cs) <==> Tileable(scenes))
            && (forall k :: 0 <= k < |cs| - 1 && !Lasts(scenes[k]) ==> cs[k].end >= cs[k + 1].start + 5.0)
            && (forall k :: 0 <= k < |cs| ==> cs[k].start == Round3(scenes[k].start))
  {
    var cs := SanitiseFrom(RawsOf(scenes), style);
    SanitiseFromDicts(scenes, style);
    hide SanitiseOne, Visible, Lasts, Round3;
    forall k | 0 <= k < |cs|
      ensures cs[k].start == Round3(scenes[k].start) && (cs[k].start < cs[k].end <==> Visible(scenes[k]))
    {
      OneScene(k, scenes[k], style);
    }
    forall k | 0 <= k < |cs| - 1
      ensures Meets(cs, k) <==> Lasts(scenes[k])
      ensures !Lasts(scenes[k]) ==> cs[k].end >= cs[k + 1].start + 5.0
    {
      MeetsIff(scenes, style, k);
    }
  }

  lemma MeetsIff(scenes: seq<Scene>, style: string, k: nat)
    requires Chain(SpansOf(scenes)) && k + 1 < |scenes|
    ensures var c, next := SanitiseOne(k, RawOf(scenes[k]), style), SanitiseOne(k + 1, RawOf(scenes[k + 1]), style);
            && (c.end == next.start <==> Lasts(scenes[k]))
            && (!Lasts(scenes[k]) ==> c.end >= next.start + 5.0)
  {
    OneScene(k, scenes[k], style);
    OneScene(k + 1, scenes[k + 1], style);
    assert SpansOf(scenes)[k].end == SpansOf(scenes)[k + 1].start;
    hide SanitiseOne, Visible, Lasts, Round3;
  }

  function TotalDuration(cs: seq<Clean>): real {
    if cs == [] then 0.0 else TotalDuration(cs[..|cs| - 1]) + cs[|cs| - 1].duration
  }

  // By how much the durations miss the stretch the list covers.
  function Drift(cs: seq<Clean>): real
    requires cs != []
  {
    TotalDuration(cs) - (cs[|cs| - 1].end - cs[0].start)
  }

  lemma {:induction false} DriftIsBounded(cs: seq<Clean>)
    requires cs != [] && Tiles(cs)
    requires forall k :: 0 <= k < |cs| ==> Timed(cs[k])
    ensures -0.001 * |cs| as real <= Drift(cs) <= 0.001 * |cs| as real
  {
    var front := cs[..|cs| - 1];
    if front != [] {
      TilesFront(cs);
      DriftIsBounded(front);
    } else {
      assert TotalDuration(front) == 0.0;
    }
  }

  lemma TilesFront(cs: seq<Clean>)
    requires |cs| >= 2 && Tiles(cs)
    ensures Tiles(cs[..|cs| - 1]) && cs[|cs| - 2].end == cs[|cs| - 1].start
  {
    var front := cs[..|cs| - 1];
    forall k | 0 <= k < |front| - 1
      ensures Meets(front, k)
    {
      assert Meets(cs, k);
    }
    assert Meets(cs, |cs| - 2);
  }

  // ---- the whole tail ----------------------------------------------------

  // For any aligned chain: the final list starts at the rounded beginning and tiles
  // exactly when the split scenes that are kept are tileable, and then its durations
  // add up to its length within a millisecond a scene.  Where a kept scene runs
  // backwards the list overlaps by five seconds or more.
  lemma FinalScenesTile(aligned: seq<Scene>, src: Source)
    requires aligned != [] && src.maxScenes >= 1 && Chain(SpansOf(aligned))
    ensures var cs, kept := FinalScenes(aligned, src), Capped(Split(aligned), src.maxScenes);
            && |cs| == |kept| == Min(|Split(aligned)|, src.maxScenes) && |cs| >= 1
            && cs[0].start == Round3(aligned[0].start)
            && (Tiles(cs) <==> Tileable(kept))
            && (Tiles(cs) ==> -0.001 * |cs| as real <= Drift(cs) <= 0.001 * |cs| as real)
            && (forall k :: 0 <= k < |cs| - 1 && !Lasts(kept[k]) ==> cs[k].end >= cs[k + 1].start + 5.0)
  {
    SplitKeepsTheChain(aligned);
    var scenes := Split(aligned);
    ghost var kept := Capped(scenes, src.maxScenes);
    assert |kept| == Min(|scenes|, src.maxScenes) >= 1 && kept == scenes[..|kept|] && kept[0] == scenes[0];
    SanitisedDicts(kept, src);
    ChainPrefix(scenes, |kept|);
    FinalScenesAre(aligned, src);
    hide *;
    SanitisedChainTilesIff(kept, src.style);
    SanitiseFromIsTimed(RawsOf(kept), src.style);
    if Tiles(SanitiseFrom(RawsOf(kept), src.style)) {
      DriftIsBounded(SanitiseFrom(RawsOf(kept), src.style));
    }
  }

  lemma FinalScenesAre(aligned: seq<Scene>, src: Source)
    ensures FinalScenes(aligned, src) == Sanitise(RawsOf(Capped(Split(aligned), src.maxScenes)), src)
  {
  }

  lemma SanitisedDicts(kept: seq<Scene>, src: Source)
    requires 1 <= |kept| <= src.maxScenes
    ensures Sanitise(RawsOf(kept), src) == SanitiseFrom(RawsOf(kept), src.style)
  {
    SanitiseFromDicts(kept, src.style);
    assert RawsOf(kept)[..Min(|kept|, src.maxScenes)] == RawsOf(kept);
  }

  lemma ChainPrefix(scenes: seq<Scene>, n: nat)
    requires n <= |scenes| && Chain(SpansOf(scenes))
    ensures Chain(SpansOf(scenes[..n]))
  {
    forall k | 0 <= k < n - 1
      ensures SpansOf(scenes[..n])[k].end == SpansOf(scenes[..n])[k + 1].start
    {
      assert SpansOf(scenes)[k].end == SpansOf(scenes)[k + 1].start;
    }
  }

  // ---- from the verses and segments --------------------------------------

  ghost predicate Solid(s: Scene) { Lasts(s) && Visible(s) }

  ghost predicate AllSolid(scenes: seq<Scene>) { forall k :: 0 <= k < |scenes| ==> Solid(scenes[k]) }

  // Splitting neither repairs a scene nor harms one.
  lemma SplitOneSolid(s: Scene)
    ensures AllSolid(SplitOne(s)) <==> Solid(s)
  {
    SplitOneCovers(s);
    var parts := SplitOne(s);
    SameMilliIff(s.start, s.end);
    if s.end - s.start > 10.0 {
      forall k | 0 <= k < |parts|
        ensures Solid(parts[k])
      {
        SameMilliIff(parts[k].start, parts[k].end);
      }
    } else {
      assert parts[0] == s;
    }
  }

  lemma {:induction false} SplitSolid(scenes: seq<Scene>)
    ensures AllSolid(Split(scenes)) <==> AllSolid(scenes)
  {
    hide SplitOne, Solid;
    if scenes != [] {
      var n := |scenes| - 1;
      SplitSolid(scenes[..n]);
      SplitOneSolid(scenes[n]);
      SolidAppend(Split(scenes[..n]), SplitOne(scenes[n]));
      SolidAppend(scenes[..n], [scenes[n]]);
      assert scenes == scenes[..n] + [scenes[n]];
      assert [scenes[n]][0] == scenes[n];
    }
  }

  lemma SolidAppend(a: seq<Scene>, b: seq<Scene>)
    ensures AllSolid(a + b) <==> AllSolid(a) && AllSolid(b)
  {
    hide Solid;
    assert forall k :: 0 <= k < |a| ==> (a + b)[k] == a[k];
    assert forall k :: 0 <= k < |b| ==> (a + b)[|a| + k] == b[k];
  }

  // Kept scene k starts before the next one does: an unmatched run fits strictly
  // before the segment matched next, and a matched segment lasts, or starts before
  // the next matched one.  A first scene whose start was moved to the beginning of
  // the transcription always does.
  ghost predicate LeavesRoom(placed: seq<Placed>, segs: seq<Segment>, k: nat)
    requires k < |placed| && PlacedRight(placed, segs)
  {
    k + 1 < |placed| ==>
      assert PlacedAt(placed, segs, k) && PlacedAt(placed, segs, k + 1);
      match placed[k].seg
      case None =>
        placed[k + 1].seg.Some? ==>
          RunOrigin(placed, segs, k) + 5.0 * (UnmatchedRun(placed, k) - 1) as real < segs[placed[k + 1].seg.value].start
      case Some(j) =>
        || (k == 0 && segs[j].start > segs[0].start + 2.0)
        || segs[j].start < match placed[k + 1].seg case Some(m) => segs[m].start case None => segs[j].end
  }

  // Every kept scene leaves room for itself, and none starts and ends in the same
  // millisecond.
  ghost predicate Roomy(placed: seq<Placed>, segs: seq<Segment>)
    requires PlacedRight(placed, segs)
  {
    forall k :: 0 <= k < |placed| ==>
      LeavesRoom(placed, segs, k) && !SameMilli(StartOf(placed, segs, k), EndOf(placed, segs, k))
  }

  lemma PositiveIff(placed: seq<Placed>, segs: seq<Segment>, k: nat)
    requires k < |placed| && PlacedRight(placed, segs) && OrderedSegments(segs)
    ensures StartOf(placed, segs, k) < EndOf(placed, segs, k) <==> LeavesRoom(placed, segs, k)
  {
    assert PlacedAt(placed, segs, k);
    if k + 1 < |placed| {
      assert PlacedAt(placed, segs, k + 1);
      if placed[k].seg.None? && placed[k + 1].seg.Some? { UnmatchedStart(placed, segs, k); }
    }
  }

  // What the aligned scenes of some verses become.
  function FinalList(verses: seq<string>, prompts: seq<string>, segs: seq<Segment>, src: Source): seq<Clean>
    requires segs != [] && |prompts| == |verses|
  {
    FinalScenes(AlignedScenes(verses, prompts, segs), src)
  }

  // Aligning, splitting and sanitising together, when the limit cuts nothing off:
  // the final list tiles exactly when the placement is roomy.
  lemma PipelineTilesIff(verses: seq<string>, prompts: seq<string>, segs: seq<Segment>, src: Source)
    requires segs != [] && |prompts| == |verses| && OrderedSegments(segs)
    requires Place(verses, segs, |verses|).placed != []
    requires src.maxScenes >= |Split(AlignedScenes(verses, prompts, segs))|
    ensures var placed := Place(verses, segs, |verses|).placed;
            && CursorOk(verses, segs, Place(verses, segs, |verses|), |verses|)
            && (Tiles(FinalList(verses, prompts, segs, src)) <==> Roomy(placed, segs))
  {
    var aligned := AlignedScenes(verses, prompts, segs);
    AlignedIsChain(verses, prompts, segs);
    PlacementKeepsOrder(verses, segs, |verses|);
    hide *;
    FinalScenesTile(aligned, src);
    NotCut(Split(aligned), src.maxScenes);
    SplitLastLasts(aligned);
    TileableIsSolid(Split(aligned));
    SplitSolid(aligned);
    FinalListIs(verses, prompts, segs, src);
    AlignedSolidIff(verses, prompts, segs);
  }

  lemma NotCut(scenes: seq<Scene>, max: nat)
    requires |scenes| <= max
    ensures Capped(scenes, max) == scenes
  {
  }

  lemma FinalListIs(verses: seq<string>, prompts: seq<string>, segs: seq<Segment>, src: Source)
    requires segs != [] && |prompts| == |verses|
    ensures FinalList(verses, prompts, segs, src) == FinalScenes(AlignedScenes(verses, prompts, segs), src)
  {
  }

  lemma AlignedIsChain(verses: seq<string>, prompts: seq<string>, segs: seq<Segment>)
    requires segs != [] && |prompts| == |verses| && Place(verses, segs, |verses|).placed != []
    ensures var aligned := AlignedScenes(verses, prompts, segs);
            aligned != [] && Chain(SpansOf(aligned)) && Lasts(aligned[|aligned| - 1])
  {
    var placed := Place(verses, segs, |verses|).placed;
    AlignmentIsGapFree(placed, segs);
    assert SpansOf(AlignedScenes(verses, prompts, segs)) == Spans(placed, segs);
  }

  lemma AlignedSolidIff(verses: seq<string>, prompts: seq<string>, segs: seq<Segment>)
    requires segs != [] && |prompts| == |verses| && OrderedSegments(segs)
    requires CursorOk(verses, segs, Place(verses, segs, |verses|), |verses|)
    ensures var placed := Place(verses, segs, |verses|).placed;
            AllSolid(AlignedScenes(verses, prompts, segs)) <==> Roomy(placed, segs)
  {
    var placed := Place(verses, segs, |verses|).placed;
    var aligned := AlignedScenes(verses, prompts, segs);
    hide Place, LeavesRoom, PlacedRight, SameMilli, OrderedSegments;
    forall k | 0 <= k < |placed|
      ensures Solid(aligned[k]) <==>
              LeavesRoom(placed, segs, k) && !SameMilli(StartOf(placed, segs, k), EndOf(placed, segs, k))
    {
      PositiveIff(placed, segs, k);
    }
    hide Solid, StartOf, EndOf;
  }

  lemma SplitLastLasts(scenes: seq<Scene>)
    requires scenes != [] && Lasts(scenes[|scenes| - 1])
    ensures Split(scenes) != [] && Lasts(Split(scenes)[|Split(scenes)| - 1])
  {
    SplitOneCovers(scenes[|scenes| - 1]);
    var parts := SplitOne(scenes[|scenes| - 1]);
    assert Lasts(parts[|parts| - 1]);
    assert Split(scenes)[|Split(scenes)| - 1] == parts[|parts| - 1];
  }

  lemma TileableIsSolid(scenes: seq<Scene>)
    requires scenes != [] && Lasts(scenes[|scenes| - 1])
    ensures Tileable(scenes) <==> AllSolid(scenes)
  {
    hide Lasts;
  }

  // ---- when the limit cuts the list --------------------------------------

  lemma {:induction false} SplitGrows(scenes: seq<Scene>, k: nat)
    requires k < |scenes|
    ensures |Split(scenes[..k])| < |Split(scenes)|
    ensures |Split(scenes[..k])| + |SplitOne(scenes[k])| <= |Split(scenes)|
  {
    SplitOneCovers(scenes[|scenes| - 1]);
    hide SplitOne;
    var front := scenes[..|scenes| - 1];
    if k < |front| {
      assert front[..k] == scenes[..k];
      SplitGrows(front, k);
    } else {
      assert front == scenes[..k];
    }
  }

  // Scene k passes a cut after m split scenes: it does not vanish, and it has a
  // positive length unless it is the last one kept.
  ghost predicate PassesCut(scenes: seq<Scene>, m: nat, k: nat)
    requires k < |scenes|
  {
    |Split(scenes[..k])| < m ==> Visible(scenes[k]) && (Lasts(scenes[k]) || |Split(scenes[..k])| + 1 == m)
  }

  ghost predicate AllPass(scenes: seq<Scene>, m: nat) {
    forall k :: 0 <= k < |scenes| ==> PassesCut(scenes, m, k)
  }

  lemma {:induction false} CutTileableIff(scenes: seq<Scene>, m: nat)
    requires m <= |Split(scenes)|
    ensures Tileable(Split(scenes)[..m]) <==> AllPass(scenes, m)
  {
    if scenes == [] {
      assert Tileable([]) && Split(scenes)[..m] == [];
      return;
    }
    var front := scenes[..|scenes| - 1];
    if m <= |Split(front)| {
      assert Split(scenes)[..m] == Split(front)[..m];
      hide *;
      CutTileableIff(front, m);
      CutBefore(scenes, m);
    } else {
      hide *;
      CutWithin(scenes, m);
    }
  }

  // The last scene is cut off.
  lemma CutBefore(scenes: seq<Scene>, m: nat)
    requires scenes != [] && m <= |Split(scenes[..|scenes| - 1])|
    ensures AllPass(scenes, m) <==> AllPass(scenes[..|scenes| - 1], m)
  {
    hide Split, PassesCut;
    var front := scenes[..|scenes| - 1];
    PassesBeyond(scenes, m);
    forall k | 0 <= k < |front|
      ensures PassesCut(scenes, m, k) <==> PassesCut(front, m, k)
    {
      SamePass(scenes, m, k);
    }
  }

  // The cut goes through the last scene, or after it.
  lemma CutWithin(scenes: seq<Scene>, m: nat)
    requires scenes != [] && |Split(scenes[..|scenes| - 1])| < m <= |Split(scenes)|
    ensures Tileable(Split(scenes)[..m]) <==> AllPass(scenes, m)
  {
    var n := |scenes| - 1;
    hide *;
    SplitWithin(scenes, m);
    SplitSolid(scenes[..n]);
    CutInside(Split(scenes[..n]), scenes[n], m - |Split(scenes[..n])|);
    AllPassWithin(scenes, m);
  }

  lemma AllPassWithin(scenes: seq<Scene>, m: nat)
    requires scenes != [] && |Split(scenes[..|scenes| - 1])| < m <= |Split(scenes)|
    ensures AllPass(scenes, m) <==> AllSolid(scenes[..|scenes| - 1]) && Visible(scenes[|scenes| - 1])
  {
    hide Split, PassesCut, Solid, Visible;
    var front := scenes[..|scenes| - 1];
    LastPasses(scenes, m);
    forall k | 0 <= k < |front|
      ensures PassesCut(scenes, m, k) <==> Solid(front[k])
    {
      EarlierPasses(scenes, m, k);
    }
  }

  lemma SplitWithin(scenes: seq<Scene>, m: nat)
    requires scenes != [] && |Split(scenes[..|scenes| - 1])| < m <= |Split(scenes)|
    ensures var before, parts := Split(scenes[..|scenes| - 1]), SplitOne(scenes[|scenes| - 1]);
            m - |before| <= |parts| && Split(scenes)[..m] == before + parts[..m - |before|]
  {
    hide SplitOne;
  }

  lemma PassesBeyond(scenes: seq<Scene>, m: nat)
    requires scenes != [] && m <= |Split(scenes[..|scenes| - 1])|
    ensures PassesCut(scenes, m, |scenes| - 1)
  {
  }

  lemma SamePass(scenes: seq<Scene>, m: nat, k: nat)
    requires k < |scenes| - 1
    ensures PassesCut(scenes, m, k) <==> PassesCut(scenes[..|scenes| - 1], m, k)
  {
    hide Split, Visible, Lasts;
    assert scenes[..|scenes| - 1][..k] == scenes[..k];
  }

  lemma EarlierPasses(scenes: seq<Scene>, m: nat, k: nat)
    requires k < |scenes| - 1 && m > |Split(scenes[..|scenes| - 1])|
    ensures PassesCut(scenes, m, k) <==> Solid(scenes[k])
  {
    var front := scenes[..|scenes| - 1];
    assert front[..k] == scenes[..k];
    SplitGrows(front, k);
    SplitOneCovers(scenes[k]);
    hide Split, SplitOne, Visible, Lasts;
  }

  lemma LastPasses(scenes: seq<Scene>, m: nat)
    requires scenes != [] && |Split(scenes[..|scenes| - 1])| < m <= |Split(scenes)|
    ensures PassesCut(scenes, m, |scenes| - 1) <==> Visible(scenes[|scenes| - 1])
  {
    var last := scenes[|scenes| - 1];
    SplitOneCovers(last);
    assert |SplitOne(last)| > 1 ==> Lasts(last);
    hide SplitOne, Visible;
  }

  lemma CutInside(before: seq<Scene>, s: Scene, r: nat)
    requires 1 <= r <= |SplitOne(s)|
    ensures Tileable(before + SplitOne(s)[..r]) <==> AllSolid(before) && Visible(s)
  {
    SplitOneSolid(s);
    SplitOneCovers(s);
    var parts := SplitOne(s)[..r];
    if s.end - s.start > 10.0 {
      SameMilliIff(s.start, s.end);
      assert AllSolid(SplitOne(s));
      assert AllSolid(parts);
    } else {
      assert parts == [s];
    }
    assert forall k :: 0 <= k < |before| ==> (before + parts)[k] == before[k];
    assert forall k :: 0 <= k < |parts| ==> (before + parts)[|before| + k] == parts[k];
    hide SplitOne, Visible, Lasts;
  }

  // The same when the limit cuts: only scenes that are kept matter, and the last one
  // kept may run backwards, because nothing follows it.
  lemma CutPipelineTilesIff(verses: seq<string>, prompts: seq<string>, segs: seq<Segment>, src: Source)
    requires segs != [] && |prompts| == |verses| && src.maxScenes >= 1
    requires Place(verses, segs, |verses|).placed != []
    ensures var aligned := AlignedScenes(verses, prompts, segs);
            Tiles(FinalList(verses, prompts, segs, src)) <==>
            AllPass(aligned, Min(|Split(aligned)|, src.maxScenes))
  {
    var aligned := AlignedScenes(verses, prompts, segs);
    var m := Min(|Split(aligned)|, src.maxScenes);
    assert Capped(Split(aligned), src.maxScenes) == Split(aligned)[..m];
    AlignedIsChain(verses, prompts, segs);
    hide *;
    FinalScenesTile(aligned, src);
    CutTileableIff(aligned, m);
    FinalListIs(verses, prompts, segs, src);
  }

  // ---- two examples ------------------------------------------------------

  lemma {:induction false} ShortScenesStay(scenes: seq<Scene>)
    requires forall k :: 0 <= k < |scenes| ==> scenes[k].end - scenes[k].start <= 10.0
    ensures Split(scenes) == scenes
  {
    if scenes != [] {
      var n := |scenes| - 1;
      SplitOneCovers(scenes[n]);
      hide SplitOne;
      ShortScenesStay(scenes[..n]);
      assert scenes == scenes[..n] + [scenes[n]];
    }
  }

  lemma SecondsStay(n: int)
    ensures Round3(n as real) == n as real
  {
    HalfEvenOfInt(n * 1000);
  }

  // The scene that alignment gives a negative duration comes out with five seconds,
  // nine seconds into the scene after it.
  lemma OverlapExample(prompts: seq<string>, src: Source)
    requires |prompts| == 4 && src.maxScenes >= 4
    ensures var cs := FinalList(EXAMPLE_VERSES, prompts, EXAMPLE_SEGMENTS, src);
            |cs| == 4 && cs[2].start == 9.0 && cs[2].end == 14.0 && cs[3].start == 5.0 && !Tiles(cs)
  {
    assert EXAMPLE_SEGMENTS != [] && |EXAMPLE_VERSES| == 4;
    hide *;
    NegativeDurationExample();
    AlignedSpans(EXAMPLE_VERSES, prompts, EXAMPLE_SEGMENTS);
    FinalListIs(EXAMPLE_VERSES, prompts, EXAMPLE_SEGMENTS, src);
    ExampleOverlaps(AlignedScenes(EXAMPLE_VERSES, prompts, EXAMPLE_SEGMENTS), src);
  }

  lemma ExampleOverlaps(aligned: seq<Scene>, src: Source)
    requires SpansOf(aligned) == EXAMPLE_SPANS && src.maxScenes >= 4
    ensures var cs := FinalScenes(aligned, src);
            |cs| == 4 && cs[2].start == 9.0 && cs[2].end == 14.0 && cs[3].start == 5.0 && !Tiles(cs)
  {
    assert |aligned| == 4;
    assert forall k :: 0 <= k < 4 ==>
           aligned[k].start == EXAMPLE_SPANS[k].start && aligned[k].end == EXAMPLE_SPANS[k].end;
    hide FinalScenes, SanitiseOne, Tiles;
    ShortFinal(aligned, src, 2);
    ShortFinal(aligned, src, 3);
    NineToFive(2, aligned[2], aligned[3], src.style);
    TilesForward(FinalScenes(aligned, src));
  }

  lemma AlignedSpans(verses: seq<string>, prompts: seq<string>, segs: seq<Segment>)
    requires segs != [] && |prompts| == |verses|
    ensures SpansOf(AlignedScenes(verses, prompts, segs)) == Spans(Place(verses, segs, |verses|).placed, segs)
  {
  }

  lemma TilesForward(cs: seq<Clean>)
    requires |cs| == 4 && cs[2].end != cs[3].start
    ensures !Tiles(cs)
  {
    assert !Meets(cs, 2);
  }

  // Short scenes within the limit are only sanitised.
  lemma ShortFinal(aligned: seq<Scene>, src: Source, k: nat)
    requires k < |aligned| <= src.maxScenes
    requires forall j :: 0 <= j < |aligned| ==> aligned[j].end - aligned[j].start <= 10.0
    ensures |FinalScenes(aligned, src)| == |aligned|
    ensures FinalScenes(aligned, src)[k] == SanitiseOne(k, RawOf(aligned[k]), src.style)
  {
    ShortScenesStay(aligned);
    NotCut(aligned, src.maxScenes);
    SanitisedDicts(aligned, src);
    SanitiseFromDicts(aligned, src.style);
  }

  lemma NineToFive(k: nat, s: Scene, next: Scene, style: string)
    requires s.start == 9.0 && s.end == next.start == 5.0
    ensures SanitiseOne(k, RawOf(s), style).start == 9.0 && SanitiseOne(k, RawOf(s), style).end == 14.0
    ensures SanitiseOne(k + 1, RawOf(next), style).start == 5.0
  {
    OneScene(k, s, style);
    OneScene(k + 1, next, style);
    SecondsStay(9);
    SecondsStay(5);
  }

  // Twenty seconds in three parts: the middle part goes out with a duration of
  // 6.667 s between 6.667 s and 13.333 s, so it is not stable.
  lemma ThirdsAreNotStable()
    ensures var middle := SplitOne(Scene("v", "p", 0.0, 20.0, 20.0))[1];
            && SanitiseOne(1, RawOf(middle), "").duration == 6.667
            && SanitiseOne(1, RawOf(middle), "").end - SanitiseOne(1, RawOf(middle), "").start == 6.666
            && !Stable(1, RawOf(middle))
  {
    assert (20.0 / 7.0).Floor == 2;
    var s := SplitOne(Scene("v", "p", 0.0, 20.0, 20.0))[1];
    assert s.start == 20.0 / 3.0 && s.end == 40.0 / 3.0;
    assert (s.start * 1000.0).Floor == 6666 && (s.end * 1000.0).Floor == 13333;
    assert ((s.end - s.start) * 1000.0).Floor == 6666;
  }
}
