// Splitting scenes longer than ten seconds (scripts/analyze_lyrics.py, split_long_scenes).
module Splitting {
  import opened Common
  import opened Alignment

  datatype Scene = Scene(verse: string, prompt: string, start: real, end: real, duration: real)

  const VARIATIONS := ["", ", different angle, side view", ", close up shot, detailed",
                       ", wide angle, establishing shot", ", dynamic angle, cinematic composition"]

  function Parts(d: real): nat
    requires d > 10.0
  {
    Min((d / 7.0).Floor + 1, 4)
  }

  // Part number i, when every part is `part` seconds long.
  function Part(s: Scene, part: real, i: nat): Scene
    requires i < |VARIATIONS|
  {
    Scene(s.verse, s.prompt + VARIATIONS[i], s.start + i as real * part, s.start + (i + 1) as real * part, part)
  }

  function PartsOf(s: Scene, n: nat, part: real): (parts: seq<Scene>)
    requires n <= 4
    ensures |parts| == n && forall i :: 0 <= i < n ==> parts[i] == Part(s, part, i)
  {
    seq(n, i requires 0 <= i < n => Part(s, part, i))
  }

  function SplitOne(s: Scene): seq<Scene> {
    var d := s.end - s.start;
    if d > 10.0 then PartsOf(s, Parts(d), d / Parts(d) as real) else [s]
  }

  function Split(scenes: seq<Scene>): seq<Scene> {
    if scenes == [] then [] else Split(scenes[..|scenes| - 1]) + SplitOne(scenes[|scenes| - 1])
  }

  method SplitLongScenes(scenes: seq<Scene>) returns (newScenes: seq<Scene>)
    ensures newScenes == Split(scenes)
  {
    newScenes := [];
    for k := 0 to |scenes|
      invariant newScenes == Split(scenes[..k])
    {
      var scene := scenes[k];
      assert scenes[..k + 1][..k] == scenes[..k];
      var duration := scene.end - scene.start;
      if duration > 10.0 {
        var parts := SplitScene(scene, duration);
        newScenes := newScenes + parts;
      } else {
        newScenes := newScenes + [scene];
      }
    }
    assert scenes[..|scenes|] == scenes;
  }

  // The inner loop.
  method SplitScene(scene: Scene, duration: real) returns (parts: seq<Scene>)
    requires duration == scene.end - scene.start > 10.0
    ensures parts == SplitOne(scene)
  {
    var numParts := (duration / 7.0).Floor + 1;
    numParts := Min(numParts, 4);
    var partDuration := duration / numParts as real;
    parts := [];
    for i := 0 to numParts
      invariant |parts| == i && forall j :: 0 <= j < i ==> parts[j] == Part(scene, partDuration, j)
    {
      var newScene := scene.(start := scene.start + i as real * partDuration,
                             end := scene.start + (i + 1) as real * partDuration,
                             duration := partDuration,
                             prompt := scene.prompt + VARIATIONS[i % |VARIATIONS|]);
      parts := parts + [newScene];
    }
  }

  // ---- what splitting guarantees -----------------------------------------

  function SpanOf(s: Scene): Span { Span(s.start, s.end) }

  function SpansOf(scenes: seq<Scene>): (spans: seq<Span>)
    ensures |spans| == |scenes| && forall k :: 0 <= k < |scenes| ==> spans[k] == SpanOf(scenes[k])
  {
    seq(|scenes|, k requires 0 <= k < |scenes| => SpanOf(scenes[k]))
  }

  ghost predicate Honest(scenes: seq<Scene>) {
    forall k :: 0 <= k < |scenes| ==> scenes[k].duration == scenes[k].end - scenes[k].start
  }

  // The parts replace the scene exactly: same first and last moment, no gap, and
  // each part's duration is its length.
  ghost predicate Covers(parts: seq<Scene>, s: Scene) {
    && parts != [] && Chain(SpansOf(parts))
    && parts[0].start == s.start && parts[|parts| - 1].end == s.end
  }

  // A split scene becomes two to four parts of equal length, each more than 2.5
  // and at most max(7, d/4) seconds, that cover it exactly.
  lemma SplitOneCovers(s: Scene)
    ensures Covers(SplitOne(s), s)
    ensures s.end - s.start > 10.0 ==> 2 <= |SplitOne(s)| <= 4 && Honest(SplitOne(s))
    ensures s.end - s.start > 10.0 ==>
              forall k :: 0 <= k < |SplitOne(s)| ==>
                var quarter := (s.end - s.start) / 4.0;
                2.5 < SplitOne(s)[k].duration <= if quarter >= 7.0 then quarter else 7.0
    ensures s.end - s.start <= 10.0 ==> SplitOne(s) == [s]
  {
    var d := s.end - s.start;
    if d > 10.0 {
      var n := Parts(d);
      PartLength(d, n);
      EqualParts(s, n, d / n as real);
    }
  }

  // It becomes the fewest equal parts under seven seconds, but no more than four; they
  // keep its verse, the first one its prompt, and the others ask for another view.
  lemma FewestParts(s: Scene, k: nat)
    requires s.end - s.start > 10.0 && k < |SplitOne(s)|
    ensures var d, n, part := s.end - s.start, |SplitOne(s)|, SplitOne(s)[k];
            && n <= 4 && part.end - part.start == part.duration == d / n as real
            && (n < 4 ==> d / n as real < 7.0)
            && (n > 2 ==> d / (n - 1) as real >= 7.0)
            && part.verse == s.verse
            && part.prompt == s.prompt + (if k == 0 then "" else if k == 1 then ", different angle, side view"
                                          else if k == 2 then ", close up shot, detailed"
                                          else ", wide angle, establishing shot")
  {
    var d := s.end - s.start;
    var n := Parts(d);
    PartLength(d, n);
    PartSpan(s, d / n as real, k);
    PartsNeeded(d, n);
    assert VARIATIONS[0] == "" && VARIATIONS[1] == ", different angle, side view";
    assert VARIATIONS[2] == ", close up shot, detailed" && VARIATIONS[3] == ", wide angle, establishing shot";
    hide Parts;
  }

  lemma PartsNeeded(d: real, n: nat)
    requires d > 10.0 && n == Parts(d)
    ensures n == 2 || n == 3 || n == 4
    ensures n < 4 ==> d / n as real < 7.0
    ensures n > 2 ==> d / (n - 1) as real >= 7.0
  {
    assert d / 7.0 > 1.0;
    assert n < 4 ==> d / 7.0 < n as real;
    assert d / 7.0 >= (n - 1) as real;
    if n == 2 { assert d / 2.0 < 7.0; }
    if n == 3 { assert d / 3.0 < 7.0 && d / 2.0 >= 7.0; }
    if n == 4 { assert d / 3.0 >= 7.0; }
  }

  lemma PartSpan(s: Scene, part: real, i: nat)
    requires i < |VARIATIONS|
    ensures Part(s, part, i).end - Part(s, part, i).start == part
  {
    assert (i + 1) as real * part == i as real * part + part;
  }

  lemma EqualParts(s: Scene, n: nat, part: real)
    requires 2 <= n <= 4 && n as real * part == s.end - s.start
    ensures Covers(PartsOf(s, n, part), s) && Honest(PartsOf(s, n, part))
  {
    var parts := PartsOf(s, n, part);
    assert parts[0].start == s.start + 0.0 * part;
    forall k | 0 <= k < n
      ensures parts[k].end - parts[k].start == part
      ensures k + 1 < n ==> parts[k].end == parts[k + 1].start
      ensures k == n - 1 ==> parts[k].end == s.start + n as real * part
    {
      PartSpan(s, part, k);
    }
    hide Part, PartsOf;
  }

  lemma PartLength(d: real, n: nat)
    requires d > 10.0 && n == Parts(d)
    ensures 2 <= n <= 4 && n as real * (d / n as real) == d
    ensures 2.5 < d / n as real
    ensures d / n as real <= if d / 4.0 >= 7.0 then d / 4.0 else 7.0
  {
    assert d / 7.0 > 1.0;
    var part := d / n as real;
    assert n as real * part == d;
    if n == 2 { assert part == d / 2.0; } else if n == 3 { assert part == d / 3.0; } else { assert part == d / 4.0; }
  }

  // Splitting a chain keeps it a chain over the same stretch, and so its length.
  lemma {:induction false} SplitKeepsTheChain(scenes: seq<Scene>)
    requires scenes != [] && Chain(SpansOf(scenes))
    ensures Split(scenes) != [] && Chain(SpansOf(Split(scenes)))
    ensures Split(scenes)[0].start == scenes[0].start
    ensures Split(scenes)[|Split(scenes)| - 1].end == scenes[|scenes| - 1].end
  {
    ghost var front, last := scenes[..|scenes| - 1], scenes[|scenes| - 1];
    ghost var out, tail := Split(front), SplitOne(last);
    assert Split(scenes) == out + tail && (front == [] ==> out == []);
    SplitOneCovers(last);
    assert tail != [] && Chain(SpansOf(tail)) && tail[0].start == last.start && tail[|tail| - 1].end == last.end;
    hide *;
    if front == [] {
      assert out + tail == tail;
    } else {
      ChainFront(scenes);
      SplitKeepsTheChain(front);
      JoinChains(out, tail);
    }
  }

  lemma SplitKeepsTheLength(scenes: seq<Scene>)
    requires scenes != [] && Chain(SpansOf(scenes))
    ensures TotalLength(SpansOf(Split(scenes))) == TotalLength(SpansOf(scenes))
  {
    hide Split, Chain, TotalLength;
    SplitKeepsTheChain(scenes);
    ChainTelescopes(SpansOf(scenes));
    ChainTelescopes(SpansOf(Split(scenes)));
  }

  // Durations stay equal to the distance between start and end.
  lemma {:induction false} SplitKeepsHonesty(scenes: seq<Scene>)
    requires Honest(scenes)
    ensures Honest(Split(scenes))
  {
    if scenes != [] {
      SplitKeepsHonesty(scenes[..|scenes| - 1]);
      SplitOneCovers(scenes[|scenes| - 1]);
    }
  }

  lemma ChainFront(scenes: seq<Scene>)
    requires |scenes| >= 2 && Chain(SpansOf(scenes))
    ensures Chain(SpansOf(scenes[..|scenes| - 1]))
    ensures scenes[|scenes| - 2].end == scenes[|scenes| - 1].start
  {
    var front := scenes[..|scenes| - 1];
    forall k | 0 <= k < |front| - 1
      ensures SpansOf(front)[k].end == SpansOf(front)[k + 1].start
    {
      assert SpansOf(scenes)[k].end == SpansOf(scenes)[k + 1].start;
    }
    assert SpansOf(scenes)[|scenes| - 2].end == SpansOf(scenes)[|scenes| - 1].start;
  }

  lemma JoinChains(a: seq<Scene>, b: seq<Scene>)
    requires a != [] && b != [] && Chain(SpansOf(a)) && Chain(SpansOf(b))
    requires a[|a| - 1].end == b[0].start
    ensures Chain(SpansOf(a + b)) && (a + b)[0] == a[0] && (a + b)[|a + b| - 1] == b[|b| - 1]
  {
    var j := SpansOf(a + b);
    forall k | 0 <= k < |j| - 1
      ensures j[k].end == j[k + 1].start
    {
      if k < |a| - 1 {
        assert SpansOf(a)[k].end == SpansOf(a)[k + 1].start;
      } else if k >= |a| {
        assert SpansOf(b)[k - |a|].end == SpansOf(b)[k - |a| + 1].start;
      }
    }
  }

  // ---- after alignment ---------------------------------------------------

  // The aligned scenes as values; verses and prompts are those of the input.
  function AlignedScenes(verses: seq<string>, prompts: seq<string>, segs: seq<Segment>): (scenes: seq<Scene>)
    requires segs != [] && |prompts| == |verses|
    ensures |scenes| == |Place(verses, segs, |verses|).placed|
  {
    var placed := Place(verses, segs, |verses|).placed;
    PlacementKeepsOrder(verses, segs, |verses|);
    seq(|placed|, k requires 0 <= k < |placed| =>
      assert TrueMatch(verses, segs, placed[k], |verses|, Place(verses, segs, |verses|).next);
      var p := placed[k];
      Scene(verses[p.scene], prompts[p.scene], StartOf(placed, segs, k), EndOf(placed, segs, k),
            EndOf(placed, segs, k) - StartOf(placed, segs, k)))
  }

  // Aligning and then splitting leaves a gap-free chain with honest durations that
  // add up to the stretch from the first start to the last end.
  lemma AlignThenSplit(verses: seq<string>, prompts: seq<string>, segs: seq<Segment>)
    requires segs != [] && |prompts| == |verses| && Place(verses, segs, |verses|).placed != []
    ensures var placed := Place(verses, segs, |verses|).placed;
            var out := Split(AlignedScenes(verses, prompts, segs));
            && Chain(SpansOf(out)) && Honest(out)
            && TotalLength(SpansOf(out)) == EndOf(placed, segs, |placed| - 1) - StartOf(placed, segs, 0)
  {
    var placed := Place(verses, segs, |verses|).placed;
    var scenes := AlignedScenes(verses, prompts, segs);
    AlignmentIsGapFree(placed, segs);
    assert SpansOf(scenes) == Spans(placed, segs);
    SplitKeepsTheLength(scenes);
    SplitKeepsTheChain(scenes);
    SplitKeepsHonesty(scenes);
  }
}
