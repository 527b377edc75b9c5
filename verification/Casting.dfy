// The casting and continuity machine that scene finalisation drives: which
// frame becomes the anchor and which frames are exposed
// (scripts/generate_images.py, finalize_scene).
module Casting {
  import opened Common
  import opened FrameExposer
  import opened Providers

  // What finalisation reads of one finished scene.
  datatype Frame = Frame(prompt: string, verse: VerseType, cues: Cues, provider: Provider, error: bool)

  datatype Config = Config(exposer: bool, threshold: int, forceAfterSkips: nat, forceMinScore: nat)

  // protagonist_base and consecutive_casting_skips.
  datatype State = State(anchor: Option<string>, skips: nat)

  const INITIAL := State(None, 0)

  // `mode` and `score` are absent when the frame was not checked.
  datatype Decision = Decision(exposed: bool, anchored: bool, mode: Option<Mode>, score: Option<int>)

  function Base(s: State): string { if s.anchor.Some? then s.anchor.value else "" }

  // The exposure block of finalize_scene for one frame.
  function Decide(cfg: Config, s: State, f: Frame): (Decision, State) {
    if !cfg.exposer || f.provider != Comfyui then
      (Decision(true, false, None, None), s)
    else
      var e := FullExposureCheck(f.prompt, f.verse, f.cues, Base(s), cfg.threshold);
      var forced := !e.expose && s.anchor.None? && !f.error && e.mode == FrameExposer.Casting
                    && s.skips >= cfg.forceAfterSkips && e.score >= cfg.forceMinScore;
      var anchored := (forced || e.setAsAnchor) && s.anchor.None?;
      var anchor := if anchored then Some(f.prompt) else s.anchor;
      var skips := if anchor.None? && e.mode == FrameExposer.Casting then s.skips + 1 else 0;
      (Decision(e.expose || forced, anchored, Some(e.mode), Some(e.score)), State(anchor, skips))
  }

  // A plain in-order loop over the frames.
  function StateAt(cfg: Config, frames: seq<Frame>, k: nat): State
    requires k <= |frames|
  {
    if k == 0 then INITIAL else Decide(cfg, StateAt(cfg, frames, k - 1), frames[k - 1]).1
  }

  function DecisionAt(cfg: Config, frames: seq<Frame>, k: nat): Decision
    requires k < |frames|
  {
    Decide(cfg, StateAt(cfg, frames, k), frames[k]).0
  }

  lemma {:induction false} StateAtPrefix(cfg: Config, frames: seq<Frame>, more: seq<Frame>, k: nat)
    requires k <= |frames|
    ensures StateAt(cfg, frames + more, k) == StateAt(cfg, frames, k)
  {
    if k > 0 { StateAtPrefix(cfg, frames, more, k - 1); }
  }

  // ---- what the run is for, in terms of the frames alone ----------------

  predicate Checked(cfg: Config, f: Frame) { cfg.exposer && f.provider == Comfyui }

  predicate Solo(cfg: Config, f: Frame) { Checked(cfg, f) && !f.cues.versePlural }

  function FrameScore(f: Frame): int { Score(f.verse, f.cues) }

  // Solo frames among the first k since the last plural one.
  function SoloRun(cfg: Config, frames: seq<Frame>, k: nat): nat
    requires k <= |frames|
  {
    if k == 0 then 0
    else if !Checked(cfg, frames[k - 1]) then SoloRun(cfg, frames, k - 1)
    else if Solo(cfg, frames[k - 1]) then SoloRun(cfg, frames, k - 1) + 1
    else 0
  }

  // Frame k is good enough to be the anchor: outright, or after a long enough
  // run of refused solo frames.
  predicate Castable(cfg: Config, frames: seq<Frame>, k: nat)
    requires k < |frames|
  {
    && Solo(cfg, frames[k])
    && (|| FrameScore(frames[k]) >= cfg.threshold
        || (!frames[k].error && SoloRun(cfg, frames, k) >= cfg.forceAfterSkips
            && FrameScore(frames[k]) >= cfg.forceMinScore))
  }

  ghost predicate NoneCastable(cfg: Config, frames: seq<Frame>, k: nat)
    requires k <= |frames|
  {
    forall j :: 0 <= j < k ==> !Castable(cfg, frames, j)
  }

  ghost predicate FirstCastable(cfg: Config, frames: seq<Frame>, a: nat)
    requires a < |frames|
  {
    Castable(cfg, frames, a) && NoneCastable(cfg, frames, a)
  }

  // The scheduler only runs scenes with a prompt.
  ghost predicate Prompted(frames: seq<Frame>) {
    forall k :: 0 <= k < |frames| ==> frames[k].prompt != ""
  }

  lemma {:induction false} BeforeTheAnchor(cfg: Config, frames: seq<Frame>, k: nat)
    requires k <= |frames| && NoneCastable(cfg, frames, k)
    ensures StateAt(cfg, frames, k) == State(None, SoloRun(cfg, frames, k))
  {
    if k > 0 {
      BeforeTheAnchor(cfg, frames, k - 1);
      assert !Castable(cfg, frames, k - 1);
    }
  }

  lemma {:induction false} AfterTheAnchor(cfg: Config, frames: seq<Frame>, a: nat, k: nat)
    requires a < k <= |frames| && FirstCastable(cfg, frames, a) && Prompted(frames)
    ensures StateAt(cfg, frames, k).anchor == Some(frames[a].prompt)
    decreases k
  {
    if k == a + 1 {
      BeforeTheAnchor(cfg, frames, a);
    } else {
      AfterTheAnchor(cfg, frames, a, k - 1);
    }
  }

  // The anchor is written once, by the first castable frame, and stays.
  lemma AnchorIsTheFirstCastable(cfg: Config, frames: seq<Frame>, k: nat)
    requires k <= |frames| && Prompted(frames)
    ensures StateAt(cfg, frames, k).anchor.None? <==> NoneCastable(cfg, frames, k)
    ensures forall a :: 0 <= a < k && FirstCastable(cfg, frames, a) ==>
              StateAt(cfg, frames, k).anchor == Some(frames[a].prompt)
  {
    if NoneCastable(cfg, frames, k) {
      BeforeTheAnchor(cfg, frames, k);
    } else {
      var a := TheFirstCastable(cfg, frames, k);
      AfterTheAnchor(cfg, frames, a, k);
    }
    forall a | 0 <= a < k && FirstCastable(cfg, frames, a)
      ensures StateAt(cfg, frames, k).anchor == Some(frames[a].prompt)
    {
      AfterTheAnchor(cfg, frames, a, k);
    }
  }

  lemma {:induction false} TheFirstCastable(cfg: Config, frames: seq<Frame>, k: nat) returns (a: nat)
    requires k <= |frames| && !NoneCastable(cfg, frames, k)
    ensures a < k && FirstCastable(cfg, frames, a)
  {
    if NoneCastable(cfg, frames, k - 1) {
      a := k - 1;
    } else {
      a := TheFirstCastable(cfg, frames, k - 1);
    }
  }

  // Every exposure of a run, from the frames alone: up to and at the anchor...
  lemma ExposureUpToTheAnchor(cfg: Config, frames: seq<Frame>, k: nat)
    requires k < |frames| && Prompted(frames) && NoneCastable(cfg, frames, k)
    ensures DecisionAt(cfg, frames, k).anchored <==> Castable(cfg, frames, k)
    ensures DecisionAt(cfg, frames, k).exposed <==>
            || !Checked(cfg, frames[k])
            || Castable(cfg, frames, k)
            || (frames[k].cues.versePlural && FrameScore(frames[k]) >= EXPOSE_SCORE)
  {
    BeforeTheAnchor(cfg, frames, k);
  }

  // ... and after it.
  lemma ExposureAfterTheAnchor(cfg: Config, frames: seq<Frame>, a: nat, k: nat)
    requires a < k < |frames| && Prompted(frames) && FirstCastable(cfg, frames, a)
    ensures !DecisionAt(cfg, frames, k).anchored
    ensures DecisionAt(cfg, frames, k).exposed <==>
            || !Checked(cfg, frames[k])
            || (&& FrameScore(frames[k]) >= EXPOSE_SCORE
                && (frames[k].cues.versePlural || Consistent(frames[a].prompt, frames[k].prompt)))
  {
    AfterTheAnchor(cfg, frames, a, k);
  }

  // Frame k goes out exposed, from the frames alone: it is not checked; or, while no
  // frame before it is castable, it is castable or plural and of quality; or it is of
  // quality and plural or consistent with the first castable frame before it.
  ghost predicate Shown(cfg: Config, frames: seq<Frame>, k: nat)
    requires k < |frames|
  {
    var f := frames[k];
    || !cfg.exposer || f.provider != Comfyui
    || (NoneCastable(cfg, frames, k) && (Castable(cfg, frames, k) || (f.cues.versePlural && FrameScore(f) >= 3)))
    || (FrameScore(f) >= 3
        && exists a :: 0 <= a < k && FirstCastable(cfg, frames, a)
                       && (f.cues.versePlural || Consistent(frames[a].prompt, f.prompt)))
  }

  lemma ExposedIff(cfg: Config, frames: seq<Frame>, k: nat)
    requires k < |frames| && Prompted(frames)
    ensures DecisionAt(cfg, frames, k).exposed <==> Shown(cfg, frames, k)
    ensures DecisionAt(cfg, frames, k).score == if Checked(cfg, frames[k]) then Some(FrameScore(frames[k])) else None
  {
    hide Castable, Consistent;
    if NoneCastable(cfg, frames, k) {
      ExposureUpToTheAnchor(cfg, frames, k);
    } else {
      var a := TheFirstCastable(cfg, frames, k);
      ExposureAfterTheAnchor(cfg, frames, a, k);
      OnlyFirst(cfg, frames, a, k);
    }
    ScoreOfDecision(cfg, StateAt(cfg, frames, k), frames[k]);
    hide Decide, StateAt;
  }

  lemma OnlyFirst(cfg: Config, frames: seq<Frame>, a: nat, k: nat)
    requires a < k < |frames| && FirstCastable(cfg, frames, a)
    ensures forall b :: 0 <= b < k && FirstCastable(cfg, frames, b) ==> b == a
  {
    hide Castable;
  }

  lemma ScoreOfDecision(cfg: Config, s: State, f: Frame)
    ensures Decide(cfg, s, f).0.score == if Checked(cfg, f) then Some(FrameScore(f)) else None
  {
  }

  lemma {:induction false} AnchorStays(cfg: Config, frames: seq<Frame>, j: nat, k: nat)
    requires j <= k <= |frames| && StateAt(cfg, frames, j).anchor.Some?
    ensures StateAt(cfg, frames, k).anchor == StateAt(cfg, frames, j).anchor
    decreases k
  {
    if j < k { AnchorStays(cfg, frames, j, k - 1); }
  }

  // In particular: one anchoring frame per run, exposed, solo, and no solo frame
  // before it is exposed.
  lemma AtMostOneAnchor(cfg: Config, frames: seq<Frame>, i: nat, j: nat)
    requires i < |frames| && j < |frames| && Prompted(frames)
    requires DecisionAt(cfg, frames, i).anchored
    ensures DecisionAt(cfg, frames, i).exposed && Solo(cfg, frames[i])
    ensures DecisionAt(cfg, frames, j).anchored ==> i == j
    ensures j < i && Solo(cfg, frames[j]) ==> !DecisionAt(cfg, frames, j).exposed
    ensures StateAt(cfg, frames, |frames|).anchor == Some(frames[i].prompt)
  {
    AnchorIsTheFirstCastable(cfg, frames, i);
    ExposureUpToTheAnchor(cfg, frames, i);
    AnchorIsTheFirstCastable(cfg, frames, j);
    AfterTheAnchor(cfg, frames, i, |frames|);
    if NoneCastable(cfg, frames, j) {
      ExposureUpToTheAnchor(cfg, frames, j);
    } else {
      ExposureAfterTheAnchor(cfg, frames, i, j);
    }
  }

  // The intro cannot stay frozen: after `forceAfterSkips` refused solo frames in
  // a row, the next solo frame without an error that scores the forced minimum
  // ends the search.
  lemma IntroCannotStayFrozen(cfg: Config, frames: seq<Frame>, k: nat)
    requires k < |frames| && Prompted(frames)
    requires Solo(cfg, frames[k]) && !frames[k].error
    requires SoloRun(cfg, frames, k) >= cfg.forceAfterSkips && FrameScore(frames[k]) >= cfg.forceMinScore
    ensures StateAt(cfg, frames, k + 1).anchor.Some?
    ensures NoneCastable(cfg, frames, k) ==> DecisionAt(cfg, frames, k).exposed
  {
    AnchorIsTheFirstCastable(cfg, frames, k + 1);
    if NoneCastable(cfg, frames, k) { ExposureUpToTheAnchor(cfg, frames, k); }
  }

  ghost predicate TooWeak(cfg: Config, frames: seq<Frame>, k: nat)
    requires k < |frames|
  {
    && FrameScore(frames[k]) < cfg.threshold
    && (SoloRun(cfg, frames, k) < cfg.forceAfterSkips || FrameScore(frames[k]) < cfg.forceMinScore)
  }

  // A run without an anchor is exactly one where every solo frame was too weak.
  lemma FrozenIff(cfg: Config, frames: seq<Frame>)
    requires Prompted(frames)
    requires forall k :: 0 <= k < |frames| && Checked(cfg, frames[k]) ==> !frames[k].error
    ensures StateAt(cfg, frames, |frames|).anchor.None? <==>
            forall k :: 0 <= k < |frames| && Solo(cfg, frames[k]) ==> TooWeak(cfg, frames, k)
  {
    AnchorIsTheFirstCastable(cfg, frames, |frames|);
    forall k | 0 <= k < |frames|
      ensures !Castable(cfg, frames, k) <==> (Solo(cfg, frames[k]) ==> TooWeak(cfg, frames, k))
    {
      assert Solo(cfg, frames[k]) ==> !frames[k].error;
    }
  }
}
