// What the images of a run report: each field in terms of the scene's payload and of
// the frames of the run alone (scripts/generate_images.py, finalize_scene).
module StageImages {
  import opened Common
  import opened Providers
  import opened QualityScore
  import opened QualityRetry
  import opened StageModel
  import Casting

  // The payloads behind a list of images.
  function Delivered(images: seq<Image>, payloads: map<nat, Payload>): (ps: seq<Payload>)
    requires forall k :: 0 <= k < |images| ==> images[k].sceneIndex in payloads
    ensures |ps| == |images| && forall k :: 0 <= k < |images| ==> ps[k] == payloads[images[k].sceneIndex]
  {
    seq(|images|, k requires 0 <= k < |images| => payloads[images[k].sceneIndex])
  }

  // The image passes on what the worker delivered for the scene.
  predicate PassesOn(image: Image, p: Payload) {
    && image.provider == p.result.provider && image.isFallback == p.result.error
    && image.retryCount == p.result.retryCount && image.trace == p.result.trace
  }

  // The quality of the kept attempt before exposure; a worker that raised counts zero.
  function QualityBefore(p: Payload): real {
    var r := p.result;
    if r == EXCEPTION_RESULT then 0.0
    else Quality(p.scene.traits, r.strict, r.provider, r.error || r.provider == Mock, false, None)
  }

  // Its quality after exposure, with the frame score when the frame was checked.
  function QualityAfter(cfg: Casting.Config, p: Payload, exposed: bool): real {
    var r, f := p.result, FrameOf(p);
    var score := if Casting.Checked(cfg, f) then Some(Casting.FrameScore(f)) else None;
    Quality(p.scene.traits, r.strict, r.provider, r.error, !exposed, score)
  }

  ghost predicate InTimelineOrder(images: seq<Image>) {
    forall j, k :: 0 <= j < k < |images| ==> images[j].sceneIndex < images[k].sceneIndex
  }

  // Image k goes out exposed as the frames say, and of the mean quality.
  ghost predicate Judged(cfg: Casting.Config, image: Image, ps: seq<Payload>, k: nat)
    requires k < |ps|
  {
    && (image.exposed <==> Casting.Shown(cfg, Frames(ps), k))
    && image.quality == (QualityBefore(ps[k]) + QualityAfter(cfg, ps[k], image.exposed)) / 2.0
  }

  // One image per delivered scene, in timeline order, with what was delivered, and
  // each of them judged by the frames up to it.
  ghost predicate Reports(cfg: Casting.Config, images: seq<Image>, payloads: map<nat, Payload>) {
    && (forall k :: 0 <= k < |images| ==>
          images[k].sceneIndex in payloads && PassesOn(images[k], payloads[images[k].sceneIndex]))
    && InTimelineOrder(images)
    && forall k :: 0 <= k < |images| ==> Judged(cfg, images[k], Delivered(images, payloads), k)
  }

  function RetriesOf(images: seq<Image>): nat {
    if images == [] then 0 else RetriesOf(images[..|images| - 1]) + images[|images| - 1].retryCount
  }

  lemma {:induction false} ReportedByImages(cfg: Casting.Config, ps: seq<Payload>)
    ensures RetriesOf(Images(cfg, ps)) == ReportedRetries(ps)
  {
    hide FrameOf, Casting.Decide, Casting.StateAt, Quality;
    if ps != [] {
      var n := |ps| - 1;
      ReportedByImages(cfg, ps[..n]);
      ImagesGrow(cfg, ps[..n], [ps[n]]);
      assert ps[..n] + [ps[n]] == ps;
    }
  }

  // The payloads of scenes with a prompt before scene n, by increasing index.
  ghost predicate Timeline(scenes: seq<Scene>, payloads: map<nat, Payload>, ps: seq<Payload>, n: nat) {
    && (forall k :: 0 <= k < |ps| ==> ps[k].index < n && ps[k].index in payloads && ps[k] == payloads[ps[k].index])
    && (forall k :: 0 <= k < |ps| ==> HasPrompt(scenes, ps[k].index))
    && (forall j, k :: 0 <= j < k < |ps| ==> ps[j].index < ps[k].index)
  }

  lemma TimelineSnoc(scenes: seq<Scene>, payloads: map<nat, Payload>, ps: seq<Payload>, n: nat)
    requires Timeline(scenes, payloads, ps, n)
    ensures Timeline(scenes, payloads, ps, n + 1)
    ensures HasPrompt(scenes, n) && n in payloads && payloads[n].index == n ==>
              Timeline(scenes, payloads, ps + [payloads[n]], n + 1)
  {
  }

  lemma {:induction false} InOrderIsOrdered(scenes: seq<Scene>, payloads: map<nat, Payload>, n: nat)
    requires n <= |scenes|
    requires forall i: nat :: i < n && HasPrompt(scenes, i) ==> i in payloads && payloads[i].index == i
    ensures Timeline(scenes, payloads, InOrder(scenes, payloads, n), n)
  {
    if n > 0 {
      hide Timeline;
      InOrderIsOrdered(scenes, payloads, n - 1);
      TimelineSnoc(scenes, payloads, InOrder(scenes, payloads, n - 1), n - 1);
    } else {
      assert InOrder(scenes, payloads, 0) == [];
    }
  }

  lemma {:induction false} InOrderHasAll(scenes: seq<Scene>, payloads: map<nat, Payload>, n: nat, i: nat)
    requires i < n <= |scenes| && HasPrompt(scenes, i)
    requires forall i: nat :: i < n && HasPrompt(scenes, i) ==> i in payloads && payloads[i].index == i
    ensures exists k :: 0 <= k < |InOrder(scenes, payloads, n)| && InOrder(scenes, payloads, n)[k].index == i
  {
    var ps := InOrder(scenes, payloads, n);
    if i == n - 1 {
      assert ps[|ps| - 1].index == i;
    } else {
      InOrderHasAll(scenes, payloads, n - 1, i);
      var before := InOrder(scenes, payloads, n - 1);
      var k :| 0 <= k < |before| && before[k].index == i;
      assert ps[k].index == i;
    }
  }

  lemma OneImage(cfg: Casting.Config, ps: seq<Payload>, k: nat)
    requires k < |ps| && Casting.Prompted(Frames(ps))
    ensures var image, d := Images(cfg, ps)[k], Casting.DecisionAt(cfg, Frames(ps), k);
            && image.sceneIndex == ps[k].index && PassesOn(image, ps[k])
            && image == ImageOf(ps[k], d)
            && image.exposed == d.exposed && (image.exposed <==> Casting.Shown(cfg, Frames(ps), k))
            && d.score == (if Casting.Checked(cfg, FrameOf(ps[k])) then Some(Casting.FrameScore(FrameOf(ps[k])))
               else None)
  {
    hide Casting.Decide, Casting.StateAt, Casting.Shown, Quality;
    Casting.ExposedIff(cfg, Frames(ps), k);
  }

  // In every sound state the images report what was delivered.
  lemma ImagesReport(c: StageConfig, s: Snapshot)
    requires Inv(c, s)
    ensures Reports(c.cfg, s.generated, s.payloads)
  {
    GeneratedAre(c, s);
    var ps := InOrder(c.scenes, s.payloads, s.fin);
    forall k | 0 <= k < |s.generated|
      ensures s.generated[k].sceneIndex == ps[k].index && PassesOn(s.generated[k], ps[k])
      ensures Judged(c.cfg, s.generated[k], ps, k)
    {
      ImageReports(c, s, k);
    }
    hide Inv, Judged, PassesOn, InOrder, Images;
    assert Delivered(s.generated, s.payloads) == ps by { DeliveredIs(c, s, ps); }
  }

  lemma DeliveredIs(c: StageConfig, s: Snapshot, ps: seq<Payload>)
    requires |s.generated| == |ps| && Timeline(c.scenes, s.payloads, ps, s.fin)
    requires forall k :: 0 <= k < |ps| ==> s.generated[k].sceneIndex == ps[k].index
    ensures forall k :: 0 <= k < |ps| ==> s.generated[k].sceneIndex in s.payloads
    ensures Delivered(s.generated, s.payloads) == ps
  {
  }

  lemma ImageReports(c: StageConfig, s: Snapshot, k: nat)
    requires Inv(c, s) && k < |s.generated|
    ensures s.fin <= |c.scenes|
    ensures forall i: nat :: i < s.fin && HasPrompt(c.scenes, i) ==> i in s.payloads
    ensures var ps := InOrder(c.scenes, s.payloads, s.fin);
            && k < |ps| && s.generated[k].sceneIndex == ps[k].index && PassesOn(s.generated[k], ps[k])
            && Judged(c.cfg, s.generated[k], ps, k)
  {
    GeneratedAre(c, s);
    FramesAreCastable(c, s);
    var ps := InOrder(c.scenes, s.payloads, s.fin);
    var d := Casting.DecisionAt(c.cfg, Frames(ps), k);
    TimelineAt(c.scenes, s.payloads, ps, s.fin, k);
    hide *;
    OneImage(c.cfg, ps, k);
    ImageQualityIsTheMean(c, s, ps[k].index, d);
    JudgedAt(c.cfg, s.generated[k], ps, k, d);
  }

  lemma TimelineAt(scenes: seq<Scene>, payloads: map<nat, Payload>, ps: seq<Payload>, n: nat, k: nat)
    requires Timeline(scenes, payloads, ps, n) && k < |ps|
    ensures ps[k].index in payloads && ps[k] == payloads[ps[k].index]
  {
  }

  lemma JudgedAt(cfg: Casting.Config, image: Image, ps: seq<Payload>, k: nat, d: Casting.Decision)
    requires k < |ps| && image == ImageOf(ps[k], d) && image.exposed == d.exposed
    requires image.exposed <==> Casting.Shown(cfg, Frames(ps), k)
    requires d.score == if Casting.Checked(cfg, FrameOf(ps[k])) then Some(Casting.FrameScore(FrameOf(ps[k]))) else None
    requires var r, t := ps[k].result, ps[k].scene.traits;
             var before := if r == EXCEPTION_RESULT then 0.0
               else Quality(t, r.strict, r.provider, r.error || r.provider == Mock, false, None);
             image.quality == (before + Quality(t, r.strict, r.provider, r.error, !d.exposed, d.score)) / 2.0
    ensures Judged(cfg, image, ps, k)
  {
    hide ImageOf, FrameOf, Quality, Casting.Shown, Casting.Checked, Casting.FrameScore;
  }

  lemma GeneratedAre(c: StageConfig, s: Snapshot)
    requires Inv(c, s)
    ensures s.fin <= |c.scenes|
    ensures forall i: nat :: i < s.fin && HasPrompt(c.scenes, i) ==> i in s.payloads
    ensures var ps := InOrder(c.scenes, s.payloads, s.fin);
            && s.generated == Images(c.cfg, ps) && |s.generated| == |ps|
            && Timeline(c.scenes, s.payloads, ps, s.fin)
  {
    PayloadIndices(c, s);
    hide Partition, WorkersOk, BudgetOk, PayloadOk, Images, CastAfter;
    InOrderIsOrdered(c.scenes, s.payloads, s.fin);
  }

  // The anchor is the prompt, with its steering, of the first castable scene that has
  // been finalised, and there is none exactly when no scene so far was castable.
  ghost predicate AnchorOf(cfg: Casting.Config, ps: seq<Payload>, anchor: Option<string>) {
    && (anchor.None? <==> Casting.NoneCastable(cfg, Frames(ps), |ps|))
    && forall a :: 0 <= a < |ps| && Casting.FirstCastable(cfg, Frames(ps), a) ==>
         anchor == Some(ps[a].scene.prompt + ps[a].scene.steering)
  }

  lemma AnchorReports(c: StageConfig, s: Snapshot)
    requires Inv(c, s)
    ensures forall k :: 0 <= k < |s.generated| ==> s.generated[k].sceneIndex in s.payloads
    ensures AnchorOf(c.cfg, Delivered(s.generated, s.payloads), s.cast.anchor)
  {
    GeneratedAre(c, s);
    FramesAreCastable(c, s);
    CastIsLast(c, s);
    var ps := InOrder(c.scenes, s.payloads, s.fin);
    hide *;
    forall k | 0 <= k < |s.generated|
      ensures s.generated[k].sceneIndex == ps[k].index
    {
      ImageReports(c, s, k);
    }
    DeliveredIs(c, s, ps);
    AnchorIs(c.cfg, ps);
  }

  lemma AnchorIs(cfg: Casting.Config, ps: seq<Payload>)
    requires Casting.Prompted(Frames(ps))
    ensures AnchorOf(cfg, ps, Casting.StateAt(cfg, Frames(ps), |ps|).anchor)
  {
    hide Casting.Castable, Casting.StateAt, Casting.NoneCastable, Casting.FirstCastable;
    Casting.AnchorIsTheFirstCastable(cfg, Frames(ps), |ps|);
  }

  // On a finished run every scene with a prompt has its image, and the retries of the
  // images are the ones reported.
  lemma FinishedImages(c: StageConfig, s: Snapshot)
    requires Inv(c, s) && Drained(c, s) && AllScheduled(c, s)
    ensures forall i: nat :: HasPrompt(c.scenes, i) <==> HasImage(s.generated, i)
    ensures forall i: nat :: HasPrompt(c.scenes, i) ==> i in s.payloads
    ensures RetriesOf(s.generated) == ReportedRetries(InOrder(c.scenes, s.payloads, |c.scenes|))
  {
    FinishedIsSequential(c, s);
    PayloadIndices(c, s);
    var n := |c.scenes|;
    var ps := InOrder(c.scenes, s.payloads, n);
    ReportedByImages(c.cfg, ps);
    InOrderIsOrdered(c.scenes, s.payloads, n);
    forall i: nat
      ensures HasPrompt(c.scenes, i) <==> HasImage(s.generated, i)
    {
      hide *;
      ImageIff(c, s.payloads, s.generated, i);
    }
  }

  lemma ImageIff(c: StageConfig, payloads: map<nat, Payload>, images: seq<Image>, i: nat)
    requires forall i: nat :: HasPrompt(c.scenes, i) ==> i in payloads && payloads[i].index == i
    requires images == Images(c.cfg, InOrder(c.scenes, payloads, |c.scenes|))
    requires Timeline(c.scenes, payloads, InOrder(c.scenes, payloads, |c.scenes|), |c.scenes|)
    ensures HasPrompt(c.scenes, i) <==> HasImage(images, i)
  {
    var n := |c.scenes|;
    var ps := InOrder(c.scenes, payloads, n);
    hide InOrder, ImageOf, Casting.DecisionAt;
    forall k | 0 <= k < |ps|
      ensures images[k].sceneIndex == ps[k].index
    {
      IndexOfImage(c.cfg, ps, k);
    }
    if HasPrompt(c.scenes, i) {
      InOrderHasAll(c.scenes, payloads, n, i);
      var k :| 0 <= k < |ps| && ps[k].index == i;
      assert images[k].sceneIndex == i;
    }
  }

  ghost predicate HasImage(images: seq<Image>, i: nat) { exists k :: 0 <= k < |images| && images[k].sceneIndex == i }

  lemma PayloadIndices(c: StageConfig, s: Snapshot)
    requires Inv(c, s)
    ensures forall i: nat :: i in s.payloads ==> s.payloads[i].index == i
  {
    hide Partition, WorkersOk, BudgetOk, Refines, ResultFor;
    assert forall i: nat :: i in s.payloads ==> PayloadOk(c, i, s.payloads[i]);
  }

  lemma IndexOfImage(cfg: Casting.Config, ps: seq<Payload>, k: nat)
    requires k < |ps|
    ensures Images(cfg, ps)[k].sceneIndex == ps[k].index
  {
    hide Casting.Decide, Casting.StateAt, Quality;
  }
}
