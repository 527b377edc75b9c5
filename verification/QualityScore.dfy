// compute_scene_quality_score (scripts/generate_images.py).  Every term that does
// not involve the exposure score is a whole number of hundredths.
module QualityScore {
  import opened Common
  import opened Providers

  // What the score reads of a scene's prompt, as keyword-test outcomes.
  datatype Traits = Traits(crowd: bool, textHeavy: bool, action: bool, multiPerson: bool,
                           longPrompt: bool, portraitContamination: bool)

  predicate Generic(p: Provider) { p == Pollinations || p == Picsum || p == Artic }

  function Off(b: bool, n: int): int { if b then -n else 0 }

  // What the provider and a failed generation take off or add.
  function OutputPoints(strict: bool, p: Provider, fallback: bool): int {
    Off(fallback, 68) + Off(p == Mock, 22) + (if !strict then 0 else if p == Gemini then 5 else -14)
  }

  // What a generic provider loses on scenes it is not made for.
  function MismatchPoints(t: Traits, p: Provider): int {
    Off(t.crowd && Generic(p), 10) + Off(t.textHeavy && Generic(p), 10) + Off(t.action && Generic(p), 8)
    + Off(p == Pollinations && t.longPrompt, 6)
  }

  // Unclamped score in hundredths.
  function Hundredths(t: Traits, strict: bool, p: Provider, fallback: bool, refused: bool): int {
    82 + OutputPoints(strict, p, fallback) + MismatchPoints(t, p) + Off(t.portraitContamination, 12) + Off(refused, 8)
  }

  function Clamp(x: real): (r: real)
    ensures 0.0 <= r <= 1.0
    ensures 0.0 <= x <= 1.0 ==> r == x
  {
    if x < 0.0 then 0.0 else if x > 1.0 then 1.0 else x
  }

  // Mix with the exposure score, when there is one, and clamp.
  function Mixed(hundredths: int, exposure: Option<int>): real {
    var s := hundredths as real / 100.0;
    Clamp(if exposure.None? then s else s * 0.7 + Clamp(exposure.value as real / 7.0) * 0.3)
  }

  function Quality(t: Traits, strict: bool, p: Provider, fallback: bool, refused: bool, exposure: Option<int>): real {
    Mixed(Hundredths(t, strict, p, fallback, refused), exposure)
  }

  // The running score in the order of the source.
  method ComputeSceneQualityScore(t: Traits, strict: bool, p: Provider, isFallback: bool, error: bool,
                                  exposed: Option<bool>, exposure: Option<int>) returns (score: real)
    ensures score == Quality(t, strict, p, isFallback || error, exposed == Some(false), exposure)
  {
    var h := HundredthsScore(t, strict, p, isFallback || error, exposed == Some(false));
    score := MixExposure(h, exposure);
  }

  method MixExposure(h: int, exposure: Option<int>) returns (score: real)
    ensures score == Mixed(h, exposure)
  {
    score := h as real / 100.0;
    if exposure.Some? {
      var normalized := Clamp(exposure.value as real / 7.0);
      score := score * 0.7 + normalized * 0.3;
    }
    score := Clamp(score);
  }

  method HundredthsScore(t: Traits, strict: bool, p: Provider, fallback: bool, refused: bool) returns (h: int)
    ensures h == Hundredths(t, strict, p, fallback, refused)
  {
    h := SubtractOutputFaults(strict, p, fallback, 82);
    h := SubtractProviderMismatch(t, p, h);
    if t.portraitContamination { h := h - 12; }
    if refused { h := h - 8; }
  }

  method SubtractOutputFaults(strict: bool, p: Provider, fallback: bool, before: int) returns (h: int)
    ensures h == before + OutputPoints(strict, p, fallback)
  {
    h := before;
    if fallback { h := h - 68; }
    if p == Mock { h := h - 22; }
    if strict && p != Gemini { h := h - 14; }
    if strict && p == Gemini { h := h + 5; }
  }

  method SubtractProviderMismatch(t: Traits, p: Provider, before: int) returns (h: int)
    ensures h == before + MismatchPoints(t, p)
  {
    h := before;
    if t.crowd && Generic(p) { h := h - 10; }
    if t.textHeavy && Generic(p) { h := h - 10; }
    if t.action && Generic(p) { h := h - 8; }
    if p == Pollinations && t.longPrompt { h := h - 6; }
  }

  // A fallback can never look good: 0.19 at best before exposure, 0.433 after a
  // perfect exposure score, both under the 0.55 that counts as low quality.
  lemma FallbackIsLowQuality(t: Traits, strict: bool, p: Provider, refused: bool, exposure: Option<int>)
    ensures Quality(t, strict, p, true, refused, exposure) < 0.55
    ensures Quality(t, strict, p, true, refused, None) <= 0.19
  {
    assert Hundredths(t, strict, p, true, refused) <= 19;
  }

  lemma MixedIsMonotone(h1: int, h2: int, e1: int, e2: int)
    requires h1 <= h2 && e1 <= e2
    ensures Mixed(h1, Some(e1)) <= Mixed(h2, Some(e2))
  {
    var n1, n2 := Clamp(e1 as real / 7.0), Clamp(e2 as real / 7.0);
    assert n1 <= n2 by { assert e1 as real / 7.0 <= e2 as real / 7.0; }
    assert h1 as real / 100.0 <= h2 as real / 100.0;
  }

  // A frame that is refused never scores above the same frame exposed, and a
  // better exposure score never lowers the result.
  lemma QualityIsMonotone(t: Traits, strict: bool, p: Provider, fallback: bool, e1: int, e2: int)
    requires e1 <= e2
    ensures Quality(t, strict, p, fallback, true, Some(e1)) <= Quality(t, strict, p, fallback, false, Some(e2))
    ensures Quality(t, strict, p, fallback, false, Some(e1)) <= Quality(t, strict, p, fallback, false, Some(e2))
  {
    var refused, shown := Hundredths(t, strict, p, fallback, true), Hundredths(t, strict, p, fallback, false);
    assert refused == shown - 8;
    MixedIsMonotone(refused, shown, e1, e2);
    MixedIsMonotone(shown, shown, e1, e2);
  }

  // ---- what each fact costs ----------------------------------------------

  // Two calls that differ in one fact about the output.
  lemma OutputFaultsCost(t: Traits, p: Provider, fallback: bool, refused: bool)
    ensures Hundredths(t, true, Gemini, fallback, refused) == Hundredths(t, false, Gemini, fallback, refused) + 5
    ensures p != Gemini ==> Hundredths(t, true, p, fallback, refused) == Hundredths(t, false, p, fallback, refused) - 14
    ensures forall strict :: Hundredths(t, strict, p, true, refused) == Hundredths(t, strict, p, false, refused) - 68
    ensures forall strict :: Hundredths(t, strict, p, fallback, true) == Hundredths(t, strict, p, fallback, false) - 8
    ensures forall strict ::
              Hundredths(t, strict, Mock, fallback, refused) == Hundredths(t, strict, Comfyui, fallback, refused) - 22
  {
  }

  // Two prompts that differ in one trait: only generic providers suffer from what a
  // scene shows, only Pollinations from its length, every provider from a portrait.
  lemma CrowdCosts(t: Traits, strict: bool, p: Provider, fallback: bool, refused: bool)
    ensures Hundredths(t.(crowd := true), strict, p, fallback, refused)
            == Hundredths(t.(crowd := false), strict, p, fallback, refused) - (if p == Pollinations || p == Picsum
              || p == Artic then 10 else 0)
  {
    hide OutputPoints;
  }

  lemma TextCosts(t: Traits, strict: bool, p: Provider, fallback: bool, refused: bool)
    ensures Hundredths(t.(textHeavy := true), strict, p, fallback, refused)
            == Hundredths(t.(textHeavy := false), strict, p, fallback, refused) - (if p == Pollinations || p == Picsum
              || p == Artic then 10 else 0)
  {
    hide OutputPoints;
  }

  lemma ActionCosts(t: Traits, strict: bool, p: Provider, fallback: bool, refused: bool)
    ensures Hundredths(t.(action := true), strict, p, fallback, refused)
            == Hundredths(t.(action := false), strict, p, fallback, refused) - (if p == Pollinations || p == Picsum
              || p == Artic then 8 else 0)
  {
    hide OutputPoints;
  }

  lemma LengthCosts(t: Traits, strict: bool, p: Provider, fallback: bool, refused: bool)
    ensures Hundredths(t.(longPrompt := true), strict, p, fallback, refused)
            == Hundredths(t.(longPrompt := false), strict, p, fallback, refused) - (if p == Pollinations then 6 else 0)
  {
    hide OutputPoints;
  }

  lemma PortraitCosts(t: Traits, strict: bool, p: Provider, fallback: bool, refused: bool)
    ensures Hundredths(t.(portraitContamination := true), strict, p, fallback, refused)
            == Hundredths(t.(portraitContamination := false), strict, p, fallback, refused) - 12
  {
    hide OutputPoints;
  }

  // A plain scene made by a provider without faults scores 0.82.
  lemma PlainScene(t: Traits, p: Provider)
    requires t == Traits(false, false, false, t.multiPerson, false, false) && p != Mock
    ensures Hundredths(t, false, p, false, false) == 82
  {
  }

  // Without an exposure score the quality is that score, kept between 0 and 1; an
  // exposure score counts three tenths, as a share of 7 that is kept between 0 and 1.
  lemma ExposureCounts(t: Traits, strict: bool, p: Provider, fallback: bool, refused: bool, e: int)
    ensures var h := Hundredths(t, strict, p, fallback, refused) as real / 100.0;
            var before := Quality(t, strict, p, fallback, refused, None);
            var after := Quality(t, strict, p, fallback, refused, Some(e));
            && (h <= 0.0 ==> before == 0.0)
            && (0.0 <= h <= 1.0 ==> before == h)
            && h <= 1.0
            && (h >= 0.0 && e <= 0 ==> after == 0.7 * h)
            && (h >= 0.0 && 0 <= e <= 7 ==> after == 0.7 * h + 0.3 * (e as real / 7.0))
            && (h >= 0.0 && e >= 7 ==> after == 0.7 * h + 0.3)
            && (h <= 0.0 && e <= 0 ==> after == 0.0)
  {
    assert Hundredths(t, strict, p, fallback, refused) <= 87;
    hide Hundredths;
    var h := Hundredths(t, strict, p, fallback, refused);
    assert h as real / 100.0 <= 0.87;
  }

  // Which attempts without an error fall under 0.55: those of a generic provider whose
  // faults add up.  A strict scene needs any two of the five, another one needs
  // crowd, text and action, or a portrait with two of crowd, text and action, or a
  // portrait and a long prompt with crowd or text.
  lemma PoorAttemptIff(t: Traits, strict: bool, p: Provider)
    requires p != Mock
    ensures Quality(t, strict, p, false, false, None) < 0.55 <==>
            && (p == Pollinations || p == Picsum || p == Artic)
            && var long := t.longPrompt && p == Pollinations;
               if strict then
                 var shown := Count(t.crowd) + Count(t.textHeavy) + Count(t.action);
                 shown + Count(long) + Count(t.portraitContamination) >= 2
               else
                 || (t.crowd && t.textHeavy && t.action)
                 || (t.portraitContamination && Count(t.crowd) + Count(t.textHeavy) + Count(t.action) >= 2)
                 || (t.portraitContamination && long && (t.crowd || t.textHeavy))
  {
    var h := Hundredths(t, strict, p, false, false);
    assert Quality(t, strict, p, false, false, None) < 0.55 <==> h < 55;
  }

  function Count(b: bool): nat { if b then 1 else 0 }
}
