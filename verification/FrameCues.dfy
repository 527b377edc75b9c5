// What each cue is worth to the score of a frame, and what each keyword list of the
// protagonist guard keeps out (scripts/frame_exposer.py).
module FrameCues {
  import opened Text
  import opened FrameExposer

  // ---- the score ---------------------------------------------------------

  const SILENT := Cues(false, false, false, false, false, false, false, false, false, false, false, false, false)

  // A frame without any cue scores one point for the absence of noise; a repetition
  // matches by itself.
  lemma SilentScore(t: VerseType)
    ensures Score(t, SILENT) == if t == Repetition then 3 else 1
  {
  }

  // What each part of the score reads.
  lemma SubjectReads(a: Cues, b: Cues)
    requires a.protagonist == b.protagonist && a.versePlural == b.versePlural && a.multi == b.multi
    ensures SubjectPoints(a) == SubjectPoints(b)
  {
  }

  lemma CrowdReads(a: Cues, b: Cues)
    requires a.versePlural == b.versePlural && a.multi == b.multi && a.clearFocus == b.clearFocus
    ensures CrowdPoints(a) == CrowdPoints(b)
  {
  }

  lemma StyleReads(t: VerseType, a: Cues, b: Cues)
    requires a.surreal == b.surreal && a.dreamlike == b.dreamlike && a.isAbstract == b.isAbstract
    requires a.motionBlur == b.motionBlur && a.atmospheric == b.atmospheric
    ensures StylePoints(t, a) == StylePoints(t, b)
    ensures a.typeKeyword == b.typeKeyword ==> VerseMatch(t, a) == VerseMatch(t, b)
  {
  }

  // Below, frame b is frame a without one of its cues.

  lemma EmotionPoints(t: VerseType, a: Cues, b: Cues)
    requires a.emotion && b == a.(emotion := false)
    ensures Score(t, a) == Score(t, b) + 1
  {
    SubjectReads(a, b);
    CrowdReads(a, b);
    StyleReads(t, a, b);
    hide SubjectPoints, StylePoints, CrowdPoints, VerseMatch;
  }

  lemma TextPoints(t: VerseType, a: Cues, b: Cues)
    requires a.visibleText && b == a.(visibleText := false)
    ensures Score(t, a) == Score(t, b) - 2
  {
    SubjectReads(a, b);
    CrowdReads(a, b);
    StyleReads(t, a, b);
    hide SubjectPoints, StylePoints, CrowdPoints, VerseMatch;
  }

  lemma NoisePoints(t: VerseType, a: Cues, b: Cues)
    requires a.noise && b == a.(noise := false)
    ensures Score(t, a) == Score(t, b) - 2
  {
    SubjectReads(a, b);
    CrowdReads(a, b);
    StyleReads(t, a, b);
    hide SubjectPoints, StylePoints, CrowdPoints, VerseMatch;
  }

  // A protagonist is worth two points; a plural verse over a group is worth one to a
  // frame without a protagonist.
  lemma ProtagonistPoints(t: VerseType, a: Cues, b: Cues)
    requires a.protagonist && b == a.(protagonist := false)
    ensures Score(t, a) == Score(t, b) + if a.versePlural && a.multi then 1 else 2
  {
    CrowdReads(a, b);
    StyleReads(t, a, b);
    hide StylePoints, CrowdPoints, VerseMatch;
  }

  // A group costs what its verse does not ask for: one point when it is in focus, two
  // when it is not.  Under a plural verse it gains one point, one more in focus, and
  // one more without a protagonist.
  lemma GroupPoints(t: VerseType, a: Cues, b: Cues)
    requires a.multi && b == a.(multi := false)
    ensures Score(t, a) == Score(t, b) +
            if !a.versePlural then (if a.clearFocus then -1 else -2)
            else 1 + (if a.clearFocus then 1 else 0) + if a.protagonist then 0 else 1
  {
    StyleReads(t, a, b);
    hide StylePoints, VerseMatch;
  }

  // A plural verse costs a frame without a group a point; with one it gains two, and
  // a third without a protagonist.
  lemma PluralPoints(t: VerseType, a: Cues, b: Cues)
    requires a.versePlural && b == a.(versePlural := false)
    ensures Score(t, a) == Score(t, b) + if !a.multi then -1 else if a.protagonist then 2 else 3
  {
    StyleReads(t, a, b);
    hide StylePoints, VerseMatch;
  }

  // Focus matters to groups only.
  lemma FocusPoints(t: VerseType, a: Cues, b: Cues)
    requires a.clearFocus && b == a.(clearFocus := false)
    ensures Score(t, a) == Score(t, b) + if a.multi then 1 else 0
  {
    SubjectReads(a, b);
    StyleReads(t, a, b);
    hide SubjectPoints, StylePoints, VerseMatch;
  }

  // A keyword of the frame's verse type is worth two points, unless the frame matches
  // without it: a repetition always does, and an introspective one by its style.
  lemma KeywordPoints(t: VerseType, a: Cues, b: Cues)
    requires a.typeKeyword && b == a.(typeKeyword := false)
    ensures Score(t, a) == Score(t, b) +
            if t == Repetition || t == OtherVerse || (t == Introspective && (a.surreal || a.dreamlike)) then 0 else 2
  {
    SubjectReads(a, b);
    CrowdReads(a, b);
    StyleReads(t, a, b);
    hide SubjectPoints, CrowdPoints, StylePoints;
  }

  // What its style is worth to a frame, against the same frame without any.
  lemma StyleIsWorth(t: VerseType, a: Cues, b: Cues)
    requires b == a.(surreal := false, dreamlike := false, isAbstract := false, motionBlur := false,
                     atmospheric := false)
    ensures Score(t, a) == Score(t, b) +
            match t
            case Introspective => if (a.surreal || a.dreamlike) && !a.typeKeyword then 2 else 0
            case Narrative => if a.surreal || a.isAbstract then -1 else 0
            case Literal => if a.surreal || a.isAbstract then -1 else 0
            case Rhythmic => if a.isAbstract || a.motionBlur then 1 else 0
            case Transition => if a.surreal || a.atmospheric then 1 else 0
            case _ => 0
  {
    SubjectReads(a, b);
    CrowdReads(a, b);
    hide SubjectPoints, CrowdPoints;
  }

  // ---- the exposure decision ---------------------------------------------

  // Without an anchor a plural frame needs three points and never becomes one; a solo
  // frame needs the threshold and then is one.  With an anchor a frame needs three
  // points, and a solo frame has to be consistent with it too.
  lemma ExposureRules(prompt: string, t: VerseType, c: Cues, base: string, threshold: int)
    ensures var e := FullExposureCheck(prompt, t, c, base, threshold);
            && e.score == Score(t, c)
            && (e.setAsAnchor <==> base == "" && !c.versePlural && Score(t, c) >= threshold)
            && (e.expose <==>
                if base == "" then Score(t, c) >= (if c.versePlural then 3 else threshold)
                else Score(t, c) >= 3 && (c.versePlural || Consistent(base, prompt)))
            && (e.mode == Casting <==> base == "" && !c.versePlural)
            && (e.mode == CastingPlural <==> base == "" && c.versePlural)
  {
    hide Score, Consistent;
  }

  // ---- the words of the guard --------------------------------------------

  // The lists, without the words that contain another one.
  predicate SaysMale(text: string) {
    || Contains(text, "man") || Contains(text, "boy") || Contains(text, "male") || Contains(text, "he")
    || Contains(text, "his") || Contains(text, "guy")
  }

  predicate SaysFemale(text: string) {
    || Contains(text, "woman") || Contains(text, "girl") || Contains(text, "female") || Contains(text, "she")
    || Contains(text, "her")
  }

  predicate SaysYoung(text: string) {
    || Contains(text, "young") || Contains(text, "teenage") || Contains(text, "youth") || Contains(text, "20s")
    || Contains(text, "twenties")
  }

  predicate SaysOld(text: string) {
    || Contains(text, "old") || Contains(text, "elderly") || Contains(text, "aged") || Contains(text, "60s")
    || Contains(text, "gray hair") || Contains(text, "wrinkled")
  }

  lemma MaleWords(text: string)
    ensures ContainsAny(text, MALE) <==> SaysMale(text)
  {
    Within(text, "1boy", 1, "boy");
    Within(text, "1man", 1, "man");
    hide Contains, At;
    assert forall k :: 0 <= k < |MALE| && Contains(text, MALE[k]) ==> ContainsAny(text, MALE);
    assert MALE[0] == "man" && MALE[1] == "boy" && MALE[2] == "male" && MALE[3] == "he" && MALE[4] == "his"
           && MALE[5] == "guy" && MALE[6] == "1boy" && MALE[7] == "1man";
  }

  lemma FemaleWords(text: string)
    ensures ContainsAny(text, FEMALE) <==> SaysFemale(text)
  {
    Within(text, "1girl", 1, "girl");
    Within(text, "1woman", 1, "woman");
    hide Contains, At;
    assert forall k :: 0 <= k < |FEMALE| && Contains(text, FEMALE[k]) ==> ContainsAny(text, FEMALE);
    assert FEMALE[0] == "woman" && FEMALE[1] == "girl" && FEMALE[2] == "female" && FEMALE[3] == "she"
           && FEMALE[4] == "her" && FEMALE[5] == "1girl" && FEMALE[6] == "1woman";
  }

  lemma YoungWords(text: string)
    ensures ContainsAny(text, YOUNG) <==> SaysYoung(text)
  {
    hide Contains, At;
    assert forall k :: 0 <= k < |YOUNG| && Contains(text, YOUNG[k]) ==> ContainsAny(text, YOUNG);
    assert YOUNG[0] == "young" && YOUNG[1] == "teenage" && YOUNG[2] == "youth" && YOUNG[3] == "20s"
           && YOUNG[4] == "twenties";
  }

  lemma OldWords(text: string)
    ensures ContainsAny(text, OLD) <==> SaysOld(text)
  {
    hide Contains, At;
    assert forall k :: 0 <= k < |OLD| && Contains(text, OLD[k]) ==> ContainsAny(text, OLD);
    assert OLD[0] == "old" && OLD[1] == "elderly" && OLD[2] == "aged" && OLD[3] == "60s"
           && OLD[4] == "gray hair" && OLD[5] == "wrinkled";
  }

  // A feature of the anchor against its opposites.
  predicate OpposedTo(base: string, prompt: string) {
    || (Contains(base, "beard")
        && (Contains(prompt, "clean shaven") || Contains(prompt, "no beard") || Contains(prompt, "beardless")))
    || (Contains(base, "glasses") && (Contains(prompt, "no glasses") || Contains(prompt, "without glasses")))
    || (Contains(base, "bald")
        && (Contains(prompt, "long hair") || Contains(prompt, "full hair") || Contains(prompt, "hair flowing")))
    || (Contains(base, "long hair")
        && (Contains(prompt, "bald") || Contains(prompt, "short hair") || Contains(prompt, "shaved head")))
    || (Contains(base, "short hair") && (Contains(prompt, "long hair") || Contains(prompt, "hair flowing")))
  }

  lemma OpposedIff(base: string, prompt: string)
    ensures FeatureClash(base, prompt) <==> OpposedTo(base, prompt)
  {
    FeatureClashIs(base, prompt);
    hide Contains, ContainsAny, FeatureClash;
    AnyIsOneOf(prompt, Opposites("beard"));
    AnyIsOneOf(prompt, Opposites("glasses"));
    AnyIsOneOf(prompt, Opposites("bald"));
    AnyIsOneOf(prompt, Opposites("long hair"));
    AnyIsOneOf(prompt, Opposites("short hair"));
  }

  // Two prompts pass as the same person exactly when no word of one goes against a
  // word of the other.
  lemma ConsistentIff(base: string, prompt: string)
    ensures Consistent(base, prompt) <==>
            || base == ""
            || (&& !(SaysMale(base) && SaysFemale(prompt)) && !(SaysFemale(base) && SaysMale(prompt))
                && !(SaysYoung(base) && SaysOld(prompt)) && !(SaysOld(base) && SaysYoung(prompt))
                && !OpposedTo(base, prompt))
  {
    MaleWords(base);
    MaleWords(prompt);
    FemaleWords(base);
    FemaleWords(prompt);
    YoungWords(base);
    YoungWords(prompt);
    OldWords(base);
    OldWords(prompt);
    OpposedIff(base, prompt);
    hide ContainsAny, FeatureClash, OpposedTo, SaysMale, SaysFemale, SaysYoung, SaysOld;
  }
}
