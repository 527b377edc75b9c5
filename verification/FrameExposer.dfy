// The frame exposer: the keyword score of one frame, the protagonist guard and
// the exposure decision (scripts/frame_exposer.py).
module FrameExposer {
  import opened Text

  datatype VerseType = Introspective | Narrative | Literal | Rhythmic | Transition | Repetition | OtherVerse

  // Outcome of every keyword test the score makes on one prompt and verse.
  // `typeKeyword` is the keyword list of the frame's own verse type.
  datatype Cues = Cues(
    protagonist: bool, multi: bool, versePlural: bool, typeKeyword: bool,
    surreal: bool, dreamlike: bool, isAbstract: bool, motionBlur: bool, atmospheric: bool,
    noise: bool, emotion: bool, visibleText: bool, clearFocus: bool)

  const EXPOSE_SCORE := 3

  // ---- the score --------------------------------------------------------

  function Points(b: bool, n: int): int { if b then n else 0 }

  function SubjectPoints(c: Cues): int {
    if c.protagonist then 2 else Points(c.versePlural && c.multi, 1)
  }

  predicate VerseMatch(t: VerseType, c: Cues) {
    match t
    case Introspective => c.typeKeyword || c.surreal || c.dreamlike
    case Repetition => true
    case OtherVerse => false
    case _ => c.typeKeyword
  }

  function StylePoints(t: VerseType, c: Cues): int {
    match t
    case Narrative => Points(c.surreal || c.isAbstract, -1)
    case Literal => Points(c.surreal || c.isAbstract, -1)
    case Rhythmic => Points(c.isAbstract || c.motionBlur, 1)
    case Transition => Points(c.surreal || c.atmospheric, 1)
    case _ => 0
  }

  // Plural coherence and focus, for lyrics against the number of people shown.
  function CrowdPoints(c: Cues): int {
    if c.versePlural then
      if !c.multi then -1 else if c.clearFocus then 1 else 0
    else if !c.multi then 0 else if c.clearFocus then -1 else -2
  }

  // The score as a table of independent contributions.
  function Score(t: VerseType, c: Cues): int {
    SubjectPoints(c) + StylePoints(t, c) + Points(VerseMatch(t, c), 2)
    + (if c.noise then -1 else 1) + Points(c.emotion, 1) + Points(c.visibleText, -2) + CrowdPoints(c)
  }

  // decide_exposure_fast: the running score, in the order of the source.
  method DecideExposureFast(t: VerseType, c: Cues) returns (expose: bool, score: int)
    ensures score == Score(t, c)
    ensures expose <==> Score(t, c) >= EXPOSE_SCORE
  {
    score := 0;
    if c.protagonist {
      score := score + 2;
    } else if c.versePlural && c.multi {
      score := score + 1;
    }
    score := AddVerseType(t, c, score);
    if !c.noise { score := score + 1; } else { score := score - 1; }
    if c.emotion { score := score + 1; }
    if c.visibleText { score := score - 2; }
    score := AddCrowd(c, score);
    expose := score >= 3;
  }

  method AddVerseType(t: VerseType, c: Cues, before: int) returns (score: int)
    ensures score == before + StylePoints(t, c) + Points(VerseMatch(t, c), 2)
  {
    score := before;
    var verseTypeMatch := false;
    match t {
      case Introspective =>
        if c.typeKeyword { verseTypeMatch := true; }
        if c.surreal || c.dreamlike { verseTypeMatch := true; }
      case Narrative =>
        if c.typeKeyword { verseTypeMatch := true; }
        if c.surreal || c.isAbstract { score := score - 1; }
      case Literal =>
        if c.typeKeyword { verseTypeMatch := true; }
        if c.surreal || c.isAbstract { score := score - 1; }
      case Rhythmic =>
        if c.typeKeyword { verseTypeMatch := true; }
        if c.isAbstract || c.motionBlur { score := score + 1; }
      case Transition =>
        if c.typeKeyword { verseTypeMatch := true; }
        if c.surreal || c.atmospheric { score := score + 1; }
      case Repetition =>
        verseTypeMatch := true;
      case OtherVerse =>
    }
    if verseTypeMatch { score := score + 2; }
  }

  method AddCrowd(c: Cues, before: int) returns (score: int)
    ensures score == before + CrowdPoints(c)
  {
    score := before;
    if c.versePlural && c.multi {
      score := score + 1;
    } else if c.versePlural && !c.multi {
      score := score - 1;
    }
    if c.multi {
      if c.versePlural {
        if !c.clearFocus { score := score - 1; }
      } else if c.clearFocus {
        score := score - 1;
      } else {
        score := score - 2;
      }
    }
  }

  // The score is reported "out of 7", yet 8 is reached, and exactly by a plural
  // verse whose group frame also names a protagonist and takes every bonus.
  lemma ScoreRange(t: VerseType, c: Cues)
    ensures -6 <= Score(t, c) <= 8
    ensures Score(t, c) > 7 <==>
            && c.protagonist && c.versePlural && c.multi && c.clearFocus
            && StylePoints(t, c) == 1 && VerseMatch(t, c)
            && !c.noise && c.emotion && !c.visibleText
    ensures Score(t, c) == -6 <==>
            && !c.protagonist && !c.versePlural && c.multi && !c.clearFocus
            && StylePoints(t, c) == -1 && !VerseMatch(t, c)
            && c.noise && !c.emotion && c.visibleText
  {
  }

  // Both ends of the range are reached, so the printed "/7" is not the maximum.
  lemma ScoreExtremesReached()
    ensures exists c :: Score(Rhythmic, c) == 8
    ensures exists c :: Score(Literal, c) == -6
  {
    var best := Cues(true, true, true, true, false, false, true, true, false, false, true, false, true);
    var worst := Cues(false, true, false, false, true, false, false, false, false, true, false, true, false);
    assert Score(Rhythmic, best) == 8;
    assert Score(Literal, worst) == -6;
  }

  // ---- the protagonist guard --------------------------------------------

  const MALE := ["man", "boy", "male", "he", "his", "guy", "1boy", "1man"]
  const FEMALE := ["woman", "girl", "female", "she", "her", "1girl", "1woman"]
  const YOUNG := ["young", "teenage", "youth", "20s", "twenties"]
  const OLD := ["old", "elderly", "aged", "60s", "gray hair", "wrinkled"]
  const FEATURES := ["tattoo", "scar", "beard", "glasses", "bald", "long hair",
                     "short hair", "curly", "straight hair", "freckles", "piercing"]

  function Opposites(feature: string): seq<string> {
    if feature == "beard" then ["clean shaven", "no beard", "beardless"]
    else if feature == "bald" then ["long hair", "full hair", "hair flowing"]
    else if feature == "glasses" then ["no glasses", "without glasses"]
    else if feature == "long hair" then ["bald", "short hair", "shaved head"]
    else if feature == "short hair" then ["long hair", "hair flowing"]
    else []
  }

  predicate GenderClash(base: string, prompt: string) {
    || (ContainsAny(base, MALE) && ContainsAny(prompt, FEMALE))
    || (ContainsAny(base, FEMALE) && ContainsAny(prompt, MALE))
  }

  predicate AgeClash(base: string, prompt: string) {
    || (ContainsAny(base, YOUNG) && ContainsAny(prompt, OLD))
    || (ContainsAny(base, OLD) && ContainsAny(prompt, YOUNG))
  }

  predicate FeatureClash(base: string, prompt: string) {
    exists f :: 0 <= f < |FEATURES| && Contains(base, FEATURES[f]) && ContainsAny(prompt, Opposites(FEATURES[f]))
  }

  // Both arguments are the lower-cased prompts.
  predicate Consistent(base: string, prompt: string) {
    base == "" || !(GenderClash(base, prompt) || AgeClash(base, prompt) || FeatureClash(base, prompt))
  }

  datatype Issue = GenderMismatch | AgeMismatch | FeatureConflict(feature: string, opposite: string)

  // check_protagonist_consistency: issues are collected list by list.
  method CheckProtagonistConsistency(base: string, prompt: string) returns (consistent: bool, issues: seq<Issue>)
    ensures consistent <==> Consistent(base, prompt)
    ensures consistent <==> issues == []
    ensures !consistent ==> (issues[0] == GenderMismatch <==> GenderClash(base, prompt))
    ensures !consistent ==> (issues[0] == AgeMismatch <==> !GenderClash(base, prompt) && AgeClash(base, prompt))
  {
    issues := [];
    if base == "" { return true, issues; }
    var baseMale, baseFemale := ContainsAny(base, MALE), ContainsAny(base, FEMALE);
    var promptMale, promptFemale := ContainsAny(prompt, MALE), ContainsAny(prompt, FEMALE);
    var baseYoung, baseOld := ContainsAny(base, YOUNG), ContainsAny(base, OLD);
    var promptYoung, promptOld := ContainsAny(prompt, YOUNG), ContainsAny(prompt, OLD);
    if baseMale && promptFemale { issues := issues + [GenderMismatch]; }
    if baseFemale && promptMale { issues := issues + [GenderMismatch]; }
    if baseYoung && promptOld { issues := issues + [AgeMismatch]; }
    if baseOld && promptYoung { issues := issues + [AgeMismatch]; }
    var conflicts := FeatureConflicts(base, prompt);
    issues := issues + conflicts;
    consistent := issues == [];
  }

  method FeatureConflicts(base: string, prompt: string) returns (conflicts: seq<Issue>)
    ensures conflicts == [] <==> !FeatureClash(base, prompt)
    ensures forall k :: 0 <= k < |conflicts| ==> conflicts[k].FeatureConflict?
  {
    conflicts := [];
    for f := 0 to |FEATURES|
      invariant forall k :: 0 <= k < |conflicts| ==> conflicts[k].FeatureConflict?
      invariant conflicts == [] <==>
        forall g :: 0 <= g < f ==> !(Contains(base, FEATURES[g]) && ContainsAny(prompt, Opposites(FEATURES[g])))
    {
      var feature := FEATURES[f];
      if Contains(base, feature) {
        var opposites := Opposites(feature);
        ghost var before := conflicts;
        for o := 0 to |opposites|
          invariant forall k :: 0 <= k < |conflicts| ==> conflicts[k].FeatureConflict?
          invariant conflicts == [] <==> before == [] && forall q :: 0 <= q < o ==> !Contains(prompt, opposites[q])
        {
          if Contains(prompt, opposites[o]) {
            conflicts := conflicts + [FeatureConflict(feature, opposites[o])];
          }
        }
      }
    }
  }

  // ---- which frames an anchor lets through ------------------------------

  // Every female marker except "girl" and "1girl" contains a male marker, so
  // the substring test reads such a base as male as well.
  predicate HidesMaleMarker(word: string) {
    word in FEMALE && word != "girl" && word != "1girl"
  }

  lemma {:induction false} FemaleMarkerReadsAsMale(text: string, word: string)
    requires HidesMaleMarker(word) && Contains(text, word)
    ensures ContainsAny(text, MALE) && ContainsAny(text, FEMALE)
  {
    var m := if word == "woman" || word == "1woman" then 0 else if word == "female" then 2 else 3;
    var at := if word == "woman" then 2 else if word == "1woman" then 3
              else if word == "female" then 2 else if word == "she" then 1 else 0;
    assert At(word, at, MALE[m]);
    ContainsTransitive(text, word, MALE[m]);
    assert exists k :: 0 <= k < |FEMALE| && FEMALE[k] == word;
  }

  // One of the word's first three letters does not occur in the text.
  predicate Foreign(word: string, text: string) {
    || (|word| > 0 && word[0] !in text) || (|word| > 1 && word[1] !in text) || (|word| > 2 && word[2] !in text)
  }

  lemma ForeignIsAbsent(words: seq<string>, text: string)
    requires forall k :: 0 <= k < |words| ==> Foreign(words[k], text)
    ensures !ContainsAny(text, words)
  {
    forall k | 0 <= k < |words|
      ensures !Contains(text, words[k])
    {
      assert Foreign(words[k], text);
      forall i | 0 <= i <= |text| - |words[k]|
        ensures !At(text, i, words[k])
      {
        var found := text[i..i + |words[k]|];
        assert forall j :: 0 <= j < |found| ==> found[j] == text[i + j];
      }
    }
  }

  // "girl" and "boy" each carry one gender marker and no other keyword.
  lemma GirlIsFemale()
    ensures ContainsAny("girl", FEMALE) && !ContainsAny("girl", MALE)
  {
    assert At("girl", 0, FEMALE[1]);
    assert Contains("girl", FEMALE[1]);
    hide Contains, At;
    ForeignIsAbsent(MALE, "girl");
  }

  lemma BoyIsMale()
    ensures ContainsAny("boy", MALE) && !ContainsAny("boy", FEMALE)
  {
    assert At("boy", 0, MALE[1]);
    assert Contains("boy", MALE[1]);
    hide Contains, At;
    ForeignIsAbsent(FEMALE, "boy");
  }

  lemma NoAge(text: string)
    requires text == "girl" || text == "boy"
    ensures !ContainsAny(text, YOUNG) && !ContainsAny(text, OLD)
  {
    hide ContainsAny, Contains;
    ForeignIsAbsent(YOUNG, text);
    ForeignIsAbsent(OLD, text);
  }

  // The opposites that matter, feature by feature.
  lemma FeatureClashIs(base: string, prompt: string)
    ensures FeatureClash(base, prompt) <==>
            || (Contains(base, "beard") && ContainsAny(prompt, Opposites("beard")))
            || (Contains(base, "glasses") && ContainsAny(prompt, Opposites("glasses")))
            || (Contains(base, "bald") && ContainsAny(prompt, Opposites("bald")))
            || (Contains(base, "long hair") && ContainsAny(prompt, Opposites("long hair")))
            || (Contains(base, "short hair") && ContainsAny(prompt, Opposites("short hair")))
  {
    hide Contains;
    assert FEATURES[2] == "beard" && FEATURES[3] == "glasses" && FEATURES[4] == "bald"
        && FEATURES[5] == "long hair" && FEATURES[6] == "short hair";
    forall f | 0 <= f < |FEATURES|
      ensures Opposites(FEATURES[f]) == [] || 2 <= f <= 6
    {
    }
    hide Opposites;
  }

  lemma NoFeatureClash(base: string, text: string)
    requires text == "girl" || text == "boy"
    ensures !FeatureClash(base, text)
  {
    FeatureClashIs(base, text);
    hide ContainsAny, Contains, FeatureClash;
    ForeignIsAbsent(Opposites("beard"), text);
    ForeignIsAbsent(Opposites("glasses"), text);
    ForeignIsAbsent(Opposites("bald"), text);
    ForeignIsAbsent(Opposites("long hair"), text);
    ForeignIsAbsent(Opposites("short hair"), text);
  }

  // An anchor lets some frame that names a female protagonist through exactly when
  // no male marker occurs in it, and some male frame exactly when no female one does.
  lemma FramesOfAGenderPassIff(base: string)
    requires base != ""
    ensures (exists prompt :: ContainsAny(prompt, FEMALE) && Consistent(base, prompt)) <==> !ContainsAny(base, MALE)
    ensures (exists prompt :: ContainsAny(prompt, MALE) && Consistent(base, prompt)) <==> !ContainsAny(base, FEMALE)
  {
    hide ContainsAny, FeatureClash;
    GirlIsFemale();
    BoyIsMale();
    NoAge("girl");
    NoAge("boy");
    NoFeatureClash(base, "girl");
    NoFeatureClash(base, "boy");
    if !ContainsAny(base, MALE) { assert Consistent(base, "girl"); }
    if !ContainsAny(base, FEMALE) { assert Consistent(base, "boy"); }
  }

  // An anchor described by one of these words rejects every frame that names a
  // protagonist of either gender, its own prompt included.
  lemma FemaleAnchorRejectsFemaleFrames(base: string, word: string, prompt: string)
    requires HidesMaleMarker(word) && Contains(base, word)
    requires ContainsAny(prompt, FEMALE) || ContainsAny(prompt, MALE)
    ensures !Consistent(base, prompt)
    ensures !Consistent(base, base)
  {
    FemaleMarkerReadsAsMale(base, word);
  }

  const ANCHOR_EXAMPLE := "a woman in a red coat"

  lemma WomanAnchorExample(prompt: string)
    requires ContainsAny(prompt, FEMALE)
    ensures !Consistent(ANCHOR_EXAMPLE, prompt) && !Consistent(ANCHOR_EXAMPLE, ANCHOR_EXAMPLE)
  {
    assert At(ANCHOR_EXAMPLE, 2, "woman");
    FemaleAnchorRejectsFemaleFrames(ANCHOR_EXAMPLE, "woman", prompt);
  }

  // The guard asks whether two frames could show the same person, so a frame should
  // pass against itself.  These are the words that keep it from doing so: both
  // genders, where most female words are enough; both ages; a feature with its
  // opposite, where the negation of beard or glasses is enough.
  predicate BothGenders(prompt: string) {
    || Contains(prompt, "woman") || Contains(prompt, "female") || Contains(prompt, "she") || Contains(prompt, "her")
    || (Contains(prompt, "girl") && ContainsAny(prompt, MALE))
  }

  predicate SelfOpposed(prompt: string) {
    || Contains(prompt, "no beard") || Contains(prompt, "beardless")
    || Contains(prompt, "no glasses") || Contains(prompt, "without glasses")
    || (Contains(prompt, "beard") && Contains(prompt, "clean shaven"))
    || (Contains(prompt, "bald")
       && (Contains(prompt, "long hair") || Contains(prompt, "full hair") || Contains(prompt, "hair flowing")))
    || (Contains(prompt, "long hair") && (Contains(prompt, "short hair") || Contains(prompt, "shaved head")))
    || (Contains(prompt, "short hair") && Contains(prompt, "hair flowing"))
  }

  lemma SelfConsistentIff(prompt: string)
    requires prompt != ""
    ensures Consistent(prompt, prompt) <==>
            !BothGenders(prompt) && !(ContainsAny(prompt, YOUNG) && ContainsAny(prompt, OLD)) && !SelfOpposed(prompt)
  {
    BothGendersIff(prompt);
    SelfOpposedIff(prompt);
    hide ContainsAny, FeatureClash, BothGenders, SelfOpposed;
  }

  lemma BothGendersIff(prompt: string)
    ensures BothGenders(prompt) <==> ContainsAny(prompt, MALE) && ContainsAny(prompt, FEMALE)
  {
    forall word | HidesMaleMarker(word) && Contains(prompt, word)
      ensures ContainsAny(prompt, MALE) && ContainsAny(prompt, FEMALE)
    {
      FemaleMarkerReadsAsMale(prompt, word);
    }
    Within(prompt, "1woman", 1, "woman");
    Within(prompt, "1girl", 1, "girl");
    hide Contains;
    if Contains(prompt, "girl") { assert Contains(prompt, FEMALE[1]); }
  }

  lemma Within(text: string, word: string, at: nat, part: string)
    requires At(word, at, part)
    ensures Contains(text, word) ==> Contains(text, part)
  {
    if Contains(text, word) { ContainsTransitive(text, word, part); }
  }

  // ContainsAny on a list of at most three words.
  predicate ContainsOneOf(text: string, words: seq<string>)
    requires |words| <= 3
  {
    || (|words| > 0 && Contains(text, words[0])) || (|words| > 1 && Contains(text, words[1]))
    || (|words| > 2 && Contains(text, words[2]))
  }

  lemma AnyIsOneOf(text: string, words: seq<string>)
    requires |words| <= 3
    ensures ContainsAny(text, words) <==> ContainsOneOf(text, words)
  {
    hide Contains;
  }

  lemma SelfOpposedIff(prompt: string)
    ensures SelfOpposed(prompt) <==> FeatureClash(prompt, prompt)
  {
    Within(prompt, "no beard", 3, "beard");
    Within(prompt, "beardless", 0, "beard");
    Within(prompt, "no glasses", 3, "glasses");
    assert "without glasses"[8..] == "glasses";
    Within(prompt, "without glasses", 8, "glasses");
    FeatureClashIs(prompt, prompt);
    hide Contains, ContainsAny, At, FeatureClash;
    AnyIsOneOf(prompt, Opposites("beard"));
    AnyIsOneOf(prompt, Opposites("glasses"));
    AnyIsOneOf(prompt, Opposites("bald"));
    AnyIsOneOf(prompt, Opposites("long hair"));
    AnyIsOneOf(prompt, Opposites("short hair"));
  }

  // ---- the exposure decision --------------------------------------------

  datatype Mode = Casting | CastingPlural | Continuity | ContinuityPlural

  datatype Exposure = Exposure(expose: bool, setAsAnchor: bool, mode: Mode, score: int)

  // full_exposure_check.  A missing or empty base means casting.
  function FullExposureCheck(prompt: string, t: VerseType, c: Cues, base: string, threshold: int): Exposure {
    var score := Score(t, c);
    if base == "" then
      if c.versePlural then Exposure(score >= EXPOSE_SCORE, false, CastingPlural, score)
      else Exposure(score >= threshold, score >= threshold, Casting, score)
    else if score < EXPOSE_SCORE then Exposure(false, false, Continuity, score)
    else if c.versePlural then Exposure(true, false, ContinuityPlural, score)
    else Exposure(Consistent(base, prompt), false, Continuity, score)
  }
}
