# Verified model of the lyrics-to-video pipeline

This project models the logic of the pipeline that turns lyrics into a video: the image
stage and its casting machine, the timeline from transcription to rendered slots and to the
result page, the JSON scanner of the audit tool, the pacing of Gemini calls, the subtitle
parser, the token refresh of the web client, and the percentile of the benchmark gate. Code
that changes state is written as methods and classes and proved against functions; the
functions are what the lemmas are about. Protocols with several threads are state machines
whose invariants hold after every sequence of steps.

| file | what it models |
|---|---|
| `FrameExposer.dfy`, `FrameCues.dfy`, `Casting.dfy` | the score of a frame cue by cue, the protagonist guard word by word, and which frame becomes the anchor |
| `QualityScore.dfy`, `SceneAsset.dfy`, `QualityRetry.dfy` | one image worker: quality score, provider selection and failover, quality-retry recursion, shared retry budget |
| `StageModel.dfy`, `StageRun.dfy`, `StageImages.dfy`, `ImageStage.dfy` | the states of the image stage with their invariants, the state each script of events leads to, what the images report, and the scheduler loop |
| `Rounding.dfy`, `Alignment.dfy`, `Matching.dfy`, `Splitting.dfy`, `Sanitising.dfy`, `SceneDefaults.dfy`, `FinalTimes.dfy` | scene times: which segment each scene is matched to and when it starts, splitting, sanitising with three-decimal rounding and its defaults, and the three put together |
| `Verses.dfy`, `Renderer.dfy`, `ResultPage.dfy` | the rendered timeline and the web page's copy of it |
| `JsonScanner.dfy`, `VttParser.dfy`, `VttMarkup.dfy` | the two parsers, each against a printer; subtitle markup, empty cues and repeats |
| `GeminiPacing.dfy`, `TokenRefresh.dfy`, `RequestOutcomes.dfy` | the two protocols, and how each request ends |
| `Percentile.dfy` | the interpolated percentile |
| `Common.dfy`, `Text.dfy` | options, minimum and maximum, providers, substring and trim |

`dafny verify dfyconfig.toml` checks everything.

## How it is modelled

- An image worker's calls are represented by the set of providers that answer during an
  attempt. The budget request is the one point where workers meet, so a worker's step is one
  attempt together with that request; any interleaving of such steps, of exceptions and of
  returns of the wait call is a script of events, and the scheduler is proved for every script.
- Prompts and verses are lower-case strings. The tests of the protagonist guard and the hook
  words are carried out on the strings themselves; the larger keyword tables of the frame score
  and of the scene traits enter as booleans.
- Times are exact reals in seconds, and `round(x, 3)` rounds halves to even. Subtitle times are
  whole milliseconds. Quality scores are hundredths until the exposure score is mixed in.
- Files are a set of paths; a download has an outcome, and the timeline results are about runs
  where FFmpeg is present, so that a reported download is a written file.
- The cache mapping of the renderer is given sorted by scene index.

## Where the code does not do what its text says

- The switch to Gemini at scripts/generate_images.py:2454-2455 never fires: its condition is one
  that no routed scene meets (`SceneAsset.SelectProvider`). Routed scenes reach Gemini only later,
  through the quality retry that routing opens, or through a failover that is configured for
  ComfyUI anyway (`QualityRetry.GeminiReachedIff`, `QualityRetry.RoutingMatters`).
- The exposure score is printed out of 7 but ranges from -6 to 8 (`FrameExposer.ScoreRange`).
  The casting threshold is a parameter of the model: the code passes 5 where its comment at
  scripts/frame_exposer.py:524-531 says 6.
- The protagonist guard finds "man" in "woman", "he" in "she" and "her", and "male" in "female".
  An anchor lets a frame with a female protagonist through exactly when it contains no male
  marker (`FrameExposer.FramesOfAGenderPassIff`), so "a woman in a red coat" rejects all of them
  and itself (`FrameExposer.WomanAnchorExample`). It also finds "beard" in "no beard"
  (`FrameExposer.SelfConsistentIff`).
- A worker that raises after a granted retry reports no retry. Provider errors are caught inside
  the worker; what is left are the statements outside its try block and those that handle the
  error, such as a failing write of their messages to standard error
  (scripts/generate_images.py:2638-2643, 2594-2600). Reported and used retries of a
  finished run agree exactly when this never happens (`StageRun.ReportedIsUsedIff`); a run of
  three events in which it does is `StageRun.LosingRunExample`.
- Alignment can give negative durations, exactly when a run of unmatched scenes does not fit
  before the next matched segment (`Alignment.NoNegativeDurationIff`). Sanitising gives such a
  scene five seconds but does not move the next one, so the final list overlaps by five seconds
  or more there (`FinalTimes.FinalScenesTile`, `FinalTimes.OverlapExample`). The final list tiles
  exactly when every kept scene leaves room for itself (`FinalTimes.PipelineTilesIff`).
- A scene of at most a millisecond can be rounded to nothing, so that its end is not after its
  start (`Sanitising.SanitisedListIsUsable`).
- Rounding start, end and duration separately can make them disagree by a millisecond
  (`Sanitising.DurationsAreHonestIff`), so sanitising twice need not equal sanitising once (`Sanitising.SanitiseTwiceIff`,
  `FinalTimes.ThirdsAreNotStable`).
- The unexposed count of the renderer stops at the first showable image, so it misses the refused
  images after it (`Renderer.CountIsShortIff`) and the gate can stay closed although most images
  are refused (`Renderer.GateStaysClosedIff`, `Renderer.GateStaysClosedExample`).
- The page replaces a duration that is not positive by five seconds and the renderer does not;
  their times agree exactly where this makes no difference (`ResultPage.TimestampIsSlotStartIff`,
  `ResultPage.LatePageExample`). For sanitised scenes it makes none unless a scene lasted at most
  half a millisecond (`ResultPage.SanitisedTimesAgreeIff`).
- Seeking to a scene past the end of the video selects a later scene
  (`ResultPage.SeekSelectsIff`, `ResultPage.WrongSceneExample`).
- The lock on a slot file blocks, so a caller waits at slot 0 and a second slot is used only after
  locking has failed with an error. With two slots and one such failure two bodies overlap
  (`GeminiPacing.OverlapIff`), and guarded bodies of one process can break the minimum gap
  (`GeminiPacing.GapBrokenIff`).

## Model
| member | source | states |
|---|---|---|
| FrameExposer.DecideExposureFast | scripts/frame_exposer.py:192-388 | the running score equals a table of independent contributions, and a frame is exposed from score 3 on |
| FrameExposer.ScoreRange | scripts/frame_exposer.py:217-383 | the score lies between -6 and 8, with the exact frames that exceed 7 and that reach -6 |
| FrameExposer.ScoreExtremesReached | scripts/frame_exposer.py:217-383 | both ends of the range are reached |
| FrameCues.SilentScore | scripts/frame_exposer.py:217-383 | a frame without any cue scores 1, and 3 for a repetition |
| FrameCues.EmotionPoints | scripts/frame_exposer.py:302-333 | emotion is worth one point |
| FrameCues.NoisePoints | scripts/frame_exposer.py:302-333 | visual noise costs two points against its absence |
| FrameCues.TextPoints | scripts/frame_exposer.py:337-342 | visible text costs two points |
| FrameCues.FocusPoints | scripts/frame_exposer.py:344-383 | focus is worth a point to a group, and nothing to others |
| FrameCues.ProtagonistPoints | scripts/frame_exposer.py:217-233 | a protagonist is worth two points, one when a plural verse over a group already gives one |
| FrameCues.GroupPoints | scripts/frame_exposer.py:335-383 | what a group costs or gains, by verse, focus and protagonist |
| FrameCues.PluralPoints | scripts/frame_exposer.py:335-383 | what a plural verse costs or gains |
| FrameCues.KeywordPoints | scripts/frame_exposer.py:235-300 | a keyword of the frame's verse type is worth two points unless the frame matches without it |
| FrameCues.StyleIsWorth | scripts/frame_exposer.py:235-300 | what its style is worth to a frame of each verse type |
| FrameCues.ExposureRules | scripts/frame_exposer.py:514-673 | when a frame is exposed, when it becomes the anchor, and in which mode it is judged |
| FrameCues.ConsistentIff | scripts/frame_exposer.py:391-511 | two prompts pass as the same person exactly when no word of one goes against a word of the other, with the words written out |
| FrameExposer.CheckProtagonistConsistency | scripts/frame_exposer.py:391-511 | the collected issues are empty exactly when gender, age and features do not clash, and the first issue follows that order |
| FrameExposer.FeatureConflicts | scripts/frame_exposer.py:474-494 | conflicts are reported exactly when the prompt names an opposite of a feature of the base |
| FrameExposer.SelfConsistentIff | scripts/frame_exposer.py:440-511 | the words that keep a prompt from passing the guard against itself: most female words alone, both ages, a feature with its opposite or its own negation |
| FrameExposer.FramesOfAGenderPassIff | scripts/frame_exposer.py:440-511 | an anchor lets some frame with a female marker through exactly when it contains no male marker, and the other way round |
| FrameExposer.FemaleAnchorRejectsFemaleFrames | scripts/frame_exposer.py:445-471 | an anchor that says woman, she, her or female rejects every frame that names a protagonist of either gender, itself included |
| FrameExposer.WomanAnchorExample | scripts/frame_exposer.py:445-471 | the anchor a woman in a red coat rejects every female frame and itself |
| Casting.AnchorIsTheFirstCastable | scripts/generate_images.py:2957-3012 | at any point of a run the anchor is the prompt of the first castable frame so far, and missing exactly when there is none |
| Casting.ExposureUpToTheAnchor | scripts/generate_images.py:2957-3012 | up to the anchor a checked frame is exposed exactly when it is castable, or plural and of quality |
| Casting.ExposureAfterTheAnchor | scripts/frame_exposer.py:618-673 | after the anchor a checked frame is exposed exactly when it is of quality and either plural or consistent with the anchor |
| Casting.ExposedIff | scripts/generate_images.py:2957-3012 | whether any frame of a run is exposed, from the frames alone |
| Casting.AtMostOneAnchor | scripts/generate_images.py:3003-3012 | one frame per run sets the anchor; it is a solo ComfyUI frame, it is exposed, and no solo frame before it is |
| Casting.AnchorStays | scripts/generate_images.py:3003-3012 | an anchor once written is never changed or lost |
| Casting.IntroCannotStayFrozen | scripts/generate_images.py:2978-3012 | after as many refused solo frames in a row as the skip limit, a solo frame with the forced minimum score ends the search |
| Casting.FrozenIff | scripts/generate_images.py:2957-3012 | a run ends without an anchor exactly when every solo frame was too weak for both thresholds |
| QualityScore.ComputeSceneQualityScore | scripts/generate_images.py:604-679 | the running score equals a sum of independent penalties mixed with the exposure score and kept between 0 and 1 |
| QualityScore.OutputFaultsCost | scripts/generate_images.py:618-664 | two calls that differ in one fact: strict without Gemini costs 0.14, strict with Gemini gains 0.05, a fallback costs 0.68, a refusal 0.08, the placeholder 0.22 |
| QualityScore.CrowdCosts | scripts/generate_images.py:636-638 | a crowd costs 0.10 on a generic provider and nothing elsewhere |
| QualityScore.TextCosts | scripts/generate_images.py:639-641 | text costs 0.10 on a generic provider and nothing elsewhere |
| QualityScore.ActionCosts | scripts/generate_images.py:642-644 | action costs 0.08 on a generic provider and nothing elsewhere |
| QualityScore.LengthCosts | scripts/generate_images.py:648-650 | a long prompt costs 0.06 on Pollinations only |
| QualityScore.PortraitCosts | scripts/generate_images.py:652-654 | a portrait where none belongs costs 0.12 everywhere |
| QualityScore.ExposureCounts | scripts/generate_images.py:660-669 | the exposure score counts three tenths, as a share of 7 kept between 0 and 1 |
| QualityScore.PoorAttemptIff | scripts/generate_images.py:604-679 | exactly which attempts without an error fall under 0.55 |
| QualityScore.FallbackIsLowQuality | scripts/generate_images.py:604-679 | a fallback scores at most 0.19 before exposure and under 0.55 whatever its exposure score |
| QualityScore.QualityIsMonotone | scripts/generate_images.py:604-679 | refusing a frame never raises its score and a better exposure score never lowers it |
| SceneAsset.SelectProvider | scripts/generate_images.py:2406-2460 | an attempt selects Gemini exactly when it is the given provider and early failover is off, whatever the routing decision |
| SceneAsset.BuildFailoverChain | scripts/generate_images.py:2557-2571 | the chain has each allowed configured provider and the placeholder once, the placeholder last unless it was configured, and finds the same provider as the configured list for every set of answering providers |
| SceneAsset.GenerateOnce | scripts/generate_images.py:2345-2601 | the provider and error of an attempt: the selected provider if it answers, else the first answering failover, else the placeholder |
| SceneAsset.AttemptOutcome | scripts/generate_images.py:2406-2601 | an attempt has an error exactly when the asked provider does not answer; then the placeholder stands in, or for ComfyUI the first failover that answers |
| SceneAsset.ComfyHasNoError | scripts/generate_images.py:2551-2601 | a ComfyUI result never carries a generation error |
| QualityRetry.RetryReturnsTheBest | scripts/generate_images.py:2603-2689 | the recursion makes at most the maximum number of attempts, numbers them from one, counts one retry less, and returns the last of the best entries of its trace |
| QualityRetry.RetryNeverHurts | scripts/generate_images.py:2625-2674 | a run with retries never scores below the same run without budget |
| QualityRetry.OnlyPoorAttemptsAreRetried | scripts/generate_images.py:2625-2638 | every attempt but the last was below the threshold and was granted a retry |
| QualityRetry.RetryToGeminiIff | scripts/generate_images.py:697-715 | a retry goes to Gemini exactly for a routed scene whose poor attempt was made by another provider, when the retry is allowed and early failover is off |
| QualityRetry.RetryBackIff | scripts/generate_images.py:717-727 | any other retry goes back from Gemini to the given provider, or from Pollinations to ComfyUI, under exactly these conditions |
| QualityRetry.RoutedRetryAtDefault | scripts/generate_images.py:2625-2646 | at the default threshold a routed scene is retried on Gemini exactly when Pollinations made it and two of five faults add up |
| QualityRetry.GeminiReachedIff | scripts/generate_images.py:2320-2689 | some run of a scene has an attempt made by Gemini exactly when early failover is off and Gemini is the given provider, a configured failover of ComfyUI, or opened by routing for the quality retry |
| QualityRetry.RoutingMatters | scripts/generate_images.py:2625-2674 | the same scene and outcomes end on Gemini with smart routing and stay on Pollinations without it |
| QualityRetry.WorkerRefinesRecursion | scripts/generate_images.py:2320-2689 | the step form of a worker computes what the recursion computes |
| QualityRetry.StepGrows | scripts/generate_images.py:2625-2689 | a worker's step keeps it on a run of the recursion or ends it with a result of the recursion |
| QualityRetry.RetryBudget.Consume | scripts/generate_images.py:682-694 | a request is granted exactly when something remains, and then moves one from remaining to used |
| StageModel.ScheduleKeeps | scripts/generate_images.py:3122-3220 | scheduling keeps the partition into pending, waiting and finalised scenes, the pool bound, the budget and the refinement |
| StageModel.AttemptKeeps | scripts/generate_images.py:2603-2689 | a worker's attempt keeps the invariant and the budget account, and leaves less work |
| StageModel.CollectKeeps | scripts/generate_images.py:3235-3266 | taking a finished future moves its scene from pending to waiting and keeps everything else |
| StageModel.FinaliseKeeps | scripts/generate_images.py:3268-3279 | finalising the next scene keeps images and casting state equal to the plain in-order loop |
| StageModel.SkipKeeps | scripts/generate_images.py:3269-3274 | passing a scene without a prompt keeps the invariant, also ahead of the schedule cursor |
| StageModel.FinishedIsSequential | scripts/generate_images.py:3113-3281 | when the loop ends nothing waits, and images and casting state are those of a plain in-order loop over the scenes with a prompt |
| StageModel.ImagesArePrefix | scripts/generate_images.py:3416-3426 | at any moment the images are a prefix of what any completion of the run would produce |
| StageModel.RaiseLosesRetries | scripts/generate_images.py:3236-3262 | a worker that raises after a granted retry is collected with none reported |
| StageModel.RaisedIsPlaceholder | scripts/generate_images.py:3240-3262 | a worker that raises leaves a placeholder with an error, score zero, no retry and one entry |
| StageModel.ImageQualityIsTheMean | scripts/generate_images.py:3014-3027 | in every reachable state an image's quality is the mean of the scores of its attempt before and after exposure |
| StageModel.FramesAreCastable | scripts/generate_images.py:2923-3012 | in every reachable state the frames have prompts and ComfyUI frames no errors |
| StageModel.NoRunStaysFrozen | scripts/generate_images.py:2923-3012 | no reachable run keeps its intro frozen past the skip limit |
| StageModel.ResolveConcurrency | scripts/generate_images.py:2296-2318 | the pool has between one and eight workers and no more than there are scenes |
| StageModel.ConcurrencyIs | scripts/generate_images.py:2296-2318 | a requested number is kept within one and eight; without one it depends on the provider |
| StageModel.FewScenes | scripts/generate_images.py:2296-2318 | few scenes leave one worker a scene |
| StageImages.ImagesReport | scripts/generate_images.py:3014-3047 | in every sound state each image carries its scene, provider, error, retries and trace, is exposed exactly as the frames alone say, and has the mean quality |
| StageImages.AnchorReports | scripts/generate_images.py:3003-3012 | the anchor is the prompt with its steering of the first castable scene finalised so far |
| StageImages.FinishedImages | scripts/generate_images.py:3113-3281 | a finished run has an image for exactly the scenes with a prompt, and its images report the retries |
| StageRun.HistoryIsSound | scripts/generate_images.py:3113-3281 | after every script of events the stage satisfies the invariant, nothing finalisable waits, and the pool is full or every scene is scheduled |
| StageRun.LostIff | scripts/generate_images.py:3236-3262 | retries are lost exactly when some event is an exception in a working worker that was granted one, and as many as those workers were granted |
| StageRun.ReportedIsUsedIff | scripts/generate_images.py:3323-3328 | on every finished run used retries are the reported and the lost ones within the budget, and reported equals used exactly when no worker that was granted a retry raised |
| StageRun.LosingRunExample | scripts/generate_images.py:3236-3262 | a run of three events that spends the budget and reports no retry |
| ImageStage.Stage.FillWorkerQueue | scripts/generate_images.py:3122-3220 | the loop computes the filled state: the pool full or every scene scheduled, and workers already in it left alone |
| ImageStage.Stage.CollectDone | scripts/generate_images.py:3235-3266 | in whatever order they are taken, exactly the finished futures move to the buffer, each with its own result |
| ImageStage.Stage.FinalizeScene | scripts/generate_images.py:2932-3047 | one image is appended and the casting state moves as the casting machine decides |
| ImageStage.Stage.DrainInOrder | scripts/generate_images.py:3268-3279 | the loop computes the drained state, in which nothing that could be finalised is waiting |
| ImageStage.Stage.Run | scripts/generate_images.py:3118-3281 | the loop reaches the state the script of events determines, keeps the invariant, and finishes exactly when every scene is scheduled and none pending; enough effective events always finish it |
| ImageStage.GenerateImages | scripts/generate_images.py:3113-3426 | for every script: a finished run equals the in-order loop and has an image for exactly the scenes with a prompt; in any run the images report what the workers delivered, are exposed as the frames alone say, and are a prefix of a finished run's; a single placeholder goes out when the deadline comes before the first of them; the retries of a finished run's images are the used ones exactly when no worker raised after a granted retry |
| Rounding.Round3FixesMillis | scripts/analyze_lyrics.py:760-767 | rounding yields whole milliseconds and fixes exactly those |
| Rounding.RoundedAlikeIff | scripts/analyze_lyrics.py:760-767 | the rounded distance of two times is the distance of the rounded times exactly when they are rounded by amounts less than half a millisecond apart, or half with an even distance |
| Rounding.SameMilliIff | scripts/analyze_lyrics.py:760-767 | two times round to the same value exactly when they lie in one millisecond's cell, and then they are at most a millisecond apart |
| Alignment.AlignScenesWithSegments | scripts/analyze_lyrics.py:797-887 | the kept records, their order, and the start, end and duration written into each |
| Matching.KeptIff | scripts/analyze_lyrics.py:822-825 | the scenes that are kept are those whose verse is not empty |
| Matching.MatchedIff | scripts/analyze_lyrics.py:827-836 | a kept scene is matched to a segment exactly when that is the first of the 25 segments from where matching resumes that matches its verse, and to none exactly when none of them does |
| Matching.MatchesIff | scripts/analyze_lyrics.py:832-834 | a verse and a segment match exactly when one is a piece of the other and the segment is not empty |
| Matching.AlignedTimes | scripts/analyze_lyrics.py:838-885 | when each kept scene starts and ends, from its segment or its run of unmatched scenes |
| Alignment.PlacementKeepsOrder | scripts/analyze_lyrics.py:822-862 | scenes keep their order, matched segments strictly increase and do match, unmatched scenes follow the one before |
| Alignment.AlignmentIsGapFree | scripts/analyze_lyrics.py:864-885 | each scene ends where the next starts, and the lengths add up to last end minus first start |
| Alignment.NoNegativeDurationIff | scripts/analyze_lyrics.py:835-885 | for ordered segments no duration is negative exactly when every unmatched run fits before the next matched segment |
| Alignment.AllMatchedIsMonotone | scripts/analyze_lyrics.py:835-885 | when every kept scene matches, starts never decrease and no duration is negative |
| Alignment.NegativeDurationExample | scripts/analyze_lyrics.py:847-885 | two unmatched scenes between adjacent segments: one of them gets a duration of minus four seconds |
| Splitting.SplitLongScenes | scripts/analyze_lyrics.py:889-942 | the new list is the flattening of the parts of every scene |
| Splitting.SplitOneCovers | scripts/analyze_lyrics.py:905-938 | a split scene becomes two to four equal parts, each over 2.5 s and at most max(7, d/4) s, that cover it without gap |
| Splitting.FewestParts | scripts/analyze_lyrics.py:905-938 | the parts are the fewest under seven seconds but at most four, equally long, with the scene's verse and the prompt of each view |
| Splitting.SplitKeepsTheChain | scripts/analyze_lyrics.py:889-942 | a gap-free list stays gap-free over the same stretch |
| Splitting.SplitKeepsTheLength | scripts/analyze_lyrics.py:889-942 | the total length is the same before and after splitting |
| Splitting.AlignThenSplit | scripts/analyze_lyrics.py:1165-1168 | aligning then splitting gives a gap-free chain with true durations that sum to last end minus first start |
| Sanitising.SanitizeAnalysisPayload | scripts/analyze_lyrics.py:734-791 | the loop computes the sanitised list: cap, skipped entries, defaults, repairs, fallback |
| Sanitising.BuildFallbackScenes | scripts/analyze_lyrics.py:662-709 | fallback scenes come from the segments with text up to the limit, else from the lines, else a single one |
| Sanitising.SanitisedListIsUsable | scripts/analyze_lyrics.py:734-791 | for any input the list is not empty and within the limit, durations agree with times to a millisecond, and every scene ends after it starts exactly when no incoming scene has both times in one millisecond |
| Sanitising.UnnoticeableIsShort | scripts/analyze_lyrics.py:752-756 | only a scene given a positive length of at most a millisecond can fail that |
| Sanitising.SanitiseOneIsTimed | scripts/analyze_lyrics.py:752-767 | every sanitised time is a whole millisecond, and the end stays after the start when more than a millisecond apart |
| Sanitising.SanitiseOneOnMillis | scripts/analyze_lyrics.py:752-767 | on whole milliseconds the end is after the start and the duration is exactly their distance |
| SceneDefaults.SanitisedTimesAre | scripts/analyze_lyrics.py:752-767 | start, end and duration of a scene from the fields that are given, with every default and repair |
| SceneDefaults.SanitisedTextIs | scripts/analyze_lyrics.py:751-770 | verse, prompt and transition of a scene with their defaults |
| SceneDefaults.SceneGoesOut | scripts/analyze_lyrics.py:748-770 | every usable entry up to the limit goes out, in order, numbered by its position in the input |
| SceneDefaults.SegmentBecomesScene | scripts/analyze_lyrics.py:662-709 | up to the limit every segment with text becomes a fallback scene, in order, with its text and times |
| SceneDefaults.LineBecomesScene | scripts/analyze_lyrics.py:662-709 | without segments every written line becomes a scene of five seconds, and without lines there is one instrumental scene |
| Sanitising.DurationsAreHonestIff | scripts/analyze_lyrics.py:734-791 | for any input, every duration is exactly end minus start exactly when each kept scene's incoming times are rounded alike; fallback scenes need whole-millisecond lengths |
| Sanitising.SanitiseTwiceIff | scripts/analyze_lyrics.py:734-791 | for any input, sanitising twice equals sanitising once exactly when each kept scene's incoming times lie in different milliseconds and are rounded alike; a list without a usable entry needs fallback times in whole milliseconds |
| Sanitising.SanitiseTwiceOnMillis | scripts/analyze_lyrics.py:752-767 | on whole-millisecond lists sanitising twice equals sanitising once |
| FinalTimes.ThirdsAreNotStable | scripts/analyze_lyrics.py:760-767 | the middle third of a 20 s scene goes out with a duration a millisecond off |
| FinalTimes.FinalScenesTile | scripts/analyze_lyrics.py:1165-1183 | for any aligned chain the final list starts at the rounded beginning and tiles exactly when every kept split scene but the last has positive length and none vanishes in rounding; then durations drift by at most a millisecond a scene; after a scene that runs backwards the list overlaps by five seconds or more |
| FinalTimes.PipelineTilesIff | scripts/analyze_lyrics.py:797-942 | from verses and ordered segments: the final list tiles exactly when every unmatched run fits strictly before the next matched segment, matched segments leave room, and no scene starts and ends in one millisecond |
| FinalTimes.CutPipelineTilesIff | scripts/analyze_lyrics.py:1165-1183 | with the scene limit cutting anywhere: the list tiles exactly when every aligned scene that is at least partly kept has positive length and does not vanish, except that the last one kept may run backwards |
| FinalTimes.SplitSolid | scripts/analyze_lyrics.py:905-938 | splitting neither repairs nor harms a scene of positive length |
| FinalTimes.OverlapExample | scripts/analyze_lyrics.py:752-756 | the scene with a negative duration comes out reaching nine seconds into the next one |
| Renderer.ComputeIntro | scripts/render_video.py:357-405 | the first real verse and the intro length, which is always positive |
| Renderer.IntroIs | scripts/render_video.py:357-405 | the intro lasts to the first real verse, else to the first scene, else ten seconds, and five without scenes |
| Verses.RealVerseIff | scripts/render_video.py:361-375 | a verse is real exactly when it has four words or more and at most half of them contain a hook |
| Renderer.ExposureGate | scripts/render_video.py:427-454 | the scan stops at the first showable image and the gate opens on its ratio or when nothing is exposed |
| Renderer.ScanStopsAtShowable | scripts/render_video.py:435-444 | the scan finds a showable image exactly when there is one and counts the refused images before the first |
| Renderer.CountIsShortIff | scripts/render_video.py:435-444 | the gate counts fewer images than are refused exactly when a refused one comes after a showable one |
| Renderer.GateStaysClosedIff | scripts/render_video.py:446-454 | the gate never opens when it should not, and stays closed when it should open exactly when the refused images before the first showable one are below the threshold and all of them are not |
| Renderer.GateStaysClosedExample | scripts/render_video.py:446-454 | three of four images refused and the gate closed at a threshold of 0.4 |
| Renderer.GateLeavesSomething | scripts/render_video.py:430-520 | if any post-verse image succeeded, the gate's decision lets some scene use its own image |
| Renderer.PickNeverRepeats | scripts/render_video.py:488-502 | with two different entries in the pool no source is picked twice in a row, however the pool was when the last one was picked |
| Renderer.PicksRotate | scripts/render_video.py:488-502 | over an unchanged pool the picks walk it in order |
| Renderer.EveryEntryOnce | scripts/render_video.py:488-502 | as many picks as entries visit every entry exactly once |
| Renderer.Timeline.PickFallbackSource | scripts/render_video.py:488-502 | the loop returns the first entry from the cursor that differs from the last source, if there is one |
| Renderer.Timeline.LayScene | scripts/render_video.py:504-569 | a scene gets one slot with its duration and the next index, unless there is nothing to show |
| Renderer.OwnImageIff | scripts/render_video.py:504-545 | exactly when a scene shows its own image, and which file that is |
| Renderer.Timeline.BuildTimeline | scripts/render_video.py:357-569 | slots follow the scenes in order with consecutive indices; a prefix is dropped only without thumbnail, cached frame or rendered scene; each slot shows its scene's own image, else an entry of the pool at that moment, and two scenes filled in a row from a pool of two or more never show the same source |
| Renderer.SlotOfScene | scripts/render_video.py:504-569 | with a thumbnail, a scene's slot starts at the intro plus the durations of the post-verse scenes before it |
| Renderer.TimelineConserves | scripts/render_video.py:617-617 | with a thumbnail, the video lasts the intro plus all post-verse durations |
| ResultPage.IntroDuration | client/src/components/ResultScreen.tsx:39-65 | the page finds the renderer's intro and first verse |
| ResultPage.TimelineScenes | client/src/components/ResultScreen.tsx:39-138 | the markers of all scenes with a thumbnail of their own or before them |
| ResultPage.CappedIs | client/src/components/ResultScreen.tsx:115-119 | a marker never lies in the last tenth of a second of a video of known length |
| ResultPage.TimestampIsSlotStartIff | client/src/components/ResultScreen.tsx:79-135 | a scene's timestamp is never before the renderer's slot, and equals its start exactly when the durations before it are positive |
| ResultPage.SanitisedTimesAgreeIff | client/src/components/ResultScreen.tsx:79-135 | for sanitised scenes they agree exactly when every scene before lasted more than half a millisecond before rounding |
| ResultPage.LatePageExample | client/src/components/ResultScreen.tsx:82-83 | a scene of no duration makes the page five seconds late for the next one |
| ResultPage.MarkersAreOrdered | client/src/components/ResultScreen.tsx:85-135 | markers come in scene order and carry the capped timestamp of their scene |
| ResultPage.MarkerIff | client/src/components/ResultScreen.tsx:79-135 | a scene has a marker exactly when it or a post-verse scene before it shows an image of its own |
| ResultPage.MarkerShows | client/src/components/ResultScreen.tsx:79-135 | a marker carries the last such image, and the scene's duration or five seconds |
| ResultPage.SeekSelectsIff | client/src/components/ResultScreen.tsx:149-164 | seeking to a marker selects it exactly when the player's own duration does not hold the seek back and it is the last marker or its scene starts before the seek limit |
| ResultPage.WrongSceneExample | client/src/components/ResultScreen.tsx:149-164 | in a video shorter than its scenes, seeking to the second marker selects the third |
| JsonScanner.ExtractFirstJsonObject | scripts/dev-tools/audit_scene_with_smolvlm.py:327-357 | each of the four outcomes, both directions: the candidate is the one stretch from the first brace to where the depth returns to zero |
| JsonScanner.Escape | scripts/dev-tools/audit_scene_with_smolvlm.py:337-346 | every text has a legal spelling, so the results about printed objects cover all texts |
| JsonScanner.SpellingIsUnambiguous | scripts/dev-tools/audit_scene_with_smolvlm.py:337-346 | a spelling stands for one character only |
| JsonScanner.SpelledStaysInside | scripts/dev-tools/audit_scene_with_smolvlm.py:337-346 | text never leaves the string, whatever it contains and whichever legal spelling the printer chose for each character |
| JsonScanner.PrintIsNeutral | scripts/dev-tools/audit_scene_with_smolvlm.py:337-352 | a printed value inside an object never closes it and leaves the scanner as it was |
| JsonScanner.PrintedObjectIsDelimited | scripts/dev-tools/audit_scene_with_smolvlm.py:327-357 | any printed object after a prefix without a brace and before any suffix is delimited exactly |
| JsonScanner.ScanUndoesPrint | scripts/dev-tools/audit_scene_with_smolvlm.py:327-357 | the scanner returns exactly the printed object, for every layout and every legal spelling of its strings |
| VttParser.ParseCues | scripts/transcribe_audio.py:249-283 | the nested loops compute the parse of the lines; no text is empty and no two neighbours are equal |
| VttParser.ParseIsTidy | scripts/transcribe_audio.py:252-283 | for any input no text is empty and no two adjacent texts are equal |
| VttMarkup.NoTagSurvives | scripts/transcribe_audio.py:266-267 | whatever a line holds, no tag is left after cleaning |
| VttMarkup.TagsAreStripped | scripts/transcribe_audio.py:266-267 | of a line printed as pieces with tags between them exactly the pieces stay |
| VttParser.TimingLineReadsBack | scripts/transcribe_audio.py:249-260 | a printed timing line reads back as its two times, to the millisecond |
| VttMarkup.AnySpacingReadsBack | scripts/transcribe_audio.py:249-260 | so does one with any white space around the arrow and anything after the times |
| VttParser.ParseUndoesPrint | scripts/transcribe_audio.py:249-283 | parsing any printed cues, with settings after their times, gives each cue's cleaned lines and times in turn |
| VttMarkup.MarkedCuesRoundTrip | scripts/transcribe_audio.py:249-283 | parsing printed cues with markup gives their texts without it and their times, without cues that show nothing and only the first of repeats |
| VttParser.PlainCuesRoundTrip | scripts/transcribe_audio.py:249-283 | cues with plain text and no repeats come back exactly |
| GeminiPacing.StepKeepsInv | scripts/generate_images.py:305-340 | every step of every thread keeps slots, locks, timestamps and gaps in order |
| GeminiPacing.SerializedBodiesArePaced | scripts/generate_images.py:319-335 | in every reachable state serialised bodies of a process exclude each other and start at least the interval after the one before ended |
| GeminiPacing.PaceIsTight | scripts/generate_images.py:319-335 | the pacing check waits no longer than the interval needs |
| GeminiPacing.SlotsAreBounded | scripts/gemini_semaphore.py:149-193 | no more slots are held than there are, and each has one holder |
| GeminiPacing.OneSlotMeansOneBody | scripts/gemini_semaphore.py:149-252 | with one slot, or while locking never fails, bodies never overlap anywhere and both kinds of call keep the gap in their process |
| GeminiPacing.OverlapIff | scripts/gemini_semaphore.py:142-184 | some run makes bodies overlap exactly when more than one slot is configured, and every run that does has failed to lock a slot file |
| GeminiPacing.GapBrokenIff | scripts/gemini_semaphore.py:142-252 | some run breaks the minimum gap within a process exactly when more than one slot is configured, and then the bodies are guarded and locking a slot file has failed |
| GeminiPacing.LockFailedIff | scripts/gemini_semaphore.py:149-193 | a run has failed to lock a slot file exactly when one of its steps did |
| GeminiPacing.NoDeadlock | scripts/gemini_semaphore.py:149-252 | in every reachable state with a thread under way some thread can go on, or one is waiting out the interval |
| TokenRefresh.StepKeepsInv | client/src/services/api.ts:16-120 | every response, refresh answer and continuation keeps the protocol's invariant |
| TokenRefresh.RefreshIsSingleFlight | client/src/services/api.ts:16-52 | one refresh is outstanding at most, its waiters get the same token, no request is sent more than twice, and a repeat carries a token exactly when the refresh gave one |
| RequestOutcomes.HowRequestsEnd | client/src/services/api.ts:66-120 | over every run, from the responses alone: a request is resolved exactly when its last response was a success, and rejected exactly when it was another error or a 401 that is not followed by a repeat |
| RequestOutcomes.SharedRefreshExample | client/src/services/api.ts:66-120 | a run in which two requests wait on one refresh and are both repeated with its token |
| RequestOutcomes.TokensComeFromRefreshes | client/src/services/api.ts:16-64 | every token that is stored or sent along was the answer of a refresh of the run |
| RequestOutcomes.WhatIsSentAndStored | client/src/services/api.ts:54-120 | which token each request and repeat is sent with, and what is stored after each step |
| TokenRefresh.SomethingIsDue | client/src/services/api.ts:66-120 | a request that has not ended always has a step due |
| TokenRefresh.EveryRequestEnds | client/src/services/api.ts:66-120 | a run takes at most five further steps a request, and when none is left every request is resolved or rejected |
| Percentile.PercentileIsBounded | scripts/dev-tools/benchmark_assert_slo.js:15-25 | the percentile lies between the smallest and the largest value |
| Percentile.PercentileEnds | scripts/dev-tools/benchmark_assert_slo.js:15-25 | it is the smallest value at 0 and the largest at 100 |
| Percentile.PercentileInterpolates | scripts/dev-tools/benchmark_assert_slo.js:15-25 | between the values at two neighbouring ranks the percentile is on the straight line between them |
| Percentile.PercentileOfFew | scripts/dev-tools/benchmark_assert_slo.js:15-25 | no values give zero, and a single one is every percentile |
| Percentile.PercentileIgnoresOrder | scripts/dev-tools/benchmark_assert_slo.js:15-25 | it does not depend on the order of the input |
| Percentile.PercentileIsMonotone | scripts/dev-tools/benchmark_assert_slo.js:15-25 | it never decreases as p grows, across ranks too |

## Left out

- Provider calls, workflow building, HTTP, FFmpeg command lines, file copies, database and Redis: represented by their outcomes.
- Keyword tables of the frame score and of the scene traits, prompt rewriting and prompt texts sent to providers: passed in as booleans or not modelled.
- Binary floating point: times and scores are exact, so effects below the third decimal that come from binary fractions are not captured.
- Gemini attempt loop inside one worker attempt: whether any of its calls succeeds is part of the attempt's outcome; its waits and the cooldown gates are not modelled.
- Splitting.SplitLongScenes: scenes are values here; that a scene which is not split stays the same dictionary object is not captured.
- Sanitising.SanitizeAnalysisPayload: covers the scene list; mood, keywords and colours are easy members.
- JsonScanner.ExtractFirstJsonObject: returns the text that is handed to the JSON decoder; decoding is the library's.
- VttParser.ParseCues: digits are the ASCII digits and white space is space, tab, line feed and carriage return.
- Percentile.PercentileIsBounded: p is between 0 and 100, as every caller passes it; outside that range the code reads past the array.
- Renderer.Timeline.BuildTimeline: requires FFmpeg; without it a placeholder download is reported but writes no file.
- ResultPage.TimestampIsSlotStartIff: which picture the page and the renderer show is not compared, only the times.
- TokenRefresh.EveryRequestEnds: responses are assumed to arrive; the login pages and token storage are not part of this model.
- Summary fields of the image stage result (ratios, averages, degraded reasons) and progress events: computed from the images, easy members.
- NestJS modules, React rendering, translations, git hooks, training and download scripts: wiring.
