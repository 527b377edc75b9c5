// The quality-retry recursion of generate_scene_asset, and the same work cut at
// the one point where a worker touches shared state, the retry budget
// (scripts/generate_images.py).
module QualityRetry {
  import opened Common
  import opened Providers
  import opened QualityScore
  import opened SceneAsset

  function ClampHundredths(h: int): int { Max(0, Min(100, h)) }

  // The attempt's score before exposure is known.
  function PreScore(strict: bool, t: Traits, actual: Provider, error: bool): int {
    ClampHundredths(Hundredths(t, strict, actual, error || actual == Mock, false))
  }

  lemma PreScoreIsTheQuality(strict: bool, t: Traits, actual: Provider, error: bool)
    ensures PreScore(strict, t, actual, error) as real / 100.0
         == Quality(t, strict, actual, error || actual == Mock, false, None)
  {
    hide Hundredths;
    var h := Hundredths(t, strict, actual, error || actual == Mock, false);
    assert h < 0 <==> h as real / 100.0 < 0.0;
    assert h > 100 <==> h as real / 100.0 > 1.0;
  }

  // What one attempt on `provider` leaves in the trace.
  function EntryOf(env: Env, t: Traits, provider: Provider, attempt: nat, ok: set<Provider>): (e: Entry)
    ensures e.attempt == attempt
  {
    var (actual, error) := Attempt(env, provider, ok);
    var strict := Routed(env, t, provider);
    Entry(attempt, actual, error, strict, PreScore(strict, t, actual, error))
  }

  // maybe_select_quality_retry_provider.
  function RetryProvider(env: Env, strict: bool, current: Provider, base: Provider): Option<Provider> {
    if strict && current != Gemini && env.geminiKey && env.allowGeminiRetry && !env.earlyFailover then Some(Gemini)
    else if current == Gemini then Some(if base != Gemini then base else Pollinations)
    else if current == Pollinations && base == Comfyui then Some(Comfyui)
    else None
  }

  // The provider of the next attempt, if this one is to be retried.
  function NextProvider(env: Env, t: Traits, base: Provider, maxAttempts: nat, provider: Provider,
                        e: Entry): (next: Option<Provider>)
    ensures next.Some? ==> e.attempt < maxAttempts && e.score as real < env.minScore && next.value != e.provider
  {
    if !(env.retryEnabled && e.attempt < maxAttempts && e.score as real < env.minScore) then None
    else
      var next := RetryProvider(env, Routed(env, t, provider), e.provider, base);
      if next.Some? && next.value != e.provider then next else None
  }

  // The retried branch wins ties; either way the trace keeps every attempt.
  function Keep(e: Entry, retried: Result): Result {
    var trace := [e] + retried.trace;
    if retried.score >= e.score then
      Result(retried.provider, retried.error, retried.strict, retried.score, trace, |trace| - 1)
    else
      Result(e.provider, e.error, e.strict, e.score, trace, |trace| - 1)
  }

  // generate_scene_asset from attempt number `attempt` on.  oks[k] and grants[k]
  // are what attempt k + 1 meets: the providers that answer, and the budget's reply.
  function Generate(env: Env, t: Traits, base: Provider, maxAttempts: nat, provider: Provider, attempt: nat,
                    oks: seq<set<Provider>>, grants: seq<bool>): Result
    requires 1 <= attempt <= maxAttempts == |oks| == |grants|
    decreases maxAttempts - attempt
  {
    var e := EntryOf(env, t, provider, attempt, oks[attempt - 1]);
    var next := NextProvider(env, t, base, maxAttempts, provider, e);
    if next.Some? && grants[attempt - 1] then
      Keep(e, Generate(env, t, base, maxAttempts, next.value, attempt + 1, oks, grants))
    else
      Result(e.provider, e.error, e.strict, e.score, [e], 0)
  }

  // ---- what a result always satisfies -----------------------------------

  ghost predicate Numbered(trace: seq<Entry>, first: nat) {
    forall k :: 0 <= k < |trace| ==> trace[k].attempt == first + k
  }

  predicate Repeats(r: Result, e: Entry) {
    r.provider == e.provider && r.error == e.error && r.strict == e.strict && r.score == e.score
  }

  // The result repeats the last of the trace's best entries.
  ghost predicate BestOf(r: Result) {
    && (forall k :: 0 <= k < |r.trace| ==> r.trace[k].score <= r.score)
    && exists b :: 0 <= b < |r.trace|
         && Repeats(r, r.trace[b])
         && forall k :: b < k < |r.trace| ==> r.trace[k].score < r.score
  }

  ghost predicate ComfyErrorFree(trace: seq<Entry>) {
    forall k :: 0 <= k < |trace| ==> trace[k].provider == Comfyui ==> !trace[k].error
  }

  // `first` is the number of the first attempt in the trace.
  ghost predicate WellFormed(r: Result, first: nat, maxAttempts: nat) {
    && 1 <= |r.trace| && first + |r.trace| - 1 <= maxAttempts
    && Numbered(r.trace, first)
    && r.retryCount == |r.trace| - 1
    && BestOf(r)
    && ComfyErrorFree(r.trace)
  }

  lemma WellFormedComfy(r: Result, first: nat, maxAttempts: nat)
    requires WellFormed(r, first, maxAttempts)
    ensures r.provider == Comfyui ==> !r.error
  {
  }

  lemma SingleIsWellFormed(e: Entry, first: nat, maxAttempts: nat)
    requires e.attempt == first <= maxAttempts && (e.provider == Comfyui ==> !e.error)
    ensures WellFormed(Result(e.provider, e.error, e.strict, e.score, [e], 0), first, maxAttempts)
  {
    var r := Result(e.provider, e.error, e.strict, e.score, [e], 0);
    assert Repeats(r, r.trace[0]);
    assert BestOf(r);
  }

  lemma KeepIsWellFormed(e: Entry, retried: Result, first: nat, maxAttempts: nat)
    requires WellFormed(retried, first + 1, maxAttempts)
    requires e.attempt == first && (e.provider == Comfyui ==> !e.error)
    ensures WellFormed(Keep(e, retried), first, maxAttempts)
  {
    var r := Keep(e, retried);
    assert forall k :: 0 < k < |r.trace| ==> r.trace[k] == retried.trace[k - 1];
    var b :| 0 <= b < |retried.trace|
         && Repeats(retried, retried.trace[b])
         && forall k :: b < k < |retried.trace| ==> retried.trace[k].score < retried.score;
    var best := if retried.score >= e.score then b + 1 else 0;
    assert Repeats(r, r.trace[best]);
    assert BestOf(r);
  }

  // The recursion ends after at most maxAttempts attempts, numbers them, counts
  // the retries, and returns the best score it saw.
  lemma {:induction false} RetryReturnsTheBest(env: Env, t: Traits, base: Provider, maxAttempts: nat,
                                               provider: Provider,
                                               attempt: nat, oks: seq<set<Provider>>, grants: seq<bool>)
    requires 1 <= attempt <= maxAttempts == |oks| == |grants|
    ensures WellFormed(Generate(env, t, base, maxAttempts, provider, attempt, oks, grants), attempt, maxAttempts)
    decreases maxAttempts - attempt
  {
    hide NextProvider, WellFormed, Keep, PreScore;
    var e := EntryOf(env, t, provider, attempt, oks[attempt - 1]);
    ComfyHasNoError(env, provider, oks[attempt - 1]);
    assert e.provider == Comfyui ==> !e.error;
    hide EntryOf;
    SingleIsWellFormed(e, attempt, maxAttempts);
    var next := NextProvider(env, t, base, maxAttempts, provider, e);
    if next.Some? && grants[attempt - 1] {
      RetryReturnsTheBest(env, t, base, maxAttempts, next.value, attempt + 1, oks, grants);
      var retried := Generate(env, t, base, maxAttempts, next.value, attempt + 1, oks, grants);
      KeepIsWellFormed(e, retried, attempt, maxAttempts);
    }
  }

  // The returned score is the quality of the returned attempt before exposure.
  predicate Scored(t: Traits, r: Result) {
    r.score as real / 100.0 == Quality(t, r.strict, r.provider, r.error || r.provider == Mock, false, None)
  }

  lemma {:induction false} GenerateIsScored(env: Env, t: Traits, base: Provider, maxAttempts: nat, provider: Provider,
                                            attempt: nat, oks: seq<set<Provider>>, grants: seq<bool>)
    requires 1 <= attempt <= maxAttempts == |oks| == |grants|
    ensures Scored(t, Generate(env, t, base, maxAttempts, provider, attempt, oks, grants))
    decreases maxAttempts - attempt
  {
    hide EntryOf, NextProvider, Scored, Keep;
    var e := EntryOf(env, t, provider, attempt, oks[attempt - 1]);
    EntryIsScored(env, t, provider, attempt, oks[attempt - 1]);
    var next := NextProvider(env, t, base, maxAttempts, provider, e);
    if next.Some? && grants[attempt - 1] {
      GenerateIsScored(env, t, base, maxAttempts, next.value, attempt + 1, oks, grants);
      KeepIsScored(t, e, Generate(env, t, base, maxAttempts, next.value, attempt + 1, oks, grants));
    }
  }

  lemma EntryIsScored(env: Env, t: Traits, provider: Provider, attempt: nat, ok: set<Provider>)
    ensures var e := EntryOf(env, t, provider, attempt, ok);
            Scored(t, Result(e.provider, e.error, e.strict, e.score, [e], 0))
  {
    hide Quality, Attempt, PreScore;
    var e := EntryOf(env, t, provider, attempt, ok);
    PreScoreIsTheQuality(e.strict, t, e.provider, e.error);
  }

  lemma KeepIsScored(t: Traits, e: Entry, retried: Result)
    requires Scored(t, retried) && Scored(t, Result(e.provider, e.error, e.strict, e.score, [e], 0))
    ensures Scored(t, Keep(e, retried))
  {
    hide Quality;
  }

  // A retry never makes a scene worse: the score is at least that of the first
  // attempt, the score a run without any budget returns.
  lemma {:induction false} RetryNeverHurts(env: Env, t: Traits, base: Provider, maxAttempts: nat, provider: Provider,
                        oks: seq<set<Provider>>, grants: seq<bool>, denied: seq<bool>)
    requires 1 <= maxAttempts == |oks| == |grants| == |denied|
    requires forall k :: 0 <= k < |denied| ==> !denied[k]
    ensures Generate(env, t, base, maxAttempts, provider, 1, oks, grants).score
         >= Generate(env, t, base, maxAttempts, provider, 1, oks, denied).score
  {
    var r := Generate(env, t, base, maxAttempts, provider, 1, oks, grants);
    RetryReturnsTheBest(env, t, base, maxAttempts, provider, 1, oks, grants);
    assert r.trace[0] == EntryOf(env, t, provider, 1, oks[0]);
  }

  // Every attempt but the last was below the threshold and was granted a retry.
  lemma {:induction false} OnlyPoorAttemptsAreRetried(env: Env, t: Traits, base: Provider, maxAttempts: nat,
                                                      provider: Provider,
                                                      attempt: nat, oks: seq<set<Provider>>, grants: seq<bool>, k: nat)
    requires 1 <= attempt <= maxAttempts == |oks| == |grants|
    requires k + 1 < |Generate(env, t, base, maxAttempts, provider, attempt, oks, grants).trace|
    ensures attempt + k < maxAttempts && grants[attempt - 1 + k]
    ensures Generate(env, t, base, maxAttempts, provider, attempt, oks, grants).trace[k].score as real < env.minScore
    decreases maxAttempts - attempt
  {
    hide EntryOf, NextProvider;
    var e := EntryOf(env, t, provider, attempt, oks[attempt - 1]);
    var next := NextProvider(env, t, base, maxAttempts, provider, e);
    if k > 0 {
      OnlyPoorAttemptsAreRetried(env, t, base, maxAttempts, next.value, attempt + 1, oks, grants, k - 1);
    }
  }

  // ---- how a scene gets to Gemini ----------------------------------------

  // A retry goes to Gemini exactly for a routed scene whose poor attempt Gemini did
  // not make.
  lemma RetryToGeminiIff(env: Env, t: Traits, base: Provider, maxAttempts: nat, provider: Provider, e: Entry)
    ensures NextProvider(env, t, base, maxAttempts, provider, e) == Some(Gemini) <==>
            && env.retryEnabled && e.attempt < maxAttempts && e.score as real < env.minScore
            && Routed(env, t, provider) && e.provider != Gemini
            && env.allowGeminiRetry && !env.earlyFailover
  {
  }

  // Any other retry goes back from Gemini, to the given provider or else to
  // Pollinations, or from Pollinations to the ComfyUI it stands in for.
  lemma RetryBackIff(env: Env, t: Traits, base: Provider, maxAttempts: nat, provider: Provider, e: Entry, p: Provider)
    requires p != Gemini
    ensures NextProvider(env, t, base, maxAttempts, provider, e) == Some(p) <==>
            && env.retryEnabled && e.attempt < maxAttempts && e.score as real < env.minScore
            && (|| (e.provider == Gemini && p == if base == Gemini then Pollinations else base)
                || (&& e.provider == Pollinations && base == Comfyui && p == Comfyui
                    && !(Routed(env, t, provider) && env.allowGeminiRetry && !env.earlyFailover)))
  {
  }

  // At the default threshold a routed scene is retried on Gemini exactly when
  // Pollinations made it and two of these five faults add up; ComfyUI and Replicate
  // are never poor enough.
  lemma RoutedRetryAtDefault(env: Env, t: Traits, base: Provider, maxAttempts: nat, provider: Provider, attempt: nat,
                             ok: set<Provider>)
    requires env.minScore == 55.0 && env.retryEnabled && env.allowGeminiRetry && !env.earlyFailover
    requires attempt < maxAttempts && Routed(env, t, provider) && provider in ok
    ensures NextProvider(env, t, base, maxAttempts, provider, EntryOf(env, t, provider, attempt, ok))
            == Some(Gemini) <==>
            && provider == Pollinations
            && Count(t.crowd) + Count(t.textHeavy) + Count(t.action) + Count(t.longPrompt)
               + Count(t.portraitContamination)
               >= 2
  {
    var e := EntryOf(env, t, provider, attempt, ok);
    assert e.provider == provider && !e.error && e.strict && e.attempt == attempt;
    RetryToGeminiIff(env, t, base, maxAttempts, provider, e);
    PreScoreIsTheQuality(true, t, provider, false);
    PoorAttemptIff(t, true, provider);
    assert e.score == PreScore(true, t, provider, false);
    hide Quality, PreScore, NextProvider, EntryOf;
    assert e.score as real < 55.0 <==> e.score as real / 100.0 < 0.55;
  }

  predicate MadeBy(trace: seq<Entry>, p: Provider) { exists k :: 0 <= k < |trace| && trace[k].provider == p }

  // Under these outcomes and replies, some attempt of the scene is made by Gemini.
  predicate ReachesGemini(env: Env, t: Traits, base: Provider, maxAttempts: nat, oks: seq<set<Provider>>,
                          grants: seq<bool>) {
    && 1 <= maxAttempts == |oks| == |grants|
    && MadeBy(Generate(env, t, base, maxAttempts, base, 1, oks, grants).trace, Gemini)
  }

  // The quality retry that smart routing opens.
  predicate RoutedRetry(env: Env, t: Traits, base: Provider, maxAttempts: nat) {
    && env.retryEnabled && env.allowGeminiRetry && maxAttempts >= 2 && env.minScore > 0.0
    && env.smartRouting && env.geminiKey && (base == Comfyui || base == Pollinations || base == Replicate)
    && (t.textHeavy || t.crowd || t.action || t.multiPerson)
  }

  // The three ways to Gemini; early failover closes all of them.
  predicate MayReachGemini(env: Env, t: Traits, base: Provider, maxAttempts: nat) {
    && !env.earlyFailover
    && (base == Gemini || (base == Comfyui && Gemini in env.failover) || RoutedRetry(env, t, base, maxAttempts))
  }

  lemma {:induction false} FailoverIsConfigured(env: Env, configured: seq<Provider>, ok: set<Provider>)
    ensures FailoverTarget(env, configured, ok) == Gemini ==> Gemini in configured && !env.earlyFailover
  {
    if configured != [] { FailoverIsConfigured(env, configured[1..], ok); }
  }

  // One attempt on a provider other than Gemini.
  lemma AttemptAvoidsGemini(env: Env, provider: Provider, ok: set<Provider>)
    requires env.earlyFailover || (provider != Gemini && (provider == Comfyui ==> Gemini !in env.failover))
    ensures Attempt(env, provider, ok).0 != Gemini
  {
    FailoverIsConfigured(env, env.failover, ok);
  }

  lemma MadeByKeep(e: Entry, retried: Result, p: Provider)
    ensures MadeBy(Keep(e, retried).trace, p) <==> e.provider == p || MadeBy(retried.trace, p)
  {
    var trace := Keep(e, retried).trace;
    assert trace[0] == e && trace[1..] == retried.trace;
    if MadeBy(retried.trace, p) {
      var k :| 0 <= k < |retried.trace| && retried.trace[k].provider == p;
      assert trace[k + 1].provider == p;
    }
  }

  lemma {:induction false} WithoutGemini(env: Env, t: Traits, base: Provider, maxAttempts: nat, provider: Provider,
                                         attempt: nat, oks: seq<set<Provider>>, grants: seq<bool>)
    requires 1 <= attempt <= maxAttempts == |oks| == |grants|
    requires !MayReachGemini(env, t, base, maxAttempts)
    requires env.earlyFailover || provider == base
    ensures !MadeBy(Generate(env, t, base, maxAttempts, provider, attempt, oks, grants).trace, Gemini)
    decreases maxAttempts - attempt
  {
    var e := EntryOf(env, t, provider, attempt, oks[attempt - 1]);
    AttemptAvoidsGemini(env, provider, oks[attempt - 1]);
    assert e.provider != Gemini && e.score >= 0;
    RetryToGeminiIff(env, t, base, maxAttempts, provider, e);
    var next := NextProvider(env, t, base, maxAttempts, provider, e);
    assert next.Some? && !env.earlyFailover ==> next.value == base;
    hide EntryOf, NextProvider, Attempt, Routed;
    if next.Some? && grants[attempt - 1] {
      WithoutGemini(env, t, base, maxAttempts, next.value, attempt + 1, oks, grants);
      MadeByKeep(e, Generate(env, t, base, maxAttempts, next.value, attempt + 1, oks, grants), Gemini);
    }
  }

  // Nothing answers, and the placeholder scores nothing.
  lemma NothingAnswers(env: Env, t: Traits, provider: Provider)
    ensures EntryOf(env, t, provider, 1, {}).provider == Mock && EntryOf(env, t, provider, 1, {}).score == 0
  {
    NoTarget(env, env.failover);
  }

  lemma {:induction false} NoTarget(env: Env, configured: seq<Provider>)
    ensures FailoverTarget(env, configured, {}) == Mock
  {
    if configured != [] { NoTarget(env, configured[1..]); }
  }

  lemma {:induction false} OnlyGeminiAnswers(env: Env, configured: seq<Provider>)
    requires Gemini in configured && !env.earlyFailover
    ensures FailoverTarget(env, configured, {Gemini}) == Gemini
  {
    if configured[0] != Gemini { OnlyGeminiAnswers(env, configured[1..]); }
  }

  // A first attempt on Gemini, or one that fails over to it.
  lemma FirstByGemini(env: Env, t: Traits, base: Provider, maxAttempts: nat, oks: seq<set<Provider>>, grants: seq<bool>)
    requires 1 <= maxAttempts == |oks| == |grants| && oks[0] == {Gemini} && !env.earlyFailover
    requires base == Gemini || (base == Comfyui && Gemini in env.failover)
    ensures ReachesGemini(env, t, base, maxAttempts, oks, grants)
  {
    if base == Comfyui { OnlyGeminiAnswers(env, env.failover); }
    var trace := Generate(env, t, base, maxAttempts, base, 1, oks, grants).trace;
    assert trace[0] == EntryOf(env, t, base, 1, oks[0]);
    assert trace[0].provider == Gemini;
  }

  // A first attempt that fails, and a retry that Gemini answers.
  lemma RetriedByGemini(env: Env, t: Traits, base: Provider, maxAttempts: nat, oks: seq<set<Provider>>,
                        grants: seq<bool>)
    requires 2 <= maxAttempts == |oks| == |grants| && oks[0] == {} && oks[1] == {Gemini} && grants[0]
    requires !env.earlyFailover && RoutedRetry(env, t, base, maxAttempts)
    ensures ReachesGemini(env, t, base, maxAttempts, oks, grants)
  {
    var e := EntryOf(env, t, base, 1, oks[0]);
    NothingAnswers(env, t, base);
    RetryToGeminiIff(env, t, base, maxAttempts, base, e);
    var second := EntryOf(env, t, Gemini, 2, oks[1]);
    assert second.provider == Gemini;
    hide EntryOf, NextProvider, Routed;
    var retried := Generate(env, t, base, maxAttempts, Gemini, 2, oks, grants);
    assert retried.trace[0] == second;
    assert MadeBy(retried.trace, Gemini);
    MadeByKeep(e, retried, Gemini);
  }

  // Gemini makes an attempt of some run exactly when it is the given provider, or a
  // configured failover of ComfyUI, or smart routing opens the quality retry to it;
  // and early failover is off.
  lemma GeminiReachedIff(env: Env, t: Traits, base: Provider, maxAttempts: nat)
    requires 1 <= maxAttempts
    ensures (exists oks: seq<set<Provider>>, grants: seq<bool> :: ReachesGemini(env, t, base, maxAttempts, oks, grants))
            <==> MayReachGemini(env, t, base, maxAttempts)
  {
    hide Generate, MadeBy;
    if MayReachGemini(env, t, base, maxAttempts) {
      var grants := seq(maxAttempts, _ => true);
      if base == Gemini || (base == Comfyui && Gemini in env.failover) {
        FirstByGemini(env, t, base, maxAttempts, seq(maxAttempts, _ => {Gemini}), grants);
      } else {
        RetriedByGemini(env, t, base, maxAttempts, seq(maxAttempts, k => if k == 0 then {} else {Gemini}), grants);
      }
    } else {
      forall oks: seq<set<Provider>>, grants: seq<bool> | 1 <= maxAttempts == |oks| == |grants|
        ensures !ReachesGemini(env, t, base, maxAttempts, oks, grants)
      {
        WithoutGemini(env, t, base, maxAttempts, base, 1, oks, grants);
      }
    }
  }

  // The same scene and the same outcomes with smart routing on and off: with it the
  // Pollinations image is retried on Gemini, without it the image stays.
  const ROUTED_TRAITS := Traits(true, true, true, false, false, false)
  const EXAMPLE_OKS: seq<set<Provider>> := [{Pollinations}, {Gemini}]

  function RoutingExample(smart: bool): Result {
    var env := Env(smart, true, true, false, [], true, 55.0);
    Generate(env, ROUTED_TRAITS, Pollinations, 2, Pollinations, 1, EXAMPLE_OKS, [true, true])
  }

  lemma RoutingMatters()
    ensures |RoutingExample(true).trace| == 2 && RoutingExample(true).provider == Gemini
    ensures |RoutingExample(false).trace| == 1 && RoutingExample(false).provider == Pollinations
  {
    var on, off := Env(true, true, true, false, [], true, 55.0), Env(false, true, true, false, [], true, 55.0);
    var t := ROUTED_TRAITS;
    assert NextProvider(on, t, Pollinations, 2, Pollinations, EntryOf(on, t, Pollinations, 1, {Pollinations}))
           == Some(Gemini);
    assert NextProvider(off, t, Pollinations, 2, Pollinations, EntryOf(off, t, Pollinations, 1, {Pollinations}))
           == None;
    assert EntryOf(on, t, Gemini, 2, {Gemini}).provider == Gemini;
  }

  // ---- the worker as steps ----------------------------------------------

  // A worker between attempts: the provider it calls next and the entries of the
  // attempts it has been granted a retry for; or its result; or it raised.
  datatype Worker = Working(provider: Provider, trace: seq<Entry>) | Done(result: Result) | Raised

  function Start(provider: Provider): Worker { Working(provider, []) }

  // The returns of the recursion, innermost first.
  function Unwind(trace: seq<Entry>): Result
    requires trace != []
  {
    if |trace| == 1 then Result(trace[0].provider, trace[0].error, trace[0].strict, trace[0].score, trace, 0)
    else Keep(trace[0], Unwind(trace[1..]))
  }

  function StepEntry(env: Env, t: Traits, w: Worker, ok: set<Provider>): Entry
    requires w.Working?
  {
    EntryOf(env, t, w.provider, |w.trace| + 1, ok)
  }

  // What the worker would ask the budget for after this attempt.
  function StepNext(env: Env, t: Traits, base: Provider, maxAttempts: nat, w: Worker,
                    ok: set<Provider>): Option<Provider>
    requires w.Working?
  {
    NextProvider(env, t, base, maxAttempts, w.provider, StepEntry(env, t, w, ok))
  }

  // One attempt together with its budget request; `granted` is the reply.
  function Step(env: Env, t: Traits, base: Provider, maxAttempts: nat, w: Worker, ok: set<Provider>,
                granted: bool): Worker
    requires w.Working?
  {
    var e := StepEntry(env, t, w, ok);
    var next := StepNext(env, t, base, maxAttempts, w, ok);
    if next.Some? && granted then Working(next.value, w.trace + [e]) else Done(Unwind(w.trace + [e]))
  }

  // A worker that is alive has attempts left and numbers them from 1.
  ghost predicate WorkerOk(w: Worker, maxAttempts: nat) {
    match w
    case Working(_, trace) => |trace| < maxAttempts && Numbered(trace, 1) && ComfyErrorFree(trace)
    case Done(r) => WellFormed(r, 1, maxAttempts)
    case Raised => true
  }

  lemma KeepTrace(e: Entry, retried: Result)
    ensures Keep(e, retried).trace == [e] + retried.trace
  {
  }

  lemma {:induction false} UnwindIsWellFormed(trace: seq<Entry>, first: nat, maxAttempts: nat)
    requires trace != [] && first + |trace| - 1 <= maxAttempts
    requires Numbered(trace, first) && ComfyErrorFree(trace)
    ensures WellFormed(Unwind(trace), first, maxAttempts)
    ensures Unwind(trace).trace == trace
  {
    if |trace| == 1 {
      var r := Unwind(trace);
      assert Repeats(r, r.trace[0]);
    } else {
      hide WellFormed, Keep;
      UnwindIsWellFormed(trace[1..], first + 1, maxAttempts);
      assert Unwind(trace).trace == trace by { KeepTrace(trace[0], Unwind(trace[1..])); }
      KeepIsWellFormed(trace[0], Unwind(trace[1..]), first, maxAttempts);
    }
  }

  lemma StepKeepsWorkerOk(env: Env, t: Traits, base: Provider, maxAttempts: nat, w: Worker, ok: set<Provider>,
                          granted: bool)
    requires w.Working? && WorkerOk(w, maxAttempts)
    ensures WorkerOk(Step(env, t, base, maxAttempts, w, ok, granted), maxAttempts)
    ensures Step(env, t, base, maxAttempts, w, ok, granted).Done? ==>
              Step(env, t, base, maxAttempts, w, ok, granted).result.retryCount == |w.trace|
  {
    var e := StepEntry(env, t, w, ok);
    ComfyHasNoError(env, w.provider, ok);
    UnwindIsWellFormed(w.trace + [e], 1, maxAttempts);
  }

  // Running a worker alone, with the replies it meets, to its result.
  function RunWorker(env: Env, t: Traits, base: Provider, maxAttempts: nat, w: Worker,
                     oks: seq<set<Provider>>, grants: seq<bool>): Result
    requires w.Working? && |w.trace| < maxAttempts == |oks| == |grants|
    decreases maxAttempts - |w.trace|
  {
    var n := |w.trace|;
    var w' := Step(env, t, base, maxAttempts, w, oks[n], grants[n]);
    if w'.Done? then w'.result else RunWorker(env, t, base, maxAttempts, w', oks, grants)
  }

  // The steps compute what the recursion computes.
  lemma {:induction false} StepsMatchTheRecursion(env: Env, t: Traits, base: Provider, maxAttempts: nat, w: Worker,
                                                  oks: seq<set<Provider>>, grants: seq<bool>)
    requires w.Working? && |w.trace| < maxAttempts == |oks| == |grants|
    ensures RunWorker(env, t, base, maxAttempts, w, oks, grants)
         == Unwind(w.trace + Generate(env, t, base, maxAttempts, w.provider, |w.trace| + 1, oks, grants).trace)
    decreases maxAttempts - |w.trace|
  {
    hide EntryOf, NextProvider;
    var n := |w.trace|;
    var e := StepEntry(env, t, w, oks[n]);
    var next := StepNext(env, t, base, maxAttempts, w, oks[n]);
    if next.Some? && grants[n] {
      var w' := Working(next.value, w.trace + [e]);
      StepsMatchTheRecursion(env, t, base, maxAttempts, w', oks, grants);
      var rest := Generate(env, t, base, maxAttempts, next.value, n + 2, oks, grants).trace;
      assert w.trace + ([e] + rest) == w'.trace + rest;
    }
  }

  lemma {:induction false} UnwindOfGenerate(env: Env, t: Traits, base: Provider, maxAttempts: nat, provider: Provider,
                                            attempt: nat, oks: seq<set<Provider>>, grants: seq<bool>)
    requires 1 <= attempt <= maxAttempts == |oks| == |grants|
    ensures var r := Generate(env, t, base, maxAttempts, provider, attempt, oks, grants);
            r.trace != [] && Unwind(r.trace) == r
    decreases maxAttempts - attempt
  {
    hide EntryOf, NextProvider;
    var e := EntryOf(env, t, provider, attempt, oks[attempt - 1]);
    var next := NextProvider(env, t, base, maxAttempts, provider, e);
    if next.Some? && grants[attempt - 1] {
      UnwindOfGenerate(env, t, base, maxAttempts, next.value, attempt + 1, oks, grants);
      var rest := Generate(env, t, base, maxAttempts, next.value, attempt + 1, oks, grants);
      assert ([e] + rest.trace)[1..] == rest.trace;
    }
  }

  lemma WorkerRefinesRecursion(env: Env, t: Traits, base: Provider, maxAttempts: nat, provider: Provider,
                               oks: seq<set<Provider>>, grants: seq<bool>)
    requires 1 <= maxAttempts == |oks| == |grants|
    ensures RunWorker(env, t, base, maxAttempts, Start(provider), oks, grants)
         == Generate(env, t, base, maxAttempts, provider, 1, oks, grants)
  {
    StepsMatchTheRecursion(env, t, base, maxAttempts, Start(provider), oks, grants);
    UnwindOfGenerate(env, t, base, maxAttempts, provider, 1, oks, grants);
    var r := Generate(env, t, base, maxAttempts, provider, 1, oks, grants);
    assert [] + r.trace == r.trace;
  }

  // A result the recursion can return, for some outcomes of the calls and replies
  // of the budget.
  ghost predicate Generated(env: Env, t: Traits, base: Provider, maxAttempts: nat, r: Result) {
    exists oks: seq<set<Provider>>, grants: seq<bool> ::
      1 <= maxAttempts == |oks| == |grants| && r == Generate(env, t, base, maxAttempts, base, 1, oks, grants)
  }

  // The calls so far met `met` and every request was granted: whatever comes next,
  // going on from w is going on from the start.
  ghost predicate LeadsTo(env: Env, t: Traits, base: Provider, maxAttempts: nat, w: Worker, met: seq<set<Provider>>) {
    w.Working? && |w.trace| == |met| < maxAttempts
    && forall oks: seq<set<Provider>>, grants: seq<bool> :: Extends(maxAttempts, met, oks, grants) ==>
         RunWorker(env, t, base, maxAttempts, Start(base), oks, grants)
           == RunWorker(env, t, base, maxAttempts, w, oks, grants)
  }

  ghost predicate Extends(maxAttempts: nat, met: seq<set<Provider>>, oks: seq<set<Provider>>, grants: seq<bool>) {
    |met| < maxAttempts == |oks| == |grants| && oks[..|met|] == met && forall k :: 0 <= k < |met| ==> grants[k]
  }

  ghost predicate Grown(env: Env, t: Traits, base: Provider, maxAttempts: nat, w: Worker) {
    exists met: seq<set<Provider>> :: LeadsTo(env, t, base, maxAttempts, w, met)
  }

  lemma StartIsGrown(env: Env, t: Traits, base: Provider, maxAttempts: nat)
    requires 1 <= maxAttempts
    ensures Grown(env, t, base, maxAttempts, Start(base))
  {
    assert LeadsTo(env, t, base, maxAttempts, Start(base), []);
  }

  // A worker's step continues its run, or ends it with a result of the recursion.
  lemma StepGrows(env: Env, t: Traits, base: Provider, maxAttempts: nat, w: Worker, ok: set<Provider>, granted: bool)
    requires Grown(env, t, base, maxAttempts, w)
    ensures w.Working?
    ensures var w' := Step(env, t, base, maxAttempts, w, ok, granted);
            if w'.Working? then granted && Grown(env, t, base, maxAttempts, w')
            else w'.Done? && Generated(env, t, base, maxAttempts, w'.result)
  {
    hide EntryOf, NextProvider, Unwind, Generate;
    var met :| LeadsTo(env, t, base, maxAttempts, w, met);
    var n := |met|;
    var w' := Step(env, t, base, maxAttempts, w, ok, granted);
    if w'.Working? {
      GoesOn(env, t, base, maxAttempts, w, met, ok);
    } else {
      var oks := met + [ok] + seq(maxAttempts - n - 1, _ => {});
      var grants := seq(n, _ => true) + [granted] + seq(maxAttempts - n - 1, _ => false);
      assert oks[..n] == met && oks[n] == ok && grants[n] == granted;
      assert Extends(maxAttempts, met, oks, grants);
      WorkerRefinesRecursion(env, t, base, maxAttempts, base, oks, grants);
    }
  }

  lemma GoesOn(env: Env, t: Traits, base: Provider, maxAttempts: nat, w: Worker, met: seq<set<Provider>>,
               ok: set<Provider>)
    requires LeadsTo(env, t, base, maxAttempts, w, met)
    requires Step(env, t, base, maxAttempts, w, ok, true).Working?
    ensures LeadsTo(env, t, base, maxAttempts, Step(env, t, base, maxAttempts, w, ok, true), met + [ok])
  {
    hide EntryOf, NextProvider, Unwind;
    var n, w' := |met|, Step(env, t, base, maxAttempts, w, ok, true);
    StepLeavesRoom(env, t, base, maxAttempts, w, ok);
    forall oks: seq<set<Provider>>, grants: seq<bool> | Extends(maxAttempts, met + [ok], oks, grants)
      ensures RunWorker(env, t, base, maxAttempts, Start(base), oks, grants)
              == RunWorker(env, t, base, maxAttempts, w', oks, grants)
    {
      assert oks[..n] == oks[..n + 1][..n] == met && oks[n] == oks[..n + 1][n] == ok;
      assert Extends(maxAttempts, met, oks, grants);
    }
  }

  lemma StepLeavesRoom(env: Env, t: Traits, base: Provider, maxAttempts: nat, w: Worker, ok: set<Provider>)
    requires w.Working? && Step(env, t, base, maxAttempts, w, ok, true).Working?
    ensures |w.trace| + 1 < maxAttempts
  {
  }

  // ---- the shared budget ------------------------------------------------

  // quality_retry_state; the body of Consume runs under its lock.
  class RetryBudget {
    var remaining: int
    var used: int

    constructor (configured: nat)
      ensures remaining == configured && used == 0
    {
      remaining, used := configured, 0;
    }

    method Consume() returns (granted: bool)
      modifies this
      ensures granted <==> old(remaining) > 0
      ensures remaining == old(remaining) - (if granted then 1 else 0)
      ensures used == old(used) + (if granted then 1 else 0)
    {
      if remaining <= 0 { return false; }
      remaining := remaining - 1;
      used := used + 1;
      return true;
    }
  }
}
