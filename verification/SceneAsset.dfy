// One image worker: provider selection, ComfyUI failover and the quality-retry
// recursion (scripts/generate_images.py, generate_scene_asset).
module SceneAsset {
  import opened Common
  import opened Providers
  import opened QualityScore

  // Environment switches the worker reads; `minScore` is in hundredths.
  datatype Env = Env(smartRouting: bool, geminiKey: bool, allowGeminiRetry: bool, earlyFailover: bool,
                     failover: seq<Provider>, retryEnabled: bool, minScore: real)

  // One entry of generationTrace.  `strict` says that the attempt's routing reason
  // names a strict trait; `score` is in hundredths.
  datatype Entry = Entry(attempt: nat, provider: Provider, error: bool, strict: bool, score: int)

  datatype Result = Result(provider: Provider, error: bool, strict: bool, score: int, trace: seq<Entry>,
                           retryCount: nat)

  // ---- one attempt ------------------------------------------------------
  // `ok` is the set of providers whose call succeeds during this attempt.

  // should_route_to_gemini: a strict scene on a routable base provider.
  predicate Routed(env: Env, t: Traits, p: Provider) {
    && (p == Comfyui || p == Pollinations || p == Replicate)
    && env.smartRouting && env.geminiKey
    && (t.textHeavy || t.crowd || t.action || t.multiPerson)
  }

  function Selected(env: Env, p: Provider): Provider {
    if env.earlyFailover && p == Gemini then Pollinations else p
  }

  // The routing block.  The assignment that would send a routed scene to Gemini
  // is guarded by selected != provider, which a routed scene never satisfies, so it
  // never selects Gemini.  What routing changes is the score and the retry.
  method SelectProvider(env: Env, t: Traits, provider: Provider) returns (selected: Provider)
    ensures selected == Selected(env, provider)
    ensures selected == Gemini <==> provider == Gemini && !env.earlyFailover
  {
    selected := provider;
    var shouldUseGemini := Routed(env, t, provider);
    if env.earlyFailover {
      shouldUseGemini := false;
      if provider == Gemini { selected := Pollinations; }
    }
    if provider != Gemini && shouldUseGemini {
      if selected != provider { selected := Gemini; }
    }
  }

  predicate FailoverCandidate(env: Env, p: Provider) {
    p != Comfyui && !(env.earlyFailover && p == Gemini)
  }

  // The first usable candidate that succeeds; the placeholder otherwise.
  function FailoverTarget(env: Env, configured: seq<Provider>, ok: set<Provider>): Provider {
    if configured == [] then Mock
    else if FailoverCandidate(env, configured[0]) && configured[0] in ok then configured[0]
    else FailoverTarget(env, configured[1..], ok)
  }

  // Provider and error flag of one attempt.
  function Attempt(env: Env, provider: Provider, ok: set<Provider>): (Provider, bool) {
    if Selected(env, provider) in ok then (Selected(env, provider), false)
    else if provider == Comfyui then (FailoverTarget(env, env.failover, ok), true)
    else (Mock, true)
  }

  lemma {:induction false} FailoverTargetSkips(env: Env, configured: seq<Provider>, ok: set<Provider>, k: nat)
    requires k <= |configured|
    requires forall j :: 0 <= j < k ==> !(FailoverCandidate(env, configured[j]) && configured[j] in ok)
    ensures FailoverTarget(env, configured, ok) == FailoverTarget(env, configured[k..], ok)
  {
    if k > 0 {
      FailoverTargetSkips(env, configured[1..], ok, k - 1);
      assert configured[1..][k - 1..] == configured[k..];
    }
  }

  // Builds failover_chain: allowed names, never ComfyUI, each once, and Mock at the
  // end unless it was configured further up.
  method BuildFailoverChain(env: Env) returns (chain: seq<Provider>)
    ensures forall q :: q in chain <==> q == Mock || (q in env.failover && FailoverCandidate(env, q))
    ensures Mock !in env.failover ==> chain[|chain| - 1] == Mock
    ensures forall i, j :: 0 <= i < j < |chain| ==> chain[i] != chain[j]
    ensures forall k :: 0 <= k < |chain| ==> FailoverCandidate(env, chain[k])
    ensures forall ok :: FailoverTarget(env, chain, ok) == FailoverTarget(env, env.failover, ok)
  {
    hide FailoverTarget;
    var names := env.failover;
    assert SameTarget(env, names, names) && Usable(env, [], []);
    hide *;
    chain := [];
    Slices(names);
    for k := 0 to |names|
      invariant Usable(env, names[..k], chain)
      invariant SameTarget(env, chain + names[k..], names)
    {
      var candidate := names[k];
      Around(names, k, chain);
      UsableStep(env, names[..k], chain, candidate);
      if FailoverCandidate(env, candidate) && candidate !in chain {
        chain := chain + [candidate];
      } else {
        DropCandidate(env, chain, candidate, names[k + 1..]);
      }
    }
    Ends(names, chain);
    UsableEnd(env, names, chain);
    if Mock !in chain {
      AddMock(env, chain);
      chain := chain + [Mock];
    }
    SameTargetIs(env, chain);
  }

  lemma Slices(names: seq<Provider>)
    ensures names[..0] == [] && [] + names[0..] == names
  {
  }

  lemma Around(names: seq<Provider>, k: nat, chain: seq<Provider>)
    requires k < |names|
    ensures names[..k + 1] == names[..k] + [names[k]]
    ensures chain + names[k..] == chain + ([names[k]] + names[k + 1..])
    ensures (chain + [names[k]]) + names[k + 1..] == chain + names[k..]
  {
    assert names[k..] == [names[k]] + names[k + 1..];
  }

  lemma Ends(names: seq<Provider>, chain: seq<Provider>)
    ensures chain + names[|names|..] == chain && names[..|names|] == names
  {
  }

  // The chain has the usable names of the list, each once.
  ghost predicate Usable(env: Env, names: seq<Provider>, chain: seq<Provider>) {
    && (forall i, j :: 0 <= i < j < |chain| ==> chain[i] != chain[j])
    && (forall q :: q in chain <==> q in names && FailoverCandidate(env, q))
  }

  lemma UsableStep(env: Env, names: seq<Provider>, chain: seq<Provider>, c: Provider)
    requires Usable(env, names, chain)
    ensures Usable(env, names + [c], if FailoverCandidate(env, c) && c !in chain then chain + [c] else chain)
  {
    hide FailoverCandidate;
  }

  lemma UsableEnd(env: Env, names: seq<Provider>, chain: seq<Provider>)
    requires Usable(env, names, chain)
    ensures var whole := if Mock in chain then chain else chain + [Mock];
            && (forall q :: q in whole <==> q == Mock || (q in names && FailoverCandidate(env, q)))
            && (forall i, j :: 0 <= i < j < |whole| ==> whole[i] != whole[j])
            && (forall k :: 0 <= k < |whole| ==> FailoverCandidate(env, whole[k]))
            && (Mock !in names ==> whole[|whole| - 1] == Mock)
  {
    assert FailoverCandidate(env, Mock);
  }

  // Both lists find the same provider, whichever providers answer.
  ghost predicate SameTarget(env: Env, xs: seq<Provider>, ys: seq<Provider>) {
    forall ok :: FailoverTarget(env, xs, ok) == FailoverTarget(env, ys, ok)
  }

  lemma SameTargetIs(env: Env, chain: seq<Provider>)
    requires SameTarget(env, chain, env.failover)
    ensures forall ok :: FailoverTarget(env, chain, ok) == FailoverTarget(env, env.failover, ok)
  {
  }

  lemma DropCandidate(env: Env, chain: seq<Provider>, c: Provider, rest: seq<Provider>)
    requires !FailoverCandidate(env, c) || c in chain
    ensures forall ys :: SameTarget(env, chain + ([c] + rest), ys) ==> SameTarget(env, chain + rest, ys)
  {
    forall ok
      ensures FailoverTarget(env, chain + rest, ok) == FailoverTarget(env, chain + ([c] + rest), ok)
    {
      DropUseless(env, chain, c, rest, ok);
    }
  }

  lemma AddMock(env: Env, chain: seq<Provider>)
    ensures forall ys :: SameTarget(env, chain, ys) ==> SameTarget(env, chain + [Mock], ys)
  {
    forall ok
      ensures FailoverTarget(env, chain + [Mock], ok) == FailoverTarget(env, chain, ok)
    {
      AppendMock(env, chain, ok);
    }
  }

  // A candidate that is not usable, or already earlier in the chain, decides nothing.
  lemma {:induction false} DropUseless(env: Env, chain: seq<Provider>, c: Provider, rest: seq<Provider>,
                                       ok: set<Provider>)
    requires !FailoverCandidate(env, c) || c in chain
    ensures FailoverTarget(env, chain + rest, ok) == FailoverTarget(env, chain + ([c] + rest), ok)
  {
    if chain == [] {
      assert [] + rest == rest && [] + ([c] + rest) == [c] + rest && ([c] + rest)[1..] == rest;
    } else {
      assert (chain + rest)[1..] == chain[1..] + rest;
      assert (chain + ([c] + rest))[1..] == chain[1..] + ([c] + rest);
      if FailoverCandidate(env, c) && c == chain[0] && c !in ok {
        FailedCandidate(env, chain[1..], c, rest, ok);
      } else if !(FailoverCandidate(env, chain[0]) && chain[0] in ok) {
        if FailoverCandidate(env, c) && c == chain[0] { assert false; }
        DropUseless(env, chain[1..], c, rest, ok);
      }
    }
  }

  lemma {:induction false} FailedCandidate(env: Env, chain: seq<Provider>, c: Provider, rest: seq<Provider>,
                                           ok: set<Provider>)
    requires c !in ok
    ensures FailoverTarget(env, chain + rest, ok) == FailoverTarget(env, chain + ([c] + rest), ok)
  {
    if chain == [] {
      assert [] + rest == rest && [] + ([c] + rest) == [c] + rest && ([c] + rest)[1..] == rest;
    } else {
      assert (chain + rest)[1..] == chain[1..] + rest;
      assert (chain + ([c] + rest))[1..] == chain[1..] + ([c] + rest);
      FailedCandidate(env, chain[1..], c, rest, ok);
    }
  }

  lemma {:induction false} AppendMock(env: Env, chain: seq<Provider>, ok: set<Provider>)
    ensures FailoverTarget(env, chain + [Mock], ok) == FailoverTarget(env, chain, ok)
  {
    if chain != [] {
      assert (chain + [Mock])[1..] == chain[1..] + [Mock];
      AppendMock(env, chain[1..], ok);
    }
  }

  // The try/except block: one call, then the failover loop, then the placeholder.
  method GenerateOnce(env: Env, t: Traits, provider: Provider, ok: set<Provider>)
      returns (actual: Provider, error: bool)
    ensures (actual, error) == Attempt(env, provider, ok)
  {
    actual, error := provider, false;
    var selected := SelectProvider(env, t, provider);
    if selected in ok {
      if selected == Gemini {
        actual := Gemini;
      } else if selected != Comfyui {
        actual := selected;
      }
      return;
    }
    error := true;
    var comfyFailed := provider == Comfyui || selected == Comfyui || actual == Comfyui;
    var recovered := false;
    if comfyFailed {
      var chain := BuildFailoverChain(env);
      var k := 0;
      while k < |chain| && !recovered
        invariant 0 <= k <= |chain|
        invariant recovered ==> actual == FailoverTarget(env, chain, ok)
        invariant !recovered ==> forall j :: 0 <= j < k ==> !(FailoverCandidate(env, chain[j]) && chain[j] in ok)
      {
        if chain[k] in ok {
          FailoverTargetSkips(env, chain, ok, k);
          actual, recovered := chain[k], true;
        }
        k := k + 1;
      }
      if !recovered { FailoverTargetSkips(env, chain, ok, |chain|); }
    }
    if !recovered { actual := Mock; }
  }

  // A ComfyUI result never carries a generation error.
  lemma {:induction false} FailoverIsNeverComfy(env: Env, configured: seq<Provider>, ok: set<Provider>)
    ensures FailoverTarget(env, configured, ok) != Comfyui
  {
    if configured != [] { FailoverIsNeverComfy(env, configured[1..], ok); }
  }

  lemma ComfyHasNoError(env: Env, provider: Provider, ok: set<Provider>)
    ensures Attempt(env, provider, ok).0 == Comfyui ==> !Attempt(env, provider, ok).1
  {
    FailoverIsNeverComfy(env, env.failover, ok);
  }

  // A failover provider that may be asked and answers.
  predicate Answers(env: Env, p: Provider, ok: set<Provider>) {
    p in ok && p != Comfyui && !(env.earlyFailover && p == Gemini)
  }

  // p is the first of the list that answers, or the placeholder when none does.
  ghost predicate FirstAnswer(env: Env, configured: seq<Provider>, ok: set<Provider>, p: Provider) {
    || (exists k :: 0 <= k < |configured| && configured[k] == p && Answers(env, p, ok)
                    && forall j :: 0 <= j < k ==> !Answers(env, configured[j], ok))
    || (p == Mock && forall j :: 0 <= j < |configured| ==> !Answers(env, configured[j], ok))
  }

  lemma {:induction false} TargetIsFirstAnswer(env: Env, configured: seq<Provider>, ok: set<Provider>)
    ensures FirstAnswer(env, configured, ok, FailoverTarget(env, configured, ok))
  {
    if configured != [] && !Answers(env, configured[0], ok) {
      var rest, p := configured[1..], FailoverTarget(env, configured, ok);
      TargetIsFirstAnswer(env, rest, ok);
      assert forall j :: 0 < j < |configured| ==> configured[j] == rest[j - 1];
      if k :| 0 <= k < |rest| && rest[k] == p && Answers(env, p, ok) && forall j :: 0 <= j < k ==>
        !Answers(env, rest[j], ok) {
        assert configured[k + 1] == p;
      }
    }
  }

  // What one attempt leaves: an error exactly when the provider that is asked does not
  // answer; then the placeholder, or for ComfyUI the first failover that answers.
  lemma AttemptOutcome(env: Env, provider: Provider, ok: set<Provider>)
    ensures var (p, error) := Attempt(env, provider, ok);
            var asked := if env.earlyFailover && provider == Gemini then Pollinations else provider;
            && (error <==> asked !in ok)
            && (!error ==> p == asked)
            && (error && provider != Comfyui ==> p == Mock)
            && (error && provider == Comfyui ==> FirstAnswer(env, env.failover, ok, p))
  {
    TargetIsFirstAnswer(env, env.failover, ok);
    hide FirstAnswer;
  }
}
