// The test that tells a real verse from a hook.  The renderer and the result page
// each carry their own copy (scripts/render_video.py, client/src/components/ResultScreen.tsx).
module Verses {
  import opened Text
  import opened Common

  const HOOKS := ["whoa", "yeah", "oh", "la", "na", "da", "ooh", "ahh", "uuu", "mmm", "hey", "uh",
                  "one", "two", "three", "four", "five", "six", "seven", "eight", "nine", "ten"]

  predicate IsHook(word: string) { exists h :: 0 <= h < |HOOKS| && Contains(word, HOOKS[h]) }

  function HookCount(words: seq<string>): nat {
    if words == [] then 0 else HookCount(words[..|words| - 1]) + if IsHook(words[|words| - 1]) then 1 else 0
  }

  // `words` are the lower-case words of a verse; at least four, at most half of
  // them hooks.
  predicate RealVerse(words: seq<string>) { |words| >= 4 && 2 * HookCount(words) <= |words| }

  // A scene as both sides read it.
  datatype Scene = Scene(words: seq<string>, start: Option<real>, duration: Option<real>)

  function StartTime(s: Scene): real { if s.start.Some? then s.start.value else 0.0 }

  ghost predicate NoRealVerse(scenes: seq<Scene>, n: nat)
    requires n <= |scenes|
  {
    forall k :: 0 <= k < n ==> !RealVerse(scenes[k].words)
  }

  ghost predicate FirstReal(scenes: seq<Scene>, n: nat) {
    n < |scenes| && RealVerse(scenes[n].words) && NoRealVerse(scenes, n)
  }

  // A verse is real exactly when it has four words or more, and at most half of its
  // words contain a hook.
  lemma RealVerseIff(words: seq<string>)
    ensures RealVerse(words) <==>
            |words| >= 4 && 2 * |set i: nat | i < |words| && HasHook(words[i])| <= |words|
  {
    HooksAreCounted(words);
  }

  // One of the hooks occurs in the word; "la" and "na" make most of the others.
  predicate HasHook(word: string) {
    || Contains(word, "whoa") || Contains(word, "yeah") || Contains(word, "oh") || Contains(word, "la")
    || Contains(word, "na") || Contains(word, "da") || Contains(word, "ooh") || Contains(word, "ahh")
    || Contains(word, "uuu") || Contains(word, "mmm") || Contains(word, "hey") || Contains(word, "uh")
    || Contains(word, "one") || Contains(word, "two") || Contains(word, "three") || Contains(word, "four")
    || Contains(word, "five") || Contains(word, "six") || Contains(word, "seven") || Contains(word, "eight")
    || Contains(word, "nine") || Contains(word, "ten")
  }

  lemma HookIff(word: string)
    ensures IsHook(word) <==> HasHook(word)
  {
    hide Contains;
    assert forall h :: 0 <= h < |HOOKS| && Contains(word, HOOKS[h]) ==> IsHook(word);
    assert HOOKS[0] == "whoa" && HOOKS[1] == "yeah" && HOOKS[2] == "oh" && HOOKS[3] == "la" && HOOKS[4] == "na";
    assert HOOKS[5] == "da" && HOOKS[6] == "ooh" && HOOKS[7] == "ahh" && HOOKS[8] == "uuu" && HOOKS[9] == "mmm";
    assert HOOKS[10] == "hey" && HOOKS[11] == "uh" && HOOKS[12] == "one" && HOOKS[13] == "two";
    assert HOOKS[14] == "three" && HOOKS[15] == "four" && HOOKS[16] == "five" && HOOKS[17] == "six";
    assert HOOKS[18] == "seven" && HOOKS[19] == "eight" && HOOKS[20] == "nine" && HOOKS[21] == "ten";
  }

  lemma {:induction false} HooksAreCounted(words: seq<string>)
    ensures HookCount(words) == |set i: nat | i < |words| && HasHook(words[i])|
  {
    hide HasHook, IsHook;
    var hooks := set i: nat | i < |words| && HasHook(words[i]);
    if words != [] {
      var n := |words| - 1;
      HooksAreCounted(words[..n]);
      HookIff(words[n]);
      var before := set i: nat | i < n && HasHook(words[..n][i]);
      assert hooks == before + if HasHook(words[n]) then {n} else {};
    } else {
      assert hooks == {};
    }
  }
}
