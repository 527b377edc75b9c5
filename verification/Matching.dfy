// Which scenes alignment keeps, which segment each of them is matched to, and when
// each starts and ends (scripts/analyze_lyrics.py, align_scenes_with_segments).
module Matching {
  import opened Common
  import opened Text
  import opened Alignment

  // A verse and a segment match when one is a piece of the other.
  lemma MatchesIff(verse: string, seg: Segment)
    ensures Matches(verse, seg) <==>
            seg.norm != "" && ((exists a, b :: verse == a + seg.norm + b) || exists a, b :: seg.norm == a + verse + b)
  {
    ContainsIff(verse, seg.norm);
    ContainsIff(seg.norm, verse);
    hide Contains;
  }

  ghost predicate Keeps(placed: seq<Placed>, i: nat) { exists k :: 0 <= k < |placed| && placed[k].scene == i }

  // The scenes that are kept are those whose verse is not empty.
  lemma {:induction false} KeptIff(verses: seq<string>, segs: seq<Segment>, n: nat, i: nat)
    requires segs != [] && i < n <= |verses|
    ensures Keeps(Place(verses, segs, n).placed, i) <==> verses[i] != ""
  {
    var before, after := Place(verses, segs, n - 1).placed, Place(verses, segs, n).placed;
    EarlierScenes(verses, segs, n - 1);
    if i < n - 1 { KeptIff(verses, segs, n - 1, i); }
    hide Place, FirstMatch;
    KeepsStep(before, after, n - 1, i);
  }

  lemma KeepsStep(before: seq<Placed>, after: seq<Placed>, n: nat, i: nat)
    requires i <= n && forall k :: 0 <= k < |before| ==> before[k].scene < n
    requires after == before || (|after| == |before| + 1 && after[..|before|] == before && after[|before|].scene == n)
    ensures i < n ==> (Keeps(after, i) <==> Keeps(before, i))
    ensures i == n ==> (Keeps(after, i) <==> after != before)
  {
    if after != before {
      assert forall k :: 0 <= k < |before| ==> after[k] == before[k] by {
        assert forall k :: 0 <= k < |before| ==> after[..|before|][k] == after[k];
      }
      assert i == n ==> after[|before|].scene == i;
    }
  }

  lemma {:induction false} EarlierScenes(verses: seq<string>, segs: seq<Segment>, n: nat)
    requires segs != [] && n <= |verses|
    ensures forall k :: 0 <= k < |Place(verses, segs, n).placed| ==> Place(verses, segs, n).placed[k].scene < n
  {
    if n > 0 { EarlierScenes(verses, segs, n - 1); }
  }

  // ---- the segment of each scene -----------------------------------------

  // Matching for kept scene k resumes at segment `next`: right after the last segment
  // matched before it, or at the first one.
  ghost predicate ResumesAt(placed: seq<Placed>, k: nat, next: nat)
    requires k <= |placed|
  {
    || (next == 0 && forall j :: 0 <= j < k ==> placed[j].seg.None?)
    || (next > 0 && exists j :: 0 <= j < k && placed[j].seg == Some(next - 1) && UnmatchedBetween(placed, j, k))
  }

  ghost predicate UnmatchedBetween(placed: seq<Placed>, j: int, k: nat)
    requires k <= |placed| && 0 <= j
  {
    forall i :: j < i < k ==> placed[i].seg.None?
  }

  function NextOf(placed: seq<Placed>, k: nat): nat
    requires k <= |placed|
  {
    if k == 0 then 0 else if placed[k - 1].seg.Some? then placed[k - 1].seg.value + 1 else NextOf(placed, k - 1)
  }

  lemma {:induction false} ResumesAtNext(placed: seq<Placed>, k: nat, next: nat)
    requires k <= |placed| && ResumesAt(placed, k, next)
    ensures next == NextOf(placed, k)
  {
    if k > 0 && placed[k - 1].seg.None? {
      assert ResumesAt(placed, k - 1, next) by {
        if next > 0 {
          var j :| 0 <= j < k && placed[j].seg == Some(next - 1) && UnmatchedBetween(placed, j, k);
          assert UnmatchedBetween(placed, j, k - 1);
        }
      }
      ResumesAtNext(placed, k - 1, next);
    }
  }

  lemma {:induction false} NextOfPrefix(placed: seq<Placed>, more: seq<Placed>, k: nat)
    requires k <= |placed|
    ensures NextOf(placed + more, k) == NextOf(placed, k)
  {
    if k > 0 { NextOfPrefix(placed, more, k - 1); }
  }

  ghost predicate ChosenAt(verses: seq<string>, segs: seq<Segment>, placed: seq<Placed>, k: nat)
    requires k < |placed|
  {
    && placed[k].scene < |verses| && NextOf(placed, k) <= |segs|
    && placed[k].seg == FirstMatch(verses[placed[k].scene], segs, NextOf(placed, k), WindowEnd(segs, NextOf(placed, k)))
  }

  lemma {:induction false} AllChosen(verses: seq<string>, segs: seq<Segment>, n: nat)
    requires segs != [] && n <= |verses|
    ensures var c := Place(verses, segs, n);
            && c.next == NextOf(c.placed, |c.placed|) <= |segs|
            && forall k :: 0 <= k < |c.placed| ==> ChosenAt(verses, segs, c.placed, k)
  {
    if n > 0 {
      AllChosen(verses, segs, n - 1);
      if verses[n - 1] != "" { ChosenStep(verses, segs, n, Place(verses, segs, n - 1)); }
    }
  }

  lemma ChosenStep(verses: seq<string>, segs: seq<Segment>, n: nat, before: Cursor)
    requires segs != [] && 0 < n <= |verses| && verses[n - 1] != ""
    requires before.next == NextOf(before.placed, |before.placed|) <= |segs|
    requires forall k :: 0 <= k < |before.placed| ==> ChosenAt(verses, segs, before.placed, k)
    ensures var c := PlaceNext(verses[n - 1], segs, n - 1, before);
            && c.next == NextOf(c.placed, |c.placed|) <= |segs|
            && forall k :: 0 <= k < |c.placed| ==> ChosenAt(verses, segs, c.placed, k)
  {
    var c := PlaceNext(verses[n - 1], segs, n - 1, before);
    var p := c.placed[|before.placed|];
    assert c.placed == before.placed + [p];
    NextOfPrefix(before.placed, [p], |before.placed|);
    forall k | 0 <= k < |before.placed|
      ensures ChosenAt(verses, segs, c.placed, k)
    {
      assert ChosenAt(verses, segs, before.placed, k);
      NextOfPrefix(before.placed, [p], k);
    }
    hide Matches, WindowEnd, FirstMatch;
    assert ChosenAt(verses, segs, c.placed, |before.placed|);
  }

  // A kept scene is matched to segment m exactly when m is the first of the 25
  // segments from the one matching resumes at that matches its verse; it stays
  // unmatched exactly when none of them does.
  lemma MatchedIff(verses: seq<string>, segs: seq<Segment>, k: nat, next: nat, m: nat)
    requires segs != [] && k < |Place(verses, segs, |verses|).placed|
    requires ResumesAt(Place(verses, segs, |verses|).placed, k, next)
    ensures var p := Place(verses, segs, |verses|).placed[k];
            && p.scene < |verses|
            && (p.seg == Some(m) <==>
                && next <= m < next + 25 && m < |segs| && Matches(verses[p.scene], segs[m])
                && forall j :: next <= j < m ==> !Matches(verses[p.scene], segs[j]))
            && (p.seg == None <==>
                forall j :: next <= j < next + 25 && j < |segs| ==> !Matches(verses[p.scene], segs[j]))
  {
    var placed := Place(verses, segs, |verses|).placed;
    AllChosen(verses, segs, |verses|);
    ResumesAtNext(placed, k, next);
    assert ChosenAt(verses, segs, placed, k);
    hide Matches, Place, ResumesAt, NextOf;
    var verse := verses[placed[k].scene];
    var found := FirstMatch(verse, segs, next, WindowEnd(segs, next));
    assert found.Some? ==> Matches(verse, segs[found.value]);
  }

  // ---- the times of each scene -------------------------------------------

  // Where the first pass puts kept scene k: at its segment, or at the end of the run
  // of unmatched scenes before it, five seconds each.
  function PlacedStart(placed: seq<Placed>, segs: seq<Segment>, k: nat): real
    requires k < |placed| && PlacedRight(placed, segs)
  {
    assert PlacedAt(placed, segs, k);
    match placed[k].seg
    case Some(m) => segs[m].start
    case None => RunOrigin(placed, segs, k) + 5.0 * (UnmatchedRun(placed, k) - 1) as real
  }

  // Every scene starts where the first pass put it, except that a first scene more
  // than two seconds late starts with the first segment.  It ends where the next one
  // starts; the last one lasts five seconds, or up to the end of the last segment.
  lemma AlignedTimes(verses: seq<string>, segs: seq<Segment>, k: nat)
    requires segs != [] && k < |Place(verses, segs, |verses|).placed|
    ensures var placed := Place(verses, segs, |verses|).placed;
            && CursorOk(verses, segs, Place(verses, segs, |verses|), |verses|)
            && var first, start := segs[0].start, PlacedStart(placed, segs, k);
               var span := Spans(placed, segs)[k];
               && span.start == (if k == 0 && start > first + 2.0 then first else start)
               && (k + 1 < |placed| ==> span.end == Spans(placed, segs)[k + 1].start)
               && (k + 1 == |placed| ==> span.end >= span.start + 5.0 && span.end >= segs[|segs| - 1].end
                                         && (span.end == span.start + 5.0 || span.end == segs[|segs| - 1].end))
  {
    PlacementKeepsOrder(verses, segs, |verses|);
    var placed := Place(verses, segs, |verses|).placed;
    assert PlacedAt(placed, segs, k);
    if placed[k].seg.None? { UnmatchedStart(placed, segs, k); }
    hide Place, PlacedRight, CursorOk;
  }
}
