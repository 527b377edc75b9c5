// The result page's copy of the render timeline, and the search that follows the
// video (client/src/components/ResultScreen.tsx).
module ResultPage {
  import opened Common
  import opened Verses
  import R = Renderer
  import S = Sanitising
  import Rounding

  // A generated image as the page reads it; `statusKnown` says that the status is a
  // string.
  datatype Image = Image(refused: bool, statusKnown: bool, success: bool, url: Option<string>)

  datatype Marker = Marker(slot: nat, timestamp: real, duration: real, thumbnail: string)

  function Total(scenes: seq<Scene>, images: seq<Image>): nat { Max(|scenes|, |images|) }

  // A missing or non-positive duration counts as five seconds.
  function DurationOf(scenes: seq<Scene>, i: nat): (d: real)
    ensures d > 0.0
  {
    if i < |scenes| && scenes[i].duration.Some? && scenes[i].duration.value > 0.0 then scenes[i].duration.value else 5.0
  }

  // Uncapped timestamp of scene i.
  function Timestamp(scenes: seq<Scene>, i: nat): real
    requires R.FirstVerse(scenes) <= i
  {
    if i == R.FirstVerse(scenes) then R.Intro(scenes) else Timestamp(scenes, i - 1) + DurationOf(scenes, i - 1)
  }

  function SeekLimit(duration: real): real { if duration - 0.1 >= 0.0 then duration - 0.1 else 0.0 }

  // Timestamps never pass the end of a video of known length.
  function Capped(t: real, videoDuration: real): real {
    if videoDuration > 0.0 && t > SeekLimit(videoDuration) then SeekLimit(videoDuration) else t
  }

  // The page's own search for the intro; same value as the renderer's.
  method IntroDuration(scenes: seq<Scene>) returns (intro: real, firstRealVerse: nat)
    ensures intro == R.Intro(scenes) && firstRealVerse == R.FirstVerse(scenes)
  {
    firstRealVerse := 0;
    var start: Option<real> := None;
    for idx := 0 to |scenes|
      invariant firstRealVerse == 0 && start.None? && NoRealVerse(scenes, idx)
    {
      if RealVerse(scenes[idx].words) {
        firstRealVerse := idx;
        start := Some(StartTime(scenes[idx]));
        R.FirstRealIsUnique(scenes, idx);
        break;
      }
    }
    intro := 5.0;
    if |scenes| > 0 {
      if start.Some? && start.value > 0.0 {
        intro := start.value;
      } else {
        var first := StartTime(scenes[0]);
        intro := if first > 0.0 then first else 10.0;
      }
    }
  }

  predicate Exposed(images: seq<Image>, k: int) {
    0 <= k < |images| && !images[k].refused && images[k].success && images[k].url.Some?
  }

  method HasExposed(images: seq<Image>, first: nat) returns (found: bool)
    ensures found <==> exists k :: first <= k && Exposed(images, k)
  {
    found := false;
    var idx := first;
    while idx < |images|
      invariant forall k :: first <= k < idx ==> !Exposed(images, k)
    {
      if !images[idx].refused && images[idx].success && images[idx].url.Some? {
        assert Exposed(images, idx);
        return true;
      }
      idx := idx + 1;
    }
  }

  // Scene i shows its own image.
  predicate ShowsOwn(images: seq<Image>, allow: bool, i: nat) {
    i < |images| && images[i].url.Some? && !(images[i].refused && !allow)
  }

  // The thumbnail of scene i: its own image, else the last one before it.
  function ThumbnailOf(images: seq<Image>, allow: bool, first: nat, i: nat): Option<string>
    requires first <= i
    decreases i
  {
    if ShowsOwn(images, allow, i) then images[i].url
    else if i == first then None
    else ThumbnailOf(images, allow, first, i - 1)
  }

  // The markers of the scenes from `first` up to n.
  function Markers(scenes: seq<Scene>, images: seq<Image>, allow: bool, videoDuration: real, n: nat): seq<Marker>
    requires R.FirstVerse(scenes) <= n
  {
    var first := R.FirstVerse(scenes);
    if n == first then []
    else
      var before := Markers(scenes, images, allow, videoDuration, n - 1);
      var thumbnail := ThumbnailOf(images, allow, first, n - 1);
      if thumbnail.None? then before
      else
        var timestamp := Capped(Timestamp(scenes, n - 1), videoDuration);
        before + [Marker(n - 1, timestamp, DurationOf(scenes, n - 1), thumbnail.value)]
  }

  // The scenes memo.
  method TimelineScenes(scenes: seq<Scene>, images: seq<Image>, videoDuration: real)
      returns (timeline: seq<Marker>, allow: bool)
    ensures var first := R.FirstVerse(scenes);
            && (allow <==> !exists k :: first <= k < |images| && !images[k].refused && images[k].success
                                        && images[k].url.Some?)
            && timeline == Markers(scenes, images, allow, videoDuration, Total(scenes, images))
  {
    var intro, first := IntroDuration(scenes);
    var exposed := HasExposed(images, first);
    assert forall k :: first <= k ==>
             (Exposed(images, k) <==>
              k < |images| && !images[k].refused && images[k].success && images[k].url.Some?);
    allow := !exposed;
    var running := intro;
    var lastValid: Option<string> := None;
    timeline := [];
    for idx := first to Total(scenes, images)
      invariant running == Timestamp(scenes, idx)
      invariant lastValid == if idx == first then None else ThumbnailOf(images, allow, first, idx - 1)
      invariant timeline == Markers(scenes, images, allow, videoDuration, idx)
    {
      var duration := if idx < |scenes| && scenes[idx].duration.Some? then scenes[idx].duration.value else 5.0;
      if !(duration > 0.0) { duration := 5.0; }
      var canUse := true;
      if idx < |images| {
        if images[idx].refused && !allow {
          canUse := false;
        } else if images[idx].statusKnown && !images[idx].success && images[idx].url.None? {
          canUse := false;
        }
      }
      var thumbnail: Option<string> := None;
      if canUse && idx < |images| && images[idx].url.Some? {
        thumbnail := images[idx].url;
        lastValid := thumbnail;
      } else if lastValid.Some? {
        thumbnail := lastValid;
      }
      if thumbnail.Some? {
        timeline := timeline + [Marker(idx, Capped(running, videoDuration), duration, thumbnail.value)];
      }
      running := running + duration;
    }
  }

  // ---- agreement with the renderer ---------------------------------------

  // Every given duration of the scenes from `first` up to i is positive.
  ghost predicate Positive(scenes: seq<Scene>, first: nat, i: nat) {
    forall j :: first <= j < i && j < |scenes| && scenes[j].duration.Some? ==> scenes[j].duration.value > 0.0
  }

  lemma {:induction false} TimestampAgainstDurations(p: R.Project, i: nat)
    requires R.FirstVerse(p.scenes) <= i
    ensures var first := R.FirstVerse(p.scenes);
            && Timestamp(p.scenes, i) >= R.Intro(p.scenes) + R.Durations(p, first, i)
            && (Timestamp(p.scenes, i) == R.Intro(p.scenes) + R.Durations(p, first, i) <==>
               Positive(p.scenes, first, i))
  {
    hide R.FirstVerse, R.Intro;
    var first := R.FirstVerse(p.scenes);
    if i > first {
      TimestampAgainstDurations(p, i - 1);
      PositiveStep(p.scenes, first, i);
    }
  }

  lemma PositiveStep(scenes: seq<Scene>, first: nat, i: nat)
    requires first < i
    ensures Positive(scenes, first, i) <==>
            Positive(scenes, first, i - 1)
              && (i - 1 < |scenes| && scenes[i - 1].duration.Some? ==> scenes[i - 1].duration.value > 0.0)
  {
  }

  // With a thumbnail frame, the page's timestamp of a scene is the start of the
  // renderer's slot for it exactly when the scenes before it have positive
  // durations; otherwise the page is late.
  lemma TimestampIsSlotStartIff(p: R.Project, i: nat)
    requires R.Head(p) != [] && R.FirstVerse(p.scenes) <= i <= R.Total(p)
    ensures var first := R.FirstVerse(p.scenes);
            var start := R.SlotStart(R.ThumbnailSlots(p), i - first + 1);
            && Timestamp(p.scenes, i) >= start
            && (Timestamp(p.scenes, i) == start <==> Positive(p.scenes, first, i))
  {
    hide R.Head, R.ThumbnailSlots, R.SlotStart, R.FirstVerse, R.Intro, Positive;
    R.SlotOfScene(p, i);
    TimestampAgainstDurations(p, i);
  }

  // A scene of no duration: the renderer starts the next one at 3 s, the page at 8 s.
  const NO_DURATION := R.Project([Scene([], Some(3.0), Some(0.0)), Scene([], None, Some(4.0))],
                                 [], [], {}, Some(R.Written), [R.Failed, R.Failed], true, 0.4)

  lemma LatePageExample()
    ensures R.FirstVerse(NO_DURATION.scenes) == 0 && R.Head(NO_DURATION) != [] && R.Total(NO_DURATION) == 2
    ensures R.SlotStart(R.ThumbnailSlots(NO_DURATION), 2) == 3.0 && Timestamp(NO_DURATION.scenes, 1) == 8.0
  {
    var p := NO_DURATION;
    assert R.Intro(p.scenes) == 3.0;
    R.SlotOfScene(p, 1);
    assert R.Durations(p, 0, 1) == R.Durations(p, 0, 0) + R.DurationOf(p, 0);
    assert Timestamp(p.scenes, 1) == Timestamp(p.scenes, 0) + DurationOf(p.scenes, 0);
  }

  // The project's scenes carry the times of a sanitised list.
  ghost predicate TimedBy(scenes: seq<Scene>, cs: seq<S.Clean>) {
    |scenes| == |cs|
    && forall k :: 0 <= k < |cs| ==> scenes[k].start == Some(cs[k].start) && scenes[k].duration == Some(cs[k].duration)
  }

  // For sanitised scenes the page and the renderer agree on scene i exactly when
  // every post-verse scene before it lasted more than half a millisecond.
  lemma SanitisedTimesAgreeIff(p: R.Project, raws: seq<S.Raw>, src: S.Source, i: nat)
    requires R.Head(p) != [] && R.FirstVerse(p.scenes) <= i <= R.Total(p)
    requires TimedBy(p.scenes, S.Sanitise(raws, src))
    ensures var first := R.FirstVerse(p.scenes);
            Timestamp(p.scenes, i) == R.SlotStart(R.ThumbnailSlots(p), i - first + 1) <==>
            forall k :: first <= k < i && k < |p.scenes| ==> S.LengthOf(raws, src, k) > 0.0005
  {
    hide R.Head, R.ThumbnailSlots, R.SlotStart, R.FirstVerse, R.Intro, S.Sanitise, S.LengthOf, Rounding.Round3,
      Timestamp;
    TimestampIsSlotStartIff(p, i);
    forall k | 0 <= k < |p.scenes|
      ensures p.scenes[k].duration.Some? && (p.scenes[k].duration.value > 0.0 <==> S.LengthOf(raws, src, k) > 0.0005)
    {
      S.DurationIsRoundedLength(raws, src, k);
      Rounding.Round3Positive(S.LengthOf(raws, src, k));
    }
  }

  // ---- following and seeking ---------------------------------------------

  // handleTimeUpdate: the last marker whose timestamp has passed.
  function Select(timeline: seq<Marker>, time: real): (selected: Option<nat>)
    ensures selected.Some? ==> selected.value < |timeline|
  {
    if timeline == [] then None
    else if time >= timeline[|timeline| - 1].timestamp then Some(|timeline| - 1)
    else Select(timeline[..|timeline| - 1], time)
  }

  // jumpToScene: the player's own duration, when it knows one, bounds the seek.
  function SeekTime(m: Marker, playerDuration: real, videoDuration: real): real {
    var total := if playerDuration != 0.0 then playerDuration else videoDuration;
    if total > 0.0 then Capped(if m.timestamp < 0.0 then 0.0 else m.timestamp, total) else m.timestamp
  }

  lemma {:induction false} SelectIs(timeline: seq<Marker>, time: real, k: nat)
    requires k < |timeline| && time >= timeline[k].timestamp
    requires forall j :: k < j < |timeline| ==> timeline[j].timestamp > time
    ensures Select(timeline, time) == Some(k)
  {
    if k < |timeline| - 1 { SelectIs(timeline[..|timeline| - 1], time, k); }
  }

  lemma {:induction false} SelectIsLate(timeline: seq<Marker>, time: real, k: nat, j: nat)
    requires k < j < |timeline| && time >= timeline[j].timestamp
    ensures Select(timeline, time) != Some(k)
  {
    if time < timeline[|timeline| - 1].timestamp { SelectIsLate(timeline[..|timeline| - 1], time, k, j); }
  }

  lemma {:induction false} TimestampsIncrease(scenes: seq<Scene>, i: nat, j: nat)
    requires R.FirstVerse(scenes) <= i <= j
    ensures 0.0 < Timestamp(scenes, i) && (i < j ==> Timestamp(scenes, i) < Timestamp(scenes, j))
    decreases j
  {
    if i < j {
      TimestampsIncrease(scenes, i, j - 1);
    } else if i > R.FirstVerse(scenes) {
      TimestampsIncrease(scenes, i - 1, i - 1);
    }
  }

  // Markers come in scene order and carry their scene's capped timestamp.
  ghost predicate MarkerOk(scenes: seq<Scene>, videoDuration: real, m: Marker, n: nat) {
    R.FirstVerse(scenes) <= m.slot < n && m.timestamp == Capped(Timestamp(scenes, m.slot), videoDuration)
  }

  ghost predicate Ordered(scenes: seq<Scene>, videoDuration: real, ms: seq<Marker>, n: nat) {
    && (forall k :: 0 <= k < |ms| ==> MarkerOk(scenes, videoDuration, ms[k], n))
    && (forall j, k :: 0 <= j < k < |ms| ==> ms[j].slot < ms[k].slot)
  }

  lemma {:induction false} MarkersAreOrdered(scenes: seq<Scene>, images: seq<Image>, allow: bool, videoDuration: real,
                                             n: nat)
    requires R.FirstVerse(scenes) <= n
    ensures Ordered(scenes, videoDuration, Markers(scenes, images, allow, videoDuration, n), n)
  {
    hide ThumbnailOf;
    if n > R.FirstVerse(scenes) {
      MarkersAreOrdered(scenes, images, allow, videoDuration, n - 1);
      var before := Markers(scenes, images, allow, videoDuration, n - 1);
      assert forall k :: 0 <= k < |before| ==> MarkerOk(scenes, videoDuration, before[k], n - 1);
      assert forall k :: 0 <= k < |before| ==> MarkerOk(scenes, videoDuration, before[k], n);
    }
  }

  // Scene i starts before the point the page refuses to seek past.
  predicate BeforeTheEnd(scenes: seq<Scene>, i: nat, videoDuration: real)
    requires R.FirstVerse(scenes) <= i
  {
    videoDuration > 0.0 ==> Timestamp(scenes, i) < SeekLimit(videoDuration)
  }

  // The player does not hold the seek back before the scene's marker.
  predicate PlayerReaches(scenes: seq<Scene>, i: nat, playerDuration: real, videoDuration: real)
    requires R.FirstVerse(scenes) <= i
  {
    playerDuration > 0.0 ==>
      || Timestamp(scenes, i) <= SeekLimit(playerDuration)
      || (videoDuration > 0.0 && SeekLimit(videoDuration) <= SeekLimit(playerDuration))
  }

  // A marker never lies in the last tenth of a second of a video of known length.
  lemma CappedIs(t: real, videoDuration: real)
    ensures videoDuration <= 0.0 ==> Capped(t, videoDuration) == t
    ensures videoDuration >= 0.1 ==>
              Capped(t, videoDuration) == if t <= videoDuration - 0.1 then t else videoDuration - 0.1
    ensures 0.0 < videoDuration < 0.1 ==> Capped(t, videoDuration) == if t <= 0.0 then t else 0.0
  {
  }

  // Scene j shows an image of its own on the page: it has one, and it was not refused, or
  // refused images are allowed.
  predicate HasOwn(images: seq<Image>, allow: bool, j: nat) {
    j < |images| && images[j].url.Some? && (!images[j].refused || allow)
  }

  // Scene j is the last one from `first` up to i that shows an image of its own.
  ghost predicate LastOwn(images: seq<Image>, allow: bool, first: nat, i: nat, j: nat) {
    first <= j <= i && HasOwn(images, allow, j) && forall k :: j < k <= i ==> !HasOwn(images, allow, k)
  }

  lemma {:induction false} ThumbnailIs(images: seq<Image>, allow: bool, first: nat, i: nat, j: nat)
    requires first <= i
    ensures LastOwn(images, allow, first, i, j) ==> ThumbnailOf(images, allow, first, i) == images[j].url
    ensures ThumbnailOf(images, allow, first, i).Some? ==> exists k: nat :: LastOwn(images, allow, first, i, k)
    decreases i
  {
    if ShowsOwn(images, allow, i) {
      assert LastOwn(images, allow, first, i, i);
    } else if i > first {
      ThumbnailIs(images, allow, first, i - 1, j);
      if ThumbnailOf(images, allow, first, i).Some? {
        var k: nat :| LastOwn(images, allow, first, i - 1, k);
        assert LastOwn(images, allow, first, i, k);
      }
    }
  }

  ghost predicate HasMarker(ms: seq<Marker>, i: nat) { exists k :: 0 <= k < |ms| && ms[k].slot == i }

  // A scene has a marker exactly when it or a post-verse scene before it shows an image
  // of its own.
  lemma {:induction false} MarkerIff(scenes: seq<Scene>, images: seq<Image>, allow: bool, videoDuration: real, n: nat,
                                     i: nat)
    requires R.FirstVerse(scenes) <= i < n
    ensures HasMarker(Markers(scenes, images, allow, videoDuration, n), i) <==>
            exists j: nat :: LastOwn(images, allow, R.FirstVerse(scenes), i, j)
  {
    hide ThumbnailOf, LastOwn, Timestamp, R.FirstVerse;
    var first := R.FirstVerse(scenes);
    var before := Markers(scenes, images, allow, videoDuration, n - 1);
    var after := Markers(scenes, images, allow, videoDuration, n);
    MarkersAreOrdered(scenes, images, allow, videoDuration, n - 1);
    SlotsBelow(scenes, before, videoDuration, n - 1);
    if i < n - 1 {
      MarkerIff(scenes, images, allow, videoDuration, n - 1, i);
    } else {
      ThumbnailIs(images, allow, first, i, 0);
      forall j: nat
        ensures LastOwn(images, allow, first, i, j) ==> ThumbnailOf(images, allow, first, i).Some?
      {
        ThumbnailIs(images, allow, first, i, j);
        OwnHasUrl(images, allow, first, i, j);
      }
      assert after != before <==> ThumbnailOf(images, allow, first, i).Some?;
    }
    HasMarkerStep(before, after, n - 1, i);
  }

  lemma OwnHasUrl(images: seq<Image>, allow: bool, first: nat, i: nat, j: nat)
    ensures LastOwn(images, allow, first, i, j) ==> j < |images| && images[j].url.Some?
  {
  }

  lemma SlotsBelow(scenes: seq<Scene>, ms: seq<Marker>, videoDuration: real, n: nat)
    requires Ordered(scenes, videoDuration, ms, n)
    ensures forall k :: 0 <= k < |ms| ==> ms[k].slot < n
  {
    assert forall k :: 0 <= k < |ms| ==> MarkerOk(scenes, videoDuration, ms[k], n);
  }

  lemma HasMarkerStep(before: seq<Marker>, after: seq<Marker>, n: nat, i: nat)
    requires i <= n && forall k :: 0 <= k < |before| ==> before[k].slot < n
    requires after == before || (|after| == |before| + 1 && after[..|before|] == before && after[|before|].slot == n)
    ensures i < n ==> (HasMarker(after, i) <==> HasMarker(before, i))
    ensures i == n ==> (HasMarker(after, i) <==> after != before)
  {
    if after != before {
      assert forall k :: 0 <= k < |before| ==> after[..|before|][k] == after[k];
      assert i == n ==> after[|before|].slot == i;
    }
  }

  // It carries that image, and a duration of its own if it is positive, else of five
  // seconds.
  lemma {:induction false} MarkerShows(scenes: seq<Scene>, images: seq<Image>, allow: bool, videoDuration: real, n: nat,
                                       k: nat, j: nat)
    requires R.FirstVerse(scenes) <= n && k < |Markers(scenes, images, allow, videoDuration, n)|
    ensures var m := Markers(scenes, images, allow, videoDuration, n)[k];
            && (LastOwn(images, allow, R.FirstVerse(scenes), m.slot, j) ==> images[j].url == Some(m.thumbnail))
            && m.duration == if m.slot < |scenes| && scenes[m.slot].duration.Some?
               && scenes[m.slot].duration.value > 0.0
                             then scenes[m.slot].duration.value else 5.0
  {
    hide ThumbnailOf, LastOwn, Timestamp, R.FirstVerse;
    var first := R.FirstVerse(scenes);
    if n > first {
      if k < |Markers(scenes, images, allow, videoDuration, n - 1)| {
        MarkerShows(scenes, images, allow, videoDuration, n - 1, k, j);
      } else {
        ThumbnailIs(images, allow, first, n - 1, j);
      }
    }
  }

  // Seeking to a marker makes the search select that marker exactly when the player
  // reaches it, and it is the last one or its scene starts before the seek limit:
  // capped markers coincide.  With the player's duration equal to the page's, or
  // unknown, the player always reaches it.
  lemma SeekSelectsIff(scenes: seq<Scene>, images: seq<Image>, allow: bool, playerDuration: real, videoDuration: real,
                       n: nat, k: nat)
    requires R.FirstVerse(scenes) <= n && k < |Markers(scenes, images, allow, videoDuration, n)|
    ensures var ms := Markers(scenes, images, allow, videoDuration, n);
            && R.FirstVerse(scenes) <= ms[k].slot
            && (Select(ms, SeekTime(ms[k], playerDuration, videoDuration)) == Some(k)
                <==> PlayerReaches(scenes, ms[k].slot, playerDuration, videoDuration)
                     && (k == |ms| - 1 || BeforeTheEnd(scenes, ms[k].slot, videoDuration)))
    ensures playerDuration == videoDuration || playerDuration <= 0.0 ==>
              PlayerReaches(scenes, Markers(scenes, images, allow, videoDuration, n)[k].slot, playerDuration,
                videoDuration)
  {
    hide R.FirstVerse, Timestamp, Markers, Select;
    var ms := Markers(scenes, images, allow, videoDuration, n);
    MarkersAreOrdered(scenes, images, allow, videoDuration, n);
    var i := ms[k].slot;
    assert MarkerOk(scenes, videoDuration, ms[k], n);
    TimestampsIncrease(scenes, i, i);
    var time := SeekTime(ms[k], playerDuration, videoDuration);
    assert time <= ms[k].timestamp;
    assert time == ms[k].timestamp <==> PlayerReaches(scenes, i, playerDuration, videoDuration);
    if time < ms[k].timestamp {
      SelectIsEarly(ms, time, k);
      return;
    }
    forall j | k < j < |ms|
      ensures ms[j].timestamp > time <==> BeforeTheEnd(scenes, i, videoDuration)
    {
      assert MarkerOk(scenes, videoDuration, ms[j], n);
      TimestampsIncrease(scenes, i, ms[j].slot);
    }
    if k == |ms| - 1 || BeforeTheEnd(scenes, i, videoDuration) {
      SelectIs(ms, time, k);
    } else {
      SelectIsLate(ms, time, k, k + 1);
    }
  }

  lemma {:induction false} SelectIsEarly(timeline: seq<Marker>, time: real, k: nat)
    requires k < |timeline| && time < timeline[k].timestamp
    ensures Select(timeline, time) != Some(k)
  {
    if k < |timeline| - 1 { SelectIsEarly(timeline[..|timeline| - 1], time, k); }
  }

  // Three scenes of five seconds from 3 s on in a video of 4 s: the second and third
  // markers both sit at 3.9 s, and seeking to the second selects the third.
  const SHORT_VIDEO := seq(3, _ => Scene([], Some(3.0), Some(5.0)))
  const THREE_IMAGES := seq(3, _ => Image(false, true, true, Some("u")))

  lemma WrongSceneExample()
    ensures R.FirstVerse(SHORT_VIDEO) == 0
    ensures var ms := Markers(SHORT_VIDEO, THREE_IMAGES, false, 4.0, 3);
            |ms| == 3 && ms[1].timestamp == ms[2].timestamp == 3.9 && Select(ms, SeekTime(ms[1], 4.0, 4.0)) == Some(2)
  {
    var s := SHORT_VIDEO;
    assert !RealVerse(s[0].words) && !RealVerse(s[1].words) && !RealVerse(s[2].words);
    assert R.FirstVerse(s) == 0 && R.Intro(s) == 3.0;
    assert Timestamp(s, 0) == 3.0 && Timestamp(s, 1) == 8.0 && Timestamp(s, 2) == 13.0;
    hide Timestamp, R.FirstVerse;
    assert Markers(s, THREE_IMAGES, false, 4.0, 0) == [];
    assert Markers(s, THREE_IMAGES, false, 4.0, 1) == [Marker(0, 3.0, 5.0, "u")];
    assert Markers(s, THREE_IMAGES, false, 4.0, 2) == [Marker(0, 3.0, 5.0, "u"), Marker(1, 3.9, 5.0, "u")];
  }
}
