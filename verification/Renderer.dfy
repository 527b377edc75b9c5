// The timeline of the rendered video: intro, exposure gate, rotating fill pool and
// slot loop (scripts/render_video.py).
module Renderer {
  import opened Common
  import opened Verses

  // Files on disk: the cached image of a scene, a frame of this render, or the place an
  // image URL or the thumbnail URL points to.
  datatype Path = Cached(file: nat) | Frame(index: nat) | Remote(url: nat) | Thumbnail

  // How download_image ends.  It can report success without writing a file only
  // when FFmpeg is missing.
  datatype Fetch = Failed | Written | ReportedOnly

  datatype Image = Image(refused: bool, success: bool, url: Option<Path>)

  datatype Slot = Slot(path: Path, duration: real, index: nat)

  // What the render starts from.  `cache` is the cache mapping sorted by scene
  // index, `disk` the files that exist, `fetches` what each scene's download does.
  datatype Project = Project(scenes: seq<Scene>, images: seq<Image>, cache: seq<(nat, Path)>, disk: set<Path>,
                             thumbnail: Option<Fetch>, fetches: seq<Fetch>, ffmpeg: bool, threshold: real)

  function Total(p: Project): nat { Max(|p.scenes|, |p.images|) }

  // ---- intro ------------------------------------------------------------

  function FirstVerse(scenes: seq<Scene>): (n: nat)
    ensures FirstReal(scenes, n) || (n == 0 && NoRealVerse(scenes, |scenes|))
  {
    FirstVerseFrom(scenes, 0)
  }

  function FirstVerseFrom(scenes: seq<Scene>, k: nat): (n: nat)
    requires k <= |scenes| && NoRealVerse(scenes, k)
    ensures FirstReal(scenes, n) || (n == 0 && NoRealVerse(scenes, |scenes|))
    decreases |scenes| - k
  {
    if k == |scenes| then 0 else if RealVerse(scenes[k].words) then k else FirstVerseFrom(scenes, k + 1)
  }

  function Intro(scenes: seq<Scene>): real {
    if scenes == [] then 5.0
    else
      var n := FirstVerse(scenes);
      if RealVerse(scenes[n].words) && StartTime(scenes[n]) > 0.0 then StartTime(scenes[n])
      else if StartTime(scenes[0]) > 0.0 then StartTime(scenes[0])
      else 10.0
  }

  // The intro, case by case.
  lemma IntroIs(scenes: seq<Scene>)
    ensures scenes == [] ==> Intro(scenes) == 5.0
    ensures forall n: nat :: FirstReal(scenes, n) && scenes[n].start.Some? && scenes[n].start.value > 0.0 ==>
              Intro(scenes) == scenes[n].start.value
    ensures scenes != []
            && !(exists n: nat :: FirstReal(scenes, n) && scenes[n].start.Some? && scenes[n].start.value > 0.0) ==>
              Intro(scenes) == if scenes[0].start.Some?
                && scenes[0].start.value > 0.0 then scenes[0].start.value else 10.0
  {
    var n := FirstVerse(scenes);
    if FirstReal(scenes, n) { FirstRealIsUnique(scenes, n); }
    forall m: nat | FirstReal(scenes, m)
      ensures m == n
    {
      FirstRealIsUnique(scenes, m);
    }
  }

  // Post-verse scenes begin with the first real verse, or with the first scene.
  lemma FirstVerseIs(scenes: seq<Scene>, n: nat)
    ensures FirstReal(scenes, n) ==> FirstVerse(scenes) == n
    ensures NoRealVerse(scenes, |scenes|) ==> FirstVerse(scenes) == 0
  {
    if FirstReal(scenes, n) { FirstRealIsUnique(scenes, n); }
  }

  lemma FirstRealIsUnique(scenes: seq<Scene>, n: nat)
    requires FirstReal(scenes, n)
    ensures FirstVerse(scenes) == n
  {
  }

  method ComputeIntro(scenes: seq<Scene>) returns (intro: real, firstVerse: nat)
    ensures intro == Intro(scenes) && intro > 0.0
    ensures firstVerse == FirstVerse(scenes)
  {
    intro, firstVerse := 5.0, 0;
    if |scenes| > 0 {
      var start: Option<real> := None;
      var idx := 0;
      while idx < |scenes| && start.None?
        invariant idx <= |scenes|
        invariant start.None? ==> firstVerse == 0 && NoRealVerse(scenes, idx)
        invariant start.Some? ==> FirstReal(scenes, firstVerse) && start.value == StartTime(scenes[firstVerse])
      {
        if RealVerse(scenes[idx].words) {
          start, firstVerse := Some(StartTime(scenes[idx])), idx;
        }
        idx := idx + 1;
      }
      if start.Some? { FirstRealIsUnique(scenes, firstVerse); }
      if start.Some? && start.value > 0.0 {
        intro := start.value;
      } else if scenes[0].start.Some? && scenes[0].start.value > 0.0 {
        intro := scenes[0].start.value;
      } else {
        intro := 10.0;
      }
    }
  }

  // ---- the exposure gate ------------------------------------------------

  function CacheOf(cache: seq<(nat, Path)>, i: nat): Option<Path> {
    if cache == [] then None
    else if cache[0].0 == i then Some(cache[0].1)
    else CacheOf(cache[1..], i)
  }

  // Entry k is the first one for scene i.
  ghost predicate EntryAt(cache: seq<(nat, Path)>, k: int, i: nat, path: Path) {
    0 <= k < |cache| && cache[k] == (i, path) && forall j :: 0 <= j < k ==> cache[j].0 != i
  }

  lemma EntryShift(cache: seq<(nat, Path)>, k: int, i: nat, path: Path)
    requires cache != [] && cache[0].0 != i
    ensures EntryAt(cache, k, i, path) <==> EntryAt(cache[1..], k - 1, i, path)
  {
    var rest := cache[1..];
    assert forall j :: 0 < j < |cache| ==> cache[j] == rest[j - 1];
    assert forall j :: 0 <= j < |rest| ==> rest[j] == cache[j + 1];
  }

  // The cached image of a scene is the one of its first entry.
  lemma {:induction false} CacheIs(cache: seq<(nat, Path)>, i: nat, path: Path)
    ensures CacheOf(cache, i) == Some(path) <==> exists k :: EntryAt(cache, k, i, path)
  {
    if cache != [] {
      var rest := cache[1..];
      CacheIs(rest, i, path);
      if cache[0].0 == i {
        assert cache[0].1 == path ==> EntryAt(cache, 0, i, path);
      } else {
        forall k
          ensures EntryAt(cache, k, i, path) <==> EntryAt(rest, k - 1, i, path)
        {
          EntryShift(cache, k, i, path);
        }
        if k :| EntryAt(rest, k, i, path) { assert EntryAt(cache, k + 1, i, path); }
      }
    }
  }

  // A post-verse image that was not refused and can be shown.
  predicate Showable(p: Project, k: int) {
    0 <= k < |p.images| && !p.images[k].refused && (p.images[k].success || CacheOf(p.cache, k).Some?)
  }

  // Refused images from the first verse up to (not including) image k.
  function RefusedUpTo(p: Project, first: nat, k: nat): nat
    requires k <= |p.images|
  {
    if k <= first then 0 else RefusedUpTo(p, first, k - 1) + if p.images[k - 1].refused then 1 else 0
  }

  // The gate's scan from image k: whether it meets a showable image, and how many
  // refused ones before that.
  function Scan(p: Project, k: nat): (bool, nat)
    decreases |p.images| - k
  {
    if k >= |p.images| then (false, 0)
    else if p.images[k].refused then (Scan(p, k + 1).0, Scan(p, k + 1).1 + 1)
    else if Showable(p, k) then (true, 0)
    else Scan(p, k + 1)
  }

  // A share of the scenes after the verse.
  function Share(p: Project, first: nat, refused: nat): real {
    if Total(p) > first then refused as real / (Total(p) - first) as real else 0.0
  }

  // Refused images may be used after all: nothing is exposed, or too much is refused.
  predicate Allow(p: Project, first: nat) {
    var (exposed, refused) := Scan(p, first);
    !exposed || Share(p, first, refused) >= p.threshold
  }

  // The gate: count refused images until the first showable one.
  method ExposureGate(p: Project, first: nat) returns (allow: bool, hasExposed: bool, refused: nat)
    requires first <= Total(p)
    ensures (hasExposed, refused) == Scan(p, first)
    ensures allow <==> Allow(p, first)
  {
    hasExposed, refused := false, 0;
    var idx := 0;
    while idx < |p.images| && !hasExposed
      invariant idx <= |p.images|
      invariant idx <= first ==> refused == 0 && !hasExposed
      invariant !hasExposed && idx >= first ==> Scan(p, first) == (Scan(p, idx).0, refused + Scan(p, idx).1)
      invariant hasExposed ==> Scan(p, first) == (true, refused)
    {
      if idx >= first {
        if p.images[idx].refused {
          refused := refused + 1;
        } else if p.images[idx].success || CacheOf(p.cache, idx).Some? {
          hasExposed := true;
        }
      }
      idx := idx + 1;
    }
    var postVerse := Total(p) - first;
    var ratio := if postVerse > 0 then refused as real / postVerse as real else 0.0;
    allow := !hasExposed || ratio >= p.threshold;
  }

  // The scan finds a showable image exactly when there is one, and its count is that
  // of the refused images before the first one it finds.
  lemma {:induction false} ScanStopsAtShowable(p: Project, first: nat) returns (k: nat)
    requires first <= |p.images|
    ensures first <= k <= |p.images| && forall j :: first <= j < k ==> !Showable(p, j)
    ensures Scan(p, first).0 <==> exists j :: first <= j && Showable(p, j)
    ensures Scan(p, first).0 <==> Showable(p, k)
    ensures !Scan(p, first).0 ==> k == |p.images|
    ensures Scan(p, first).1 == RefusedUpTo(p, first, k)
    decreases |p.images| - first
  {
    if first == |p.images| {
      k := first;
    } else if Showable(p, first) {
      k := first;
    } else {
      k := ScanStopsAtShowable(p, first + 1);
      RefusedFromNext(p, first, k);
    }
  }

  lemma {:induction false} RefusedFromNext(p: Project, first: nat, k: nat)
    requires first < k <= |p.images|
    ensures RefusedUpTo(p, first, k) == RefusedUpTo(p, first + 1, k) + if p.images[first].refused then 1 else 0
    decreases k
  {
    if k > first + 1 { RefusedFromNext(p, first, k - 1); }
  }

  // A longer stretch has more refused images exactly when it adds one.
  lemma {:induction false} RefusedGrows(p: Project, first: nat, k: nat, n: nat)
    requires first <= k <= n <= |p.images|
    ensures RefusedUpTo(p, first, k) <= RefusedUpTo(p, first, n)
    ensures RefusedUpTo(p, first, k) < RefusedUpTo(p, first, n) <==> exists j :: k <= j < n && p.images[j].refused
    decreases n
  {
    if k < n {
      RefusedGrows(p, first, k, n - 1);
      if p.images[n - 1].refused { assert exists j :: k <= j < n && p.images[j].refused; }
    }
  }

  function RefusedAfterVerse(p: Project, first: nat): nat { RefusedUpTo(p, first, |p.images|) }

  // The gate counts fewer images than are refused exactly when a refused one comes
  // after a showable one.
  lemma CountIsShortIff(p: Project, first: nat)
    ensures Scan(p, first).1 <= RefusedAfterVerse(p, first)
    ensures Scan(p, first).1 < RefusedAfterVerse(p, first) <==>
            exists i, j :: first <= i < j < |p.images| && Showable(p, i) && p.images[j].refused
  {
    if first > |p.images| { return; }
    hide Showable, Scan, RefusedUpTo;
    var k := ScanStopsAtShowable(p, first);
    RefusedGrows(p, first, k, |p.images|);
    if Scan(p, first).1 < RefusedAfterVerse(p, first) {
      var j :| k <= j < |p.images| && p.images[j].refused;
      assert Showable(p, k);
      NotBoth(p, k, j);
    }
  }

  lemma NotBoth(p: Project, i: nat, j: nat)
    requires Showable(p, i) && j < |p.images| && p.images[j].refused
    ensures i != j
  {
  }

  // The gate as it is meant: nothing can be shown, or too many of all the images
  // after the verse are refused.
  ghost predicate MeantToAllow(p: Project, first: nat) {
    || !(exists j :: first <= j && Showable(p, j))
    || Share(p, first, RefusedAfterVerse(p, first)) >= p.threshold
  }

  ghost predicate FirstShowable(p: Project, first: nat, i: nat) {
    first <= i && Showable(p, i) && forall j :: first <= j < i ==> !Showable(p, j)
  }

  lemma ShowableIsImage(p: Project, k: nat)
    requires Showable(p, k)
    ensures k < |p.images|
  {
  }

  lemma RefusedIsAll(p: Project, first: nat)
    ensures RefusedAfterVerse(p, first) == RefusedUpTo(p, first, |p.images|)
  {
  }

  // The gate never opens when it should not, and it stays closed when it should open
  // exactly when the refused images before the first showable one are below the
  // threshold and all of them together are not.
  lemma GateStaysClosedIff(p: Project, first: nat)
    ensures Allow(p, first) ==> MeantToAllow(p, first)
    ensures MeantToAllow(p, first) && !Allow(p, first) <==>
            exists i: nat :: FirstShowable(p, first, i) && i < |p.images|
              && Share(p, first, RefusedUpTo(p, first, i)) < p.threshold <= Share(p, first, RefusedAfterVerse(p, first))
  {
    if first > |p.images| { return; }
    hide Scan, RefusedUpTo, Share, RefusedAfterVerse, Showable;
    var k := ScanStopsAtShowable(p, first);
    RefusedGrows(p, first, k, |p.images|);
    assert RefusedUpTo(p, first, k) <= RefusedAfterVerse(p, first) by { RefusedIsAll(p, first); }
    ShareGrows(p, first, RefusedUpTo(p, first, k), RefusedAfterVerse(p, first));
    if Showable(p, k) {
      assert k < |p.images| by { ShowableIsImage(p, k); }
      assert FirstShowable(p, first, k);
      forall i: nat | FirstShowable(p, first, i)
        ensures i == k
      {
      }
    }
    hide FirstShowable;
  }

  lemma ShareGrows(p: Project, first: nat, a: nat, b: nat)
    requires a <= b
    ensures Share(p, first, a) <= Share(p, first, b)
  {
    if Total(p) > first {
      var n := (Total(p) - first) as real;
      assert b as real / n - a as real / n == (b - a) as real / n;
    }
  }

  // One showable image and three refused ones after it: three quarters are refused,
  // and the gate stays closed at a threshold of 0.4.
  const SHORT_COUNT := Project([], [Image(false, true, None)] + seq(3, _ => Image(true, true, None)), [], {}, None, [],
                               true, 0.4)

  lemma GateStaysClosedExample()
    ensures MeantToAllow(SHORT_COUNT, 0) && !Allow(SHORT_COUNT, 0)
    ensures Share(SHORT_COUNT, 0, RefusedAfterVerse(SHORT_COUNT, 0)) == 0.75
  {
    var p := SHORT_COUNT;
    assert Showable(p, 0) && Scan(p, 0) == (true, 0);
    assert |p.images| == 4 && !p.images[0].refused && p.images[1].refused && p.images[2].refused && p.images[3].refused;
    hide Scan, Showable;
    assert RefusedUpTo(p, 0, 1) == RefusedUpTo(p, 0, 0) == 0;
    assert RefusedUpTo(p, 0, 2) == 1;
    assert RefusedUpTo(p, 0, 3) == 2;
    assert RefusedUpTo(p, 0, 4) == 3;
  }

  // The first decision of the slot loop.
  predicate CanUse(p: Project, allow: bool, i: nat) {
    i < |p.images| ==>
      && !(p.images[i].refused && !allow)
      && (p.images[i].success || CacheOf(p.cache, i).Some?)
  }

  // Whenever some post-verse image was generated successfully, the gate leaves at
  // least one scene that may show its own image: the video is never all fill.
  lemma GateLeavesSomething(p: Project, first: nat, k: nat)
    requires first <= k < |p.images| && p.images[k].success
    ensures exists i: nat :: first <= i < |p.images| && CanUse(p, Allow(p, first), i)
  {
    if Allow(p, first) {
      assert CanUse(p, Allow(p, first), k);
    } else {
      var j := ScanStopsAtShowable(p, first);
      assert CanUse(p, Allow(p, first), j);
    }
  }

  // ---- the fill pool ----------------------------------------------------

  // Candidates passed over because they equal the last source.
  function Skips(pool: seq<Path>, cursor: nat, last: Option<Path>, left: nat): nat
    requires pool != []
    decreases left
  {
    if left == 0 || |pool| == 1 || Some(pool[cursor % |pool|]) != last then 0
    else 1 + Skips(pool, cursor + 1, last, left - 1)
  }

  function PickAt(pool: seq<Path>, cursor: nat, last: Option<Path>): nat
    requires pool != []
  {
    cursor + Skips(pool, cursor, last, |pool|)
  }

  function Picked(pool: seq<Path>, cursor: nat, last: Option<Path>): Path
    requires pool != []
  {
    pool[PickAt(pool, cursor, last) % |pool|]
  }

  ghost predicate Distinct(pool: seq<Path>) {
    forall i, j :: 0 <= i < j < |pool| ==> pool[i] != pool[j]
  }

  lemma {:induction false} SkipsStopAt(pool: seq<Path>, cursor: nat, last: Option<Path>, left: nat, d: nat)
    requires pool != [] && d < left && Some(pool[(cursor + d) % |pool|]) != last
    ensures Skips(pool, cursor, last, left) <= d
    ensures |pool| > 1 ==> Some(pool[(cursor + Skips(pool, cursor, last, left)) % |pool|]) != last
    decreases left
  {
    if |pool| > 1 && Some(pool[cursor % |pool|]) == last {
      SkipsStopAt(pool, cursor + 1, last, left - 1, d - 1);
    }
  }

  lemma DivisionIsUnique(a: nat, n: nat, q: nat, r: nat)
    requires r < n && a == q * n + r
    ensures a % n == r
  {
    var d := q - a / n;
    assert a == (a / n) * n + a % n;
    assert d * n == a % n - r;
    assert d >= 1 ==> d * n >= n;
    assert d <= -1 ==> d * n <= 0 - n;
  }

  lemma ModStep(a: nat, n: nat)
    requires n > 0
    ensures (a + 1) % n == if a % n + 1 == n then 0 else a % n + 1
  {
    var q := a / n;
    assert a == q * n + a % n;
    if a % n + 1 == n {
      assert a + 1 == (q + 1) * n;
      DivisionIsUnique(a + 1, n, q + 1, 0);
    } else {
      DivisionIsUnique(a + 1, n, q, a % n + 1);
    }
  }

  // Moving less than a full turn.
  lemma {:induction false} ModWalk(a: nat, d: nat, n: nat)
    requires d < n
    ensures (a + d) % n == if a % n + d < n then a % n + d else a % n + d - n
  {
    if d > 0 {
      ModWalk(a, d - 1, n);
      ModStep(a + d - 1, n);
    }
  }

  // Some index ahead of the cursor, less than one turn away, lands on entry j.
  lemma TurnTo(n: nat, cursor: nat, j: nat) returns (d: nat)
    requires j < n
    ensures d < n && (cursor + d) % n == j
  {
    var c := cursor % n;
    d := if j >= c then j - c else j - c + n;
    ModWalk(cursor, d, n);
  }

  // Two different entries in the pool are enough: no source is returned twice in a
  // row, whatever the pool and cursor were when the last one was picked.
  lemma PickNeverRepeats(pool: seq<Path>, cursor: nat, last: Option<Path>)
    requires exists i, j :: 0 <= i < j < |pool| && pool[i] != pool[j]
    ensures Some(Picked(pool, cursor, last)) != last
  {
    var i, j :| 0 <= i < j < |pool| && pool[i] != pool[j];
    var k := if Some(pool[i]) != last then i else j;
    var d := TurnTo(|pool|, cursor, k);
    SkipsStopAt(pool, cursor, last, |pool|, d);
  }

  // k picks in a row from an unchanged pool.
  function Picks(pool: seq<Path>, cursor: nat, last: Option<Path>, k: nat): (r: seq<Path>)
    requires pool != []
    ensures |r| == k
    decreases k
  {
    if k == 0 then []
    else
      var pick := Picked(pool, cursor, last);
      [pick] + Picks(pool, PickAt(pool, cursor, last) + 1, Some(pick), k - 1)
  }

  // The entry after the last one picked is not passed over.
  lemma NextPick(pool: seq<Path>, c: nat)
    requires pool != [] && Distinct(pool)
    ensures PickAt(pool, c + 1, Some(pool[c % |pool|])) == c + 1
  {
    ModStep(c, |pool|);
    assert |pool| > 1 ==> c % |pool| != (c + 1) % |pool|;
  }

  // The picks walk the pool in order from the first one.
  lemma {:induction false} PicksRotate(pool: seq<Path>, cursor: nat, last: Option<Path>, k: nat, i: nat)
    requires pool != [] && Distinct(pool) && i < k
    ensures Picks(pool, cursor, last, k)[i] == pool[(PickAt(pool, cursor, last) + i) % |pool|]
    decreases i
  {
    if i > 0 {
      var n, c := |pool|, PickAt(pool, cursor, last);
      NextPick(pool, c);
      hide Skips, Distinct;
      PicksRotate(pool, c + 1, Some(Picked(pool, cursor, last)), k - 1, i - 1);
      assert c + 1 + (i - 1) == c + i;
    }
  }

  // As many picks as the pool has entries visit every entry, each once.
  lemma EveryEntryOnce(pool: seq<Path>, cursor: nat, last: Option<Path>, j: nat)
    requires Distinct(pool) && j < |pool|
    ensures exists i :: 0 <= i < |pool| && Picks(pool, cursor, last, |pool|)[i] == pool[j]
                        && forall k :: 0 <= k < |pool| && k != i ==> Picks(pool, cursor, last, |pool|)[k] != pool[j]
  {
    hide Picks, PickAt;
    var n, c := |pool|, PickAt(pool, cursor, last);
    var i := TurnTo(n, c, j);
    forall k | 0 <= k < n
      ensures Picks(pool, cursor, last, n)[k] == pool[j] <==> k == i
    {
      PicksRotate(pool, cursor, last, n, k);
      OneTurn(c, i, k, n);
      assert pool[(c + k) % n] == pool[j] <==> (c + k) % n == j;
    }
    assert Picks(pool, cursor, last, n)[i] == pool[j];
  }

  // Indices less than a turn apart land on different entries.
  lemma OneTurn(c: nat, i: nat, k: nat, n: nat)
    requires i < n && k < n
    ensures (c + i) % n == (c + k) % n <==> i == k
  {
    ModWalk(c, k, n);
    ModWalk(c, i, n);
  }

  // ---- the slots --------------------------------------------------------

  function DurationOf(p: Project, i: nat): real {
    if i < |p.scenes| && p.scenes[i].duration.Some? then p.scenes[i].duration.value else 5.0
  }

  // The file scene i's frame is taken from: its cached image or else its URL.
  function SourceOf(p: Project, i: nat): Option<Path> {
    var cached := CacheOf(p.cache, i);
    if cached.Some? then cached else if i < |p.images| then p.images[i].url else None
  }

  // Scene i shows its own image.
  predicate Rendered(p: Project, allow: bool, i: nat) {
    i < |p.fetches| && CanUse(p, allow, i) && SourceOf(p, i).Some? && p.fetches[i] != Failed
  }

  // A scene shows its own image exactly when its cached image, or else its URL, can be
  // fetched, and it was not refused, or refused images are allowed, and it was made
  // successfully or is cached.  A scene without an image record needs a cached image.
  lemma OwnImageIff(p: Project, allow: bool, i: nat)
    requires i < |p.fetches|
    ensures Rendered(p, allow, i) <==>
            && p.fetches[i] != Failed
            && (CacheOf(p.cache, i).Some? || (i < |p.images| && p.images[i].success && p.images[i].url.Some?))
            && (i < |p.images| ==> !p.images[i].refused || allow)
    ensures Rendered(p, allow, i) ==>
              SourceOf(p, i) == if CacheOf(p.cache, i).Some? then CacheOf(p.cache, i) else p.images[i].url
  {
    hide CacheOf;
  }

  // A scene lasts as long as it says, and five seconds when it does not.
  lemma DurationIs(p: Project, i: nat)
    ensures forall d: real :: i < |p.scenes| && p.scenes[i].duration == Some(d) ==> DurationOf(p, i) == d
    ensures i >= |p.scenes| || p.scenes[i].duration == None ==> DurationOf(p, i) == 5.0
  {
  }

  // Slots of the scenes from d on, numbered from `base`.
  function Slots(p: Project, d: nat, base: nat): (slots: seq<Slot>)
    requires d <= Total(p)
    ensures |slots| == Total(p) - d
    ensures forall k :: 0 <= k < |slots| ==> slots[k] == Slot(Frame(base + k), DurationOf(p, d + k), base + k)
  {
    seq(Total(p) - d, k requires 0 <= k < Total(p) - d => Slot(Frame(base + k), DurationOf(p, d + k), base + k))
  }

  function Head(p: Project): seq<Slot> {
    if p.thumbnail.Some? && p.thumbnail.value != Failed then [Slot(Frame(0), Intro(p.scenes), 0)] else []
  }

  // Cached images that exist when the loop starts.
  ghost predicate HasCachedFrame(p: Project) { exists c :: 0 <= c < |p.cache| && p.cache[c].1 in p.disk }

  // The inputs the timeline claims are about: FFmpeg is there, so that a reported
  // download is a written file, and cache files are not frames of this render.
  ghost predicate Proper(p: Project) {
    && |p.fetches| == Total(p) && p.ffmpeg
    && (forall i :: 0 <= i < |p.fetches| ==> p.fetches[i] != ReportedOnly)
    && p.thumbnail != Some(ReportedOnly)
    && (forall c :: 0 <= c < |p.cache| ==> p.cache[c].1.Cached?)
    && (forall f :: f in p.disk ==> !f.Frame?)
  }

  // The fill pool before the slot loop: the cached images that exist, each once.
  function Seed(cache: seq<(nat, Path)>, disk: set<Path>, n: nat): seq<Path>
    requires n <= |cache|
  {
    if n == 0 then []
    else
      var before := Seed(cache, disk, n - 1);
      if cache[n - 1].1 in disk && cache[n - 1].1 !in before then before + [cache[n - 1].1] else before
  }

  // The frames of scenes up to i that show their own image, where the slot of scene d
  // has number `base`.
  function OwnFrames(p: Project, allow: bool, d: nat, base: nat, i: nat): seq<Path>
    requires d <= i
  {
    if i == d then []
    else OwnFrames(p, allow, d, base, i - 1) + if Rendered(p, allow, i - 1) then [Frame(base + i - 1 - d)] else []
  }

  // The fill pool when scene i is laid.
  function PoolAt(p: Project, allow: bool, d: nat, base: nat, i: nat): seq<Path>
    requires d <= i
  {
    Seed(p.cache, p.disk, |p.cache|) + OwnFrames(p, allow, d, base, i)
  }

  // What the slots are made of, up to scene n: a scene's own image, else an entry of the
  // pool, else the frame before.
  ghost predicate SourcesAre(p: Project, allow: bool, d: nat, base: nat, sources: seq<Path>, n: nat)
    requires d <= n && |sources| == base + n - d
  {
    forall i :: d <= i < n ==> SourceIs(p, allow, d, base, sources, i)
  }

  ghost predicate SourceIs(p: Project, allow: bool, d: nat, base: nat, sources: seq<Path>, i: nat)
    requires d <= i < d + |sources| - base
  {
    var k := base + i - d;
    if Rendered(p, allow, i) then SourceOf(p, i) == Some(sources[k])
    else if PoolAt(p, allow, d, base, i) != [] then sources[k] in PoolAt(p, allow, d, base, i)
    else k > 0 && sources[k] == Frame(k - 1)
  }

  // Scene i is filled from the pool.
  predicate Filled(p: Project, allow: bool, d: nat, base: nat, i: nat)
    requires d <= i
  {
    !Rendered(p, allow, i) && PoolAt(p, allow, d, base, i) != []
  }

  // Scene i is the last one before n that is filled from the pool.
  ghost predicate LastFilled(p: Project, allow: bool, d: nat, base: nat, i: nat, n: nat)
    requires d <= i
  {
    i < n && Filled(p, allow, d, base, i) && forall j :: i < j < n ==> !Filled(p, allow, d, base, j)
  }

  // Two scenes filled one after the other from a pool with two entries or more show
  // different sources.
  ghost predicate NoRepeats(p: Project, allow: bool, d: nat, base: nat, sources: seq<Path>, n: nat)
    requires d <= n && |sources| == base + n - d
  {
    forall i, j :: d <= i < j < n && LastFilled(p, allow, d, base, i, j) && Filled(p, allow, d, base, j)
                   && |PoolAt(p, allow, d, base, j)| >= 2 ==>
      sources[base + i - d] != sources[base + j - d]
  }

  // The picker remembers the source of the last scene filled from the pool.
  ghost predicate Remembers(p: Project, allow: bool, d: nat, base: nat, sources: seq<Path>, n: nat, last: Option<Path>)
    requires d <= n && |sources| == base + n - d
  {
    forall i :: d <= i < n && LastFilled(p, allow, d, base, i, n) ==> last == Some(sources[base + i - d])
  }

  // Laying scene n keeps all this.
  lemma SourcesStep(p: Project, allow: bool, d: nat, base: nat, sources: seq<Path>, n: nat, last: Option<Path>,
                    x: Path, last': Option<Path>)
    requires d <= n && |sources| == base + n - d
    requires SourcesAre(p, allow, d, base, sources, n) && NoRepeats(p, allow, d, base, sources, n)
    requires Remembers(p, allow, d, base, sources, n, last)
    requires SourceIs(p, allow, d, base, sources + [x], n)
    requires last' == if Filled(p, allow, d, base, n) then Some(x) else last
    requires Filled(p, allow, d, base, n) && |PoolAt(p, allow, d, base, n)| >= 2 ==> last != Some(x)
    ensures SourcesAre(p, allow, d, base, sources + [x], n + 1) && NoRepeats(p, allow, d, base, sources + [x], n + 1)
    ensures Remembers(p, allow, d, base, sources + [x], n + 1, last')
  {
    hide Rendered, SourceOf, PoolAt, Filled;
    var all := sources + [x];
    assert forall k :: 0 <= k < |sources| ==> all[k] == sources[k];
    forall i | d <= i < n
      ensures SourceIs(p, allow, d, base, all, i)
    {
      assert SourceIs(p, allow, d, base, sources, i);
    }
    var m := n + 1;
    forall i | d <= i < m && LastFilled(p, allow, d, base, i, m)
      ensures last' == Some(all[base + i - d])
    {
      assert i < n ==> LastFilled(p, allow, d, base, i, n) && !Filled(p, allow, d, base, n);
    }
  }

  // All of it, up to scene n.
  ghost predicate Traced(p: Project, allow: bool, d: nat, base: nat, sources: seq<Path>, n: nat, last: Option<Path>) {
    && d <= n && |sources| == base + n - d
    && SourcesAre(p, allow, d, base, sources, n) && NoRepeats(p, allow, d, base, sources, n)
    && Remembers(p, allow, d, base, sources, n, last)
  }

  lemma {:induction false} SeedHas(cache: seq<(nat, Path)>, disk: set<Path>, n: nat, path: Path)
    requires n <= |cache|
    ensures path in Seed(cache, disk, n) <==> path in disk && exists c :: 0 <= c < n && cache[c].1 == path
  {
    if n > 0 { SeedHas(cache, disk, n - 1, path); }
  }

  class Timeline {
    const p: Project
    var imageFiles: seq<Slot>
    var sources: seq<Path>  // what the frame of each slot was made from
    var imageIndex: nat
    var lastValid: Option<Path>
    var pool: seq<Path>
    var cursor: nat
    var lastSource: Option<Path>
    var disk: set<Path>

    // Slots are numbered from zero; every frame that can be copied exists; the pool
    // holds each source once.
    ghost predicate Sound()
      reads this
    {
      && Proper(p)
      && imageIndex == |imageFiles| == |sources|
      && (forall k :: 0 <= k < |imageFiles| ==> imageFiles[k].index == k && imageFiles[k].path == Frame(k))
      && (lastValid.Some? ==> lastValid.value in disk)
      && (imageFiles != [] ==> lastValid.Some?)
      && (forall k :: 0 <= k < |pool| ==> pool[k] in disk && (pool[k].Frame? ==> pool[k].index < imageIndex))
      && Distinct(pool)
    }

    constructor (p: Project)
      requires Proper(p)
      ensures Sound() && this.p == p
      ensures imageFiles == [] && pool == [] && lastValid == None && disk == p.disk && lastSource == None
    {
      this.p, imageFiles, sources, imageIndex, lastValid, pool := p, [], [], 0, None, [];
      cursor, lastSource, disk := 0, None, p.disk;
    }

    // pick_fallback_source.
    method PickFallbackSource() returns (r: Option<Path>)
      modifies this`cursor, this`lastSource
      ensures pool == [] ==> r == None && cursor == old(cursor) && lastSource == old(lastSource)
      ensures pool != [] ==>
                && r == Some(Picked(pool, old(cursor), old(lastSource))) && lastSource == r
                && cursor == PickAt(pool, old(cursor), old(lastSource)) + 1
    {
      if pool == [] { return None; }
      var n := |pool|;
      for t := 0 to n
        invariant cursor == old(cursor) + t && lastSource == old(lastSource)
        invariant Skips(pool, old(cursor), lastSource, n) == t + Skips(pool, cursor, lastSource, n - t)
      {
        var candidate := pool[cursor % n];
        if n == 1 || Some(candidate) != lastSource {
          cursor := cursor + 1;
          lastSource := Some(candidate);
          return lastSource;
        }
        cursor := cursor + 1;
      }
      var candidate := pool[cursor % n];
      cursor := cursor + 1;
      lastSource := Some(candidate);
      return lastSource;
    }

    // download_image into the next frame of this render.
    method Download(outcome: Fetch) returns (ok: bool)
      modifies this`disk
      ensures ok <==> outcome != Failed
      ensures disk == old(disk) + (if outcome == Written then {Frame(imageIndex)} else {})
    {
      ok := outcome != Failed;
      if outcome == Written { disk := disk + {Frame(imageIndex)}; }
    }

    // One round of the slot loop.
    method LayScene(i: nat, allow: bool)
      requires Sound() && i < Total(p)
      modifies this
      ensures Sound()
      ensures Rendered(p, allow, i) || old(pool) != [] || old(lastValid).Some? ==>
                && imageFiles == old(imageFiles) + [Slot(Frame(old(imageIndex)), DurationOf(p, i), old(imageIndex))]
                && lastValid == Some(Frame(old(imageIndex)))
      ensures !(Rendered(p, allow, i) || old(pool) != [] || old(lastValid).Some?) ==>
                imageFiles == old(imageFiles) && lastValid == old(lastValid)
      ensures pool == old(pool) + (if Rendered(p, allow, i) then [Frame(old(imageIndex))] else [])
      // A scene's own image, else the next of the rotating pool, else the last frame.
      ensures Rendered(p, allow, i) ==>
                && SourceOf(p, i).Some? && sources == old(sources) + [SourceOf(p, i).value]
                && lastSource == old(lastSource)
      ensures !Rendered(p, allow, i) && old(pool) != [] ==>
                && sources == old(sources) + [Picked(old(pool), old(cursor), old(lastSource))]
                && lastSource == Some(Picked(old(pool), old(cursor), old(lastSource)))
      ensures !Rendered(p, allow, i) && old(pool) == [] ==>
                && lastSource == old(lastSource)
                && sources == old(sources) + (if old(lastValid).Some? then [old(lastValid).value] else [])
    {
      hide CacheOf, Skips, Rendered;
      var duration := 5.0;
      if i < |p.scenes| && p.scenes[i].duration.Some? { duration := p.scenes[i].duration.value; }
      var rendered := TryOwnImage(i, allow, duration);
      if !rendered { FillSlot(duration); }
    }

    // The scene's own image, if it may be used and can be fetched.
    method TryOwnImage(i: nat, allow: bool, duration: real) returns (rendered: bool)
      requires Sound() && i < Total(p)
      modifies this
      ensures Sound()
      ensures rendered <==> Rendered(p, allow, i)
      ensures rendered ==>
                && imageFiles == old(imageFiles) + [Slot(Frame(old(imageIndex)), duration, old(imageIndex))]
                && lastValid == Some(Frame(old(imageIndex)))
                && pool == old(pool) + [Frame(old(imageIndex))]
                && SourceOf(p, i).Some? && sources == old(sources) + [SourceOf(p, i).value]
      ensures !rendered ==>
                imageFiles == old(imageFiles) && imageIndex == old(imageIndex) && lastValid == old(lastValid)
                  && pool == old(pool) && sources == old(sources)
      ensures cursor == old(cursor) && lastSource == old(lastSource)
    {
      hide CacheOf, Skips;
      var canUse := true;
      if i < |p.images| {
        if p.images[i].refused && !allow {
          canUse := false;
        } else if !p.images[i].success && CacheOf(p.cache, i).None? {
          canUse := false;
        }
      }
      rendered := false;
      if canUse {
        var source := CacheOf(p.cache, i);
        if source.None? && i < |p.images| { source := p.images[i].url; }
        if source.Some? {
          var path := Frame(imageIndex);
          rendered := Download(p.fetches[i]);
          if rendered {
            imageFiles := imageFiles + [Slot(path, duration, imageIndex)];
            sources := sources + [source.value];
            lastValid := Some(path);
            if path !in pool { pool := pool + [path]; }
            imageIndex := imageIndex + 1;
          }
        }
      }
    }

    // The fallback of the slot loop: a rotating source, else the last valid frame.
    method FillSlot(duration: real)
      requires Sound()
      modifies this
      ensures Sound() && pool == old(pool)
      ensures old(pool) != [] || old(lastValid).Some? ==>
                && imageFiles == old(imageFiles) + [Slot(Frame(old(imageIndex)), duration, old(imageIndex))]
                && lastValid == Some(Frame(old(imageIndex)))
      ensures old(pool) == [] && old(lastValid).None? ==> imageFiles == old(imageFiles) && lastValid == old(lastValid)
      ensures old(pool) != [] ==>
                && sources == old(sources) + [Picked(old(pool), old(cursor), old(lastSource))]
                && lastSource == Some(Picked(old(pool), old(cursor), old(lastSource)))
      ensures old(pool) == [] ==>
                && lastSource == old(lastSource)
                && sources == old(sources) + (if old(lastValid).Some? then [old(lastValid).value] else [])
    {
      hide Skips;
      var fill := PickFallbackSource();
      if fill.None? || fill.value !in disk { fill := lastValid; }
      if fill.None? || fill.value !in disk { return; }
      var path := Frame(imageIndex);
      disk := disk + {path};
      sources := sources + [fill.value];
      imageFiles := imageFiles + [Slot(path, duration, imageIndex)];
      lastValid := Some(path);
      imageIndex := imageIndex + 1;
    }

    // The fill pool before the loop: the cached images that exist, each once.
    method SeedPool()
      requires Sound() && pool == [] && p.disk <= disk && forall f :: f in disk ==> f in p.disk || f.Frame?
      modifies this`pool
      ensures Sound()
      ensures pool != [] <==> exists c :: 0 <= c < |p.cache| && p.cache[c].1 in disk
      ensures pool == Seed(p.cache, p.disk, |p.cache|)
    {
      for c := 0 to |p.cache|
        invariant Sound() && pool == Seed(p.cache, p.disk, c)
        invariant forall k :: 0 <= k < |pool| ==> pool[k].Cached?
        invariant pool != [] <==> exists b :: 0 <= b < c && p.cache[b].1 in disk
      {
        var path := p.cache[c].1;
        assert path in disk <==> path in p.disk;
        if path in disk && path !in pool { pool := pool + [path]; }
      }
    }

    // Everything before the slot loop: intro, thumbnail, gate, pool.
    method Prepare() returns (first: nat, allow: bool)
      requires Sound() && imageFiles == [] && pool == [] && lastValid == None && disk == p.disk
      modifies this
      ensures Sound() && first == FirstVerse(p.scenes) <= Total(p) && allow == Allow(p, first)
      ensures imageFiles == Head(p)
      ensures Head(p) == [] ==> lastValid == None
      ensures pool != [] <==> HasCachedFrame(p)
      ensures lastValid.Some? ==>
              imageFiles != [] && lastValid == Some(Frame(|imageFiles| - 1)) && sources == [Thumbnail]
      ensures pool == Seed(p.cache, p.disk, |p.cache|) && lastSource == old(lastSource)
    {
      var intro;
      intro, first := ComputeIntro(p.scenes);
      if p.thumbnail.Some? {
        var ok := Download(p.thumbnail.value);
        if ok {
          imageFiles, sources := [Slot(Frame(0), intro, 0)], [Thumbnail];
          imageIndex := 1;
          lastValid := Some(Frame(0));
        }
      }
      var hasExposed, refused;
      allow, hasExposed, refused := ExposureGate(p, first);
      SeedPool();
    }

    // The whole timeline.  Scene slots come in order, each with its own duration
    // and the next index, after the thumbnail slot if there is one.  Only a prefix
    // can be dropped, and only while there is nothing to show: no thumbnail, no
    // cached frame, and no scene rendered yet.
    method BuildTimeline() returns (first: nat, allow: bool, ghost dropped: nat)
      requires Sound() && imageFiles == [] && pool == [] && lastValid == None && disk == p.disk && lastSource == None
      modifies this
      ensures Sound() && first == FirstVerse(p.scenes) <= dropped <= Total(p) && allow == Allow(p, first)
      ensures imageFiles == Head(p) + Slots(p, dropped, |Head(p)|)
      ensures forall i :: first <= i < dropped ==> !Rendered(p, allow, i)
      ensures dropped > first ==> Head(p) == [] && !HasCachedFrame(p)
      ensures dropped < Total(p) ==> Head(p) != [] || HasCachedFrame(p) || Rendered(p, allow, dropped)
      // Each slot shows its scene's own image, or rotates through the pool.
      ensures |sources| == |Head(p)| + Total(p) - dropped && (Head(p) != [] ==> sources[0] == Thumbnail)
      ensures SourcesAre(p, allow, dropped, |Head(p)|, sources, Total(p))
      ensures NoRepeats(p, allow, dropped, |Head(p)|, sources, Total(p))
    {
      first, allow := Prepare();
      dropped := LaySlots(first, allow);
    }

    // One round of the slot loop, with the account of the sources; `laid` says whether
    // there was anything to show.
    method LayTraced(i: nat, allow: bool, ghost d: nat, ghost base: nat) returns (ghost laid: bool)
      requires Sound() && d <= i < Total(p)
      requires imageFiles != [] ==> lastValid == Some(Frame(|imageFiles| - 1))
      requires imageFiles == [] ==> lastValid == None
      requires pool == PoolAt(p, allow, d, base, i) && Traced(p, allow, d, base, sources, i, lastSource)
      modifies this
      ensures Sound() && |imageFiles| == |sources|
      ensures laid <==> Rendered(p, allow, i) || old(pool) != [] || old(imageFiles) != []
      ensures laid ==>
                && imageFiles == old(imageFiles) + [Slot(Frame(|old(imageFiles)|), DurationOf(p, i), |old(imageFiles)|)]
                && lastValid == Some(Frame(|imageFiles| - 1))
                && |sources| == |old(sources)| + 1 && sources[..|old(sources)|] == old(sources)
                && pool == PoolAt(p, allow, d, base, i + 1) && (old(pool) != [] ==> pool != [])
                && Traced(p, allow, d, base, sources, i + 1, lastSource)
      ensures !laid ==>
                imageFiles == old(imageFiles) && lastValid == old(lastValid) && sources == old(sources)
                  && pool == old(pool) && lastSource == old(lastSource)
    {
      hide Rendered, Proper, DurationOf, Traced, PoolAt, Skips, SourceOf, Seed;
      ghost var before, last, cur := sources, lastSource, cursor;
      ghost var isDistinct := PoolAt(p, allow, d, base, i);
      assert Distinct(isDistinct);
      hide Distinct;
      PoolStep(p, allow, d, base, i);
      TracedIs(p, allow, d, base, sources, i, lastSource);
      laid := Rendered(p, allow, i) || pool != [] || imageFiles != [];
      LayScene(i, allow);
      if laid { LaidStep(p, allow, d, base, before, i, last, cur, sources[|before|], lastSource); }
    }

    // The slot loop.
    method LaySlots(first: nat, allow: bool) returns (ghost dropped: nat)
      requires Sound() && first <= Total(p) && |imageFiles| == |sources|
      requires imageFiles == [] ==> lastValid == None
      requires imageFiles != [] ==> lastValid == Some(Frame(|imageFiles| - 1))
      requires pool == Seed(p.cache, p.disk, |p.cache|) && lastSource == None
      modifies this
      ensures Sound() && first <= dropped <= Total(p)
      ensures imageFiles == old(imageFiles) + Slots(p, dropped, |old(imageFiles)|)
      ensures forall i :: first <= i < dropped ==> !Rendered(p, allow, i)
      ensures dropped > first ==> old(imageFiles) == [] && old(pool) == []
      ensures dropped < Total(p) ==> old(imageFiles) != [] || old(pool) != [] || Rendered(p, allow, dropped)
      ensures |sources| == |old(sources)| + Total(p) - dropped && sources[..|old(sources)|] == old(sources)
      ensures SourcesAre(p, allow, dropped, |old(imageFiles)|, sources, Total(p))
      ensures NoRepeats(p, allow, dropped, |old(imageFiles)|, sources, Total(p))
    {
      hide *;
      dropped := first;
      ghost var head, base, seeded := imageFiles, |imageFiles|, pool != [];
      NothingLaid(p, allow, first, base, sources);
      for i := first to Total(p)
        invariant Sound() && first <= dropped <= i
        invariant imageFiles == head + Slots(p, dropped, |head|)[..i - dropped]
        invariant seeded ==> pool != []
        invariant forall j :: first <= j < dropped ==> !Rendered(p, allow, j)
        invariant dropped > first ==> head == [] && !seeded
        invariant dropped == i && head == [] && !seeded ==> pool == []
        invariant dropped == i ==> |sources| == base && lastSource == None && imageFiles == head
        invariant dropped < i ==> head != [] || seeded || Rendered(p, allow, dropped)
        invariant |imageFiles| == |sources| >= base && sources[..base] == old(sources)
        invariant imageFiles != [] ==> lastValid == Some(Frame(|imageFiles| - 1))
        invariant imageFiles == [] ==> lastValid == None
        invariant pool == PoolAt(p, allow, dropped, base, i)
        invariant Traced(p, allow, dropped, base, sources, i, lastSource)
      {
        ghost var laid := LayTraced(i, allow, dropped, base);
        if !laid {
          dropped := i + 1;
          NothingLaid(p, allow, dropped, base, sources);
        }
      }
      TracedIs(p, allow, dropped, base, sources, Total(p), lastSource);
    }
  }

  lemma NothingLaid(p: Project, allow: bool, d: nat, base: nat, sources: seq<Path>)
    requires |sources| == base
    ensures Traced(p, allow, d, base, sources, d, None)
    ensures PoolAt(p, allow, d, base, d) == Seed(p.cache, p.disk, |p.cache|)
  {
  }

  lemma TracedIs(p: Project, allow: bool, d: nat, base: nat, sources: seq<Path>, n: nat, last: Option<Path>)
    requires Traced(p, allow, d, base, sources, n, last)
    ensures d <= n && |sources| == base + n - d
    ensures SourcesAre(p, allow, d, base, sources, n) && NoRepeats(p, allow, d, base, sources, n)
  {
  }

  lemma PoolStep(p: Project, allow: bool, d: nat, base: nat, i: nat)
    requires d <= i
    ensures PoolAt(p, allow, d, base, i + 1) ==
            PoolAt(p, allow, d, base, i) + if Rendered(p, allow, i) then [Frame(base + i - d)] else []
  {
    hide Rendered;
  }

  // What LayScene does with scene n, in terms of the sources.
  lemma LaidStep(p: Project, allow: bool, d: nat, base: nat, sources: seq<Path>, n: nat, last: Option<Path>,
                 cursor: nat, x: Path, last': Option<Path>)
    requires Traced(p, allow, d, base, sources, n, last) && d <= n
    requires Distinct(PoolAt(p, allow, d, base, n))
    requires if Rendered(p, allow, n) then SourceOf(p, n) == Some(x) && last' == last
             else if PoolAt(p, allow, d, base, n) != [] then
               x == Picked(PoolAt(p, allow, d, base, n), cursor, last) && last' == Some(x)
             else |sources| > 0 && x == Frame(|sources| - 1) && last' == last
    ensures Traced(p, allow, d, base, sources + [x], n + 1, last')
  {
    var pool := PoolAt(p, allow, d, base, n);
    if Filled(p, allow, d, base, n) && |pool| >= 2 {
      assert pool[0] != pool[1];
      PickNeverRepeats(pool, cursor, last);
    }
    hide PoolAt, Rendered, SourcesAre, NoRepeats, Remembers, Picked, SourceOf, Distinct;
    SourcesStep(p, allow, d, base, sources, n, last, x, last');
  }

  // ---- when each slot starts --------------------------------------------

  function Length(slots: seq<Slot>): real {
    if slots == [] then 0.0 else Length(slots[..|slots| - 1]) + slots[|slots| - 1].duration
  }

  // Start of slot k in the video.
  function SlotStart(slots: seq<Slot>, k: nat): real
    requires k <= |slots|
  {
    Length(slots[..k])
  }

  // Durations of scenes from..to added up.
  function Durations(p: Project, from: nat, to: nat): real
    requires from <= to
  {
    if from == to then 0.0 else Durations(p, from, to - 1) + DurationOf(p, to - 1)
  }

  lemma {:induction false} SlotStartIs(p: Project, head: seq<Slot>, d: nat, k: nat)
    requires d + k <= Total(p)
    ensures SlotStart(head + Slots(p, d, |head|), |head| + k) == Length(head) + Durations(p, d, d + k)
  {
    var slots := head + Slots(p, d, |head|);
    if k == 0 {
      assert slots[..|head|] == head;
    } else {
      SlotStartIs(p, head, d, k - 1);
      assert slots[..|head| + k][..|head| + k - 1] == slots[..|head| + k - 1];
    }
  }

  // The slots of a timeline that starts with a thumbnail frame and drops nothing.
  function ThumbnailSlots(p: Project): (slots: seq<Slot>)
    requires Head(p) != []
    ensures |slots| == 1 + Total(p) - FirstVerse(p.scenes)
  {
    Head(p) + Slots(p, FirstVerse(p.scenes), 1)
  }

  // With a thumbnail frame, the slot of post-verse scene i starts at the intro plus
  // the durations of the post-verse scenes before it ...
  lemma SlotOfScene(p: Project, i: nat)
    requires Head(p) != [] && FirstVerse(p.scenes) <= i <= Total(p)
    ensures var first := FirstVerse(p.scenes);
            SlotStart(ThumbnailSlots(p), i - first + 1) == Intro(p.scenes) + Durations(p, first, i)
  {
    HeadLength(p);
    assert ThumbnailSlots(p) == Head(p) + Slots(p, FirstVerse(p.scenes), |Head(p)|);
    SlotStartIs(p, Head(p), FirstVerse(p.scenes), i - FirstVerse(p.scenes));
  }

  // ... and the whole video is the intro plus the durations of all of them.
  lemma TimelineConserves(p: Project)
    requires Head(p) != []
    ensures Length(ThumbnailSlots(p)) == Intro(p.scenes) + Durations(p, FirstVerse(p.scenes), Total(p))
  {
    SlotOfScene(p, Total(p));
    SlotStartOfAll(ThumbnailSlots(p));
  }

  lemma SlotStartOfAll(slots: seq<Slot>)
    ensures SlotStart(slots, |slots|) == Length(slots)
  {
    assert slots[..|slots|] == slots;
  }

  lemma HeadLength(p: Project)
    ensures Head(p) != [] ==> |Head(p)| == 1 && Length(Head(p)) == Intro(p.scenes)
  {
    hide Intro;
    if Head(p) != [] { assert Head(p)[..0] == [] && Length([]) == 0.0; }
  }
}
