/** Readium locators written for a position and read back (internal/audiomap/audiomap.go). */
module Locator {
  import opened Wrappers
  import opened AudioMap
  import Text

  datatype Snippet = Snippet(before: string, highlight: string, after: string)

  datatype Locator = Locator(
    href: string, fragments: seq<string>, progression: Option<real>, totalProgression: Option<real>,
    text: Option<Snippet>)

  /** Where a locator's text was found in its document, and how surely. */
  datatype TextMatch = TextMatch(fraction: real, confidence: real)

  /** The answer of `ToAudioLocator`: a time when mapped, and whether the locator itself gave it. */
  datatype AudioSpot = AudioSpot(at: Option<real>, usedLocator: bool)

  /** `CleanLocatorHref`: no query, no fragment, no leading slash. */
  function CleanHref(href: string): string {
    var bare := Text.Before(Text.TrimSpace(href), {'#', '?'});
    if Text.HasPrefix(bare, "/") then bare[1..] else bare
  }

  /** The resource `LocatorWithTextAt` names: the first holding p, else the last. */
  function ResourceFor(rs: seq<Resource>, p: real, i: nat): (k: nat)
    requires i <= |rs| && rs != []
    ensures k < |rs|
    decreases |rs| - i
  {
    if i == |rs| then |rs| - 1
    else if rs[i].start <= p < rs[i].end then i
    else ResourceFor(rs, p, i + 1)
  }

  /** `LocatorWithTextAt`; a mapping without a reading order names no document. */
  function LocatorAt(m: Mapping, p: real, seg: Segment, atHead: bool, text: Snippet): Option<Locator> {
    if m.resources == [] then None
    else
      var r := m.resources[ResourceFor(m.resources, p, 0)];
      Some(Locator(
        r.href,
        if atHead && seg.fragment != "" && seg.href == r.href then [seg.fragment] else [],
        Some(Clamp01(Lerp(p, r.start, r.end, 0.0, 1.0))),
        Some(Clamp01(p)),
        if text == Snippet("", "", "") then None else Some(text)))
  }

  /** The loop of `toAudioInHref` over the reading order. */
  function ResourceNamed(rs: seq<Resource>, href: string, i: nat): (k: Option<nat>)
    requires i <= |rs|
    ensures k.Some? ==> i <= k.value < |rs| && CleanHref(rs[k.value].href) == href
                        && rs[k.value].start < rs[k.value].end
    ensures forall j | i <= j < |rs| && (k.None? || j < k.value) ::
              CleanHref(rs[j].href) == href ==> rs[j].end <= rs[j].start
    decreases |rs| - i
  {
    if i == |rs| then None
    else if CleanHref(rs[i].href) == href && rs[i].end > rs[i].start then Some(i)
    else ResourceNamed(rs, href, i + 1)
  }

  /** `toAudioInHref`; a mapping without a reading order falls back to the one segment naming the document. */
  function ToAudioInHref(m: Mapping, href: string, chapterFrac: real): Option<real> {
    var f := Clamp01(chapterFrac);
    match ResourceNamed(m.resources, href, 0)
    case Some(k) => ToAudio(m, Lerp(f, 0.0, 1.0, m.resources[k].start, m.resources[k].end))
    case None =>
      if m.resources != [] then None
      else
        var named := SegmentsNamed(m.segments, href);
        if |named| == 1 && named[0].audioEnd > named[0].audioStart
        then Some(Lerp(f, 0.0, 1.0, named[0].audioStart, named[0].audioEnd))
        else None
  }

  function SegmentsNamed(segs: seq<Segment>, href: string): seq<Segment> {
    if segs == [] then []
    else (if CleanHref(segs[0].href) == href then [segs[0]] else []) + SegmentsNamed(segs[1..], href)
  }

  /** Where in its chapter a locator points: its own progression, unless its text was found close to it. */
  function ChapterFraction(loc: Locator, found: Option<TextMatch>): Option<real> {
    var own := if loc.progression.Some? && 0.0 <= loc.progression.value <= 1.0 then loc.progression else None;
    if loc.text.Some? && loc.text.value != Snippet("", "", "") && found.Some? && found.value.confidence >= 0.65
       && (own.None? || Abs(found.value.fraction - own.value) <= 0.15)
    then Some(found.value.fraction)
    else own
  }

  /** `ToAudioLocator`; `found` is what matching the locator's text in its document answered, if anything. */
  function ToAudioLocator(m: Mapping, p: real, loc: Option<Locator>, found: Option<TextMatch>): AudioSpot {
    if loc.Some? && CleanHref(loc.value.href) != "" && ChapterFraction(loc.value, found).Some?
       && ChapterFraction(loc.value, found).value >= 0.0 then
      var at := ToAudioInHref(m, CleanHref(loc.value.href), ChapterFraction(loc.value, found).value);
      AudioSpot(at, at.Some?)
    else AudioSpot(ToAudio(m, p), false)
  }

  /** A reading order that covers the book: contiguous documents of positive width with distinct names. */
  ghost predicate Tiled(rs: seq<Resource>) {
    && rs != []
    && rs[0].start == 0.0 && rs[|rs| - 1].end == 1.0
    && (forall i | 0 <= i < |rs| :: rs[i].start < rs[i].end && CleanHref(rs[i].href) != "")
    && (forall i, j | 0 <= i < j < |rs| && j == i + 1 :: rs[i].end == rs[j].start)
    && (forall i, j | 0 <= i < j < |rs| :: CleanHref(rs[i].href) != CleanHref(rs[j].href))
  }

  lemma {:induction false} ResourceForHolds(rs: seq<Resource>, p: real, i: nat)
    requires Tiled(rs) && i <= |rs|
    requires i < |rs| ==> rs[i].start <= p
    requires i == |rs| ==> 1.0 <= p
    ensures var k := ResourceFor(rs, p, i); rs[k].start <= p && (p < rs[k].end || (k == |rs| - 1 && 1.0 <= p))
    decreases |rs| - i
  {
    if i == |rs| {
      assert rs[|rs| - 1].start < rs[|rs| - 1].end;
    } else if p >= rs[i].end {
      ResourceForHolds(rs, p, i + 1);
    }
  }

  lemma {:induction false} ResourceForMisses(rs: seq<Resource>, p: real, i: nat)
    requires Tiled(rs) && i <= |rs| && p < 0.0
    ensures ResourceFor(rs, p, i) == |rs| - 1
    decreases |rs| - i
  {
    if i < |rs| {
      StartsAreNonNegative(rs, i);
      ResourceForMisses(rs, p, i + 1);
    }
  }

  lemma {:induction false} StartsAreNonNegative(rs: seq<Resource>, i: nat)
    requires Tiled(rs) && i < |rs|
    ensures 0.0 <= rs[i].start
  {
    if i > 0 {
      StartsAreNonNegative(rs, i - 1);
      assert rs[i - 1].start < rs[i - 1].end && rs[i - 1].end == rs[i - 1 + 1].start;
    }
  }

  /** Where the progression a locator carries for p is read back on the whole-book axis. */
  function ReadBack(rs: seq<Resource>, p: real): real
    requires rs != []
  {
    if p < 0.0 then rs[|rs| - 1].start else Min(p, 1.0)
  }

  /** The progression inside [s, e], cut to the unit interval, reads back as v cut to [s, e]. */
  lemma FractionReadsBack(v: real, s: real, e: real)
    requires s < e
    ensures Lerp(Clamp01(Lerp(v, s, e, 0.0, 1.0)), 0.0, 1.0, s, e) == Max(s, Min(e, v))
  {
    LerpEnds(s, e, 0.0, 1.0);
    LerpEnds(0.0, 1.0, s, e);
    if v < s {
      LerpMonotone(v, s, s, e, 0.0, 1.0);
    } else if v > e {
      LerpMonotone(e, v, s, e, 0.0, 1.0);
    } else {
      LerpBounds(v, s, e, 0.0, 1.0);
      LerpInverse(v, s, e, 0.0, 1.0);
    }
  }

  lemma ResourceReadsBack(rs: seq<Resource>, p: real)
    requires Tiled(rs)
    ensures var r := rs[ResourceFor(rs, p, 0)]; Max(r.start, Min(r.end, p)) == ReadBack(rs, p)
  {
    if p < 0.0 {
      ResourceForMisses(rs, p, 0);
      StartsAreNonNegative(rs, |rs| - 1);
    } else {
      ResourceForHolds(rs, p, 0);
      EndsAreAtMostOne(rs, ResourceFor(rs, p, 0));
    }
  }

  lemma {:induction false} EndsAreAtMostOne(rs: seq<Resource>, i: nat)
    requires Tiled(rs) && i < |rs|
    ensures rs[i].end <= 1.0
    decreases |rs| - i
  {
    if i < |rs| - 1 {
      EndsAreAtMostOne(rs, i + 1);
      assert rs[i].end == rs[i + 1].start && rs[i + 1].start < rs[i + 1].end;
    }
  }

  /** In a tiled reading order a document's name leads back to that document. */
  lemma NameLeadsBack(rs: seq<Resource>, k: nat)
    requires Tiled(rs) && k < |rs|
    ensures ResourceNamed(rs, CleanHref(rs[k].href), 0) == Some(k)
  {
    assert rs[k].start < rs[k].end;
  }

  /** The text-free locator written for p, read back with any whole-book hint q: exactly the audio of p itself. */
  lemma LocatorRoundTrip(m: Mapping, p: real, q: real, seg: Segment, atHead: bool, found: Option<TextMatch>)
    requires Tiled(m.resources)
    ensures var loc := LocatorAt(m, p, seg, atHead, Snippet("", "", ""));
            var at := ToAudio(m, ReadBack(m.resources, p));
            ToAudioLocator(m, q, loc, found) == AudioSpot(at, at.Some?)
  {
    var rs := m.resources;
    var k := ResourceFor(rs, p, 0);
    var r := rs[k];
    var f := Clamp01(Lerp(p, r.start, r.end, 0.0, 1.0));
    assert r.start < r.end && CleanHref(r.href) != "";
    assert Clamp01(f) == f;
    NameLeadsBack(rs, k);
    assert Lerp(f, 0.0, 1.0, r.start, r.end) == ReadBack(rs, p) by {
      FractionReadsBack(p, r.start, r.end);
      ResourceReadsBack(rs, p);
    }
    var loc := LocatorAt(m, p, seg, atHead, Snippet("", "", "")).value;
    assert loc.href == r.href && ChapterFraction(loc, found) == Some(f);
    assert ToAudioInHref(m, CleanHref(r.href), f) == ToAudio(m, ReadBack(rs, p));
  }

  /** A listening position carried into a full narrative and back through its locator is the position itself. */
  lemma ListeningPositionSurvives(m: Mapping, t: real, q: real, atHead: bool, found: Option<TextMatch>)
    requires WellFormed(m) && m.fullNarrative && Tiled(m.resources)
    requires CoverStart(m, Audio) <= t <= CoverEnd(m, Audio)
    ensures ToBook(m, t).Some?
    ensures var spot := ToBook(m, t).value;
            ToAudioLocator(m, q, LocatorAt(m, spot.progression, spot.segment, atHead, Snippet("", "", "")), found)
            == AudioSpot(Some(t), true)
  {
    ToBookCrosses(m, t);
    CrossInverse(m, t, Audio);
    FullNarrativeInverse(m, t, Cross(m, t, Audio));
    LocatorRoundTrip(m, ToBook(m, t).value.progression, q, ToBook(m, t).value.segment, atHead, found);
  }
}
