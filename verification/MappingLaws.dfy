/** What a mapping and a locator answer, in the numbers of their own segments and documents
  (internal/audiomap/audiomap.go).
*/
module MappingLaws {
  import opened Wrappers
  import opened AudioMap
  import opened Locator
  import Text

  // ----- straight lines

  /** A line is straight: rise over run is the same everywhere; one without a run stays at its start. */
  lemma LineIsStraight(v: real, x0: real, x1: real, y0: real, y1: real)
    ensures x0 < x1 ==> (Lerp(v, x0, x1, y0, y1) - y0) * (x1 - x0) == (v - x0) * (y1 - y0)
    ensures x1 <= x0 ==> Lerp(v, x0, x1, y0, y1) == y0
  {
    if x0 < x1 {
      var q, w, h := (v - x0) / (x1 - x0), x1 - x0, y1 - y0;
      assert q * w == v - x0;
      assert (q * h) * w == (q * w) * h;
    }
  }

  /** Only one value is where the straight line says. */
  lemma OnlyOnTheLine(p: real, q: real, w: real, c: real)
    requires w > 0.0 && p * w == c && q * w == c
    ensures p == q
  {
    if p < q { ProductIncreases(p, q, w); }
    if q < p { ProductIncreases(q, p, w); }
  }

  /** The value q lies on the line through (x0, y0) and (x1, y1) at v. */
  ghost predicate OnLine(v: real, x0: real, x1: real, y0: real, y1: real, q: real) {
    (q - y0) * (x1 - x0) == (v - x0) * (y1 - y0)
  }

  lemma OnLineIsLerp(v: real, x0: real, x1: real, y0: real, y1: real, q: real)
    requires x0 < x1
    ensures OnLine(v, x0, x1, y0, y1, q) <==> q == Lerp(v, x0, x1, y0, y1)
  {
    LineIsStraight(v, x0, x1, y0, y1);
    if OnLine(v, x0, x1, y0, y1, q) {
      OnlyOnTheLine(q - y0, Lerp(v, x0, x1, y0, y1) - y0, x1 - x0, (v - x0) * (y1 - y0));
    }
  }

  // ----- the two directions of a mapping

  /** The audio time t belongs to segment i: inside it, or up to a second past the very end. */
  ghost predicate AudioIn(m: Mapping, i: nat, t: real)
    requires i < |m.segments|
  {
    var s := m.segments[i];
    s.audioStart <= t && (t < s.audioEnd || (i == |m.segments| - 1 && t <= s.audioEnd + 1.0))
  }

  ghost predicate BookIn(m: Mapping, i: nat, p: real)
    requires i < |m.segments|
  {
    var s := m.segments[i];
    s.bookStart <= p && (p < s.bookEnd || (i == |m.segments| - 1 && p <= s.bookEnd))
  }

  lemma AudioSegmentIs(m: Mapping, i: nat, t: real)
    requires WellFormed(m) && i < |m.segments| && AudioIn(m, i, t)
    ensures SegmentAt(m, t, Audio) == Some(i)
  {
    WithinCoverage(m, i, Audio);
    SegmentAtDomain(m, t, Audio);
    if t <= m.segments[|m.segments| - 1].audioEnd {
      AtMostOneHolds(m, i, SegmentAt(m, t, Audio).value, t, Audio);
    }
  }

  /** A time is carried along the straight line of its own segment, a time past the end from the end; a partial
      narrative stops at 0.998. */
  lemma ToBookIs(m: Mapping, i: nat, t: real, q: real)
    requires WellFormed(m) && i < |m.segments| && AudioIn(m, i, t)
    requires var s := m.segments[i];
             OnLine(if t <= s.audioEnd then t else s.audioEnd, s.audioStart, s.audioEnd, s.bookStart, s.bookEnd, q)
    ensures ToBook(m, t) == Some(Spot(if m.fullNarrative || q <= 0.998 then q else 0.998, m.segments[i]))
  {
    AudioSegmentIs(m, i, t);
    var s := m.segments[i];
    assert Lo(s, Audio) < Hi(s, Audio);
    OnLineIsLerp(if t <= s.audioEnd then t else s.audioEnd, s.audioStart, s.audioEnd, s.bookStart, s.bookEnd, q);
  }

  lemma ToAudioIs(m: Mapping, i: nat, p: real, q: real)
    requires WellFormed(m) && i < |m.segments| && BookIn(m, i, p)
    requires var s := m.segments[i]; OnLine(p, s.bookStart, s.bookEnd, s.audioStart, s.audioEnd, q)
    ensures ToAudio(m, p) == Some(q)
  {
    WithinCoverage(m, i, Book);
    SegmentAtDomain(m, p, Book);
    AtMostOneHolds(m, i, SegmentAt(m, p, Book).value, p, Book);
    var s := m.segments[i];
    assert Lo(s, Book) < Hi(s, Book);
    OnLineIsLerp(p, s.bookStart, s.bookEnd, s.audioStart, s.audioEnd, q);
  }

  lemma ShareOfTheWhole(share: real, duration: real)
    requires duration > 0.0 && 0.0 <= share <= 1.0
    ensures 0.0 <= share * duration <= duration
    ensures OnLine(share * duration, 0.0, duration, 0.0, 1.0, share)
    ensures OnLine(share, 0.0, 1.0, 0.0, duration, share * duration)
  {
    if share < 1.0 { ProductIncreases(share, 1.0, duration); }
    if 0.0 < share { ProductIncreases(0.0, share, duration); }
  }

  lemma LinearCrosses(m: Mapping, t: real, share: real)
    requires WellFormed(m) && |m.segments| == 1 && m.fullNarrative
    requires m.segments[0].audioStart == 0.0 && m.segments[0].bookStart == 0.0 && m.segments[0].bookEnd == 1.0
    requires 0.0 <= share <= 1.0 && 0.0 <= t <= m.segments[0].audioEnd
    requires OnLine(t, 0.0, m.segments[0].audioEnd, 0.0, 1.0, share)
    requires OnLine(share, 0.0, 1.0, 0.0, m.segments[0].audioEnd, t)
    ensures ToBook(m, t) == Some(Spot(share, m.segments[0])) && ToAudio(m, share) == Some(t)
  {
    ToBookIs(m, 0, t, share);
    ToAudioIs(m, 0, share, t);
  }

  /** The linear mapping: a share of the audio is that share of the book, from end to end. */
  lemma LinearIs(resources: seq<Resource>, duration: real, share: real)
    requires duration > 0.0 && 0.0 <= share <= 1.0
    ensures var m := LinearMapping(resources, duration);
            && m.duration == duration && m.resources == resources && |m.segments| == 1
            && m.coversFirst && m.coversLast && m.fullNarrative && m.linear
            && ToBook(m, share * duration) == Some(Spot(share, m.segments[0]))
            && ToAudio(m, share) == Some(share * duration)
  {
    LinearIsWellFormed(resources, duration);
    ShareOfTheWhole(share, duration);
    LinearCrosses(LinearMapping(resources, duration), share * duration, share);
  }

  // ----- names of documents

  lemma {:induction false} BeforeStops(bare: string, c: char, rest: string, stops: set<char>)
    requires c in stops && forall i | 0 <= i < |bare| :: bare[i] !in stops
    ensures Text.Before(bare + [c] + rest, stops) == bare && Text.Before(bare, stops) == bare
  {
    if bare == "" {
      assert bare + [c] + rest == [c] + rest;
    } else {
      BeforeStops(bare[1..], c, rest, stops);
      assert (bare + [c] + rest)[1..] == bare[1..] + [c] + rest;
    }
  }

  /** Trimming on the right never passes a character that is no white space. */
  lemma {:induction false} TrimRightKeeps(s: string, c: char, rest: string)
    requires !Text.IsSpace(c)
    ensures exists more :: Text.TrimRight(s + [c] + rest) == s + [c] + more
  {
    var t := s + [c] + rest;
    if rest == "" {
      assert t == s + [c] && t[|t| - 1] == c;
      assert Text.TrimRight(t) == s + [c] + "";
    } else if Text.IsSpace(t[|t| - 1]) {
      assert t[..|t| - 1] == s + [c] + rest[..|rest| - 1];
      TrimRightKeeps(s, c, rest[..|rest| - 1]);
    } else {
      assert Text.TrimRight(t) == s + [c] + rest;
    }
  }

  /** A plain name: no query, no fragment, no white space around it, no leading slash. */
  predicate PlainName(bare: string) {
    && bare != "" && !Text.IsSpace(bare[0]) && !Text.IsSpace(bare[|bare| - 1]) && bare[0] != '/'
    && forall i | 0 <= i < |bare| :: bare[i] != '#' && bare[i] != '?'
  }

  lemma NameThenStop(bare: string, c: char, rest: string)
    requires PlainName(bare) && (c == '#' || c == '?')
    ensures CleanHref(bare + [c] + rest) == bare
  {
    TrimRightKeeps(bare, c, rest);
    var more :| Text.TrimRight(bare + [c] + rest) == bare + [c] + more;
    assert (bare + [c] + rest)[0] == bare[0];
    BeforeStops(bare, c, more, {'#', '?'});
  }

  lemma NameAlone(bare: string)
    requires PlainName(bare)
    ensures CleanHref(bare) == bare && CleanHref("/" + bare) == bare
    ensures CleanHref(" " + bare) == bare && CleanHref(bare + " ") == bare
  {
    BeforeStops(bare, '#', "", {'#', '?'});
    BeforeStops("/" + bare, '#', "", {'#', '?'});
    assert !Text.IsSpace('/') && Text.IsSpace(' ');
    assert ("/" + bare)[|bare|] == bare[|bare| - 1] && ("/" + bare)[1..] == bare;
    assert (" " + bare)[1..] == bare && (" " + bare)[0] == ' ';
    assert (bare + " ")[..|bare|] == bare && (bare + " ")[0] == bare[0] && (bare + " ")[|bare|] == ' ';
    assert Text.TrimRight(bare) == bare && Text.TrimLeft(bare) == bare;
  }

  // ----- what a locator says, and what it is read as

  /** The document at k holds p, and no earlier one does. */
  ghost predicate FirstHolding(rs: seq<Resource>, p: real, k: nat)
    requires k < |rs|
  {
    rs[k].start <= p < rs[k].end && forall i | 0 <= i < k :: !(rs[i].start <= p < rs[i].end)
  }

  lemma {:induction false} ResourceForIs(rs: seq<Resource>, p: real, i: nat, k: nat)
    requires i <= k < |rs| && FirstHolding(rs, p, k)
    ensures ResourceFor(rs, p, i) == k
    decreases k - i
  {
    if i < k { ResourceForIs(rs, p, i + 1, k); }
  }

  lemma {:induction false} ResourceForNone(rs: seq<Resource>, p: real, i: nat)
    requires rs != [] && i <= |rs| && forall k | 0 <= k < |rs| :: !(rs[k].start <= p < rs[k].end)
    ensures ResourceFor(rs, p, i) == |rs| - 1
    decreases |rs| - i
  {
    if i < |rs| { ResourceForNone(rs, p, i + 1); }
  }

  /** The locator written for p: the document that holds it, p's place in it, p itself, the fragment of a chapter's
      head, and the text around it. */
  lemma LocatorSays(m: Mapping, p: real, k: nat, seg: Segment, atHead: bool, text: Snippet)
    requires k < |m.resources| && FirstHolding(m.resources, p, k) && 0.0 <= p <= 1.0
    ensures LocatorAt(m, p, seg, atHead, text).Some?
    ensures var loc, r := LocatorAt(m, p, seg, atHead, text).value, m.resources[k];
            && loc.href == r.href && loc.totalProgression == Some(p) && loc.progression.Some?
            && loc.progression.value * (r.end - r.start) == p - r.start
            && (loc.fragments == [seg.fragment] || loc.fragments == [])
            && (loc.fragments != [] <==> atHead && seg.fragment != "" && seg.href == r.href)
            && (loc.text == Some(text) || loc.text == None)
            && (loc.text.None? <==> text.before == "" && text.highlight == "" && text.after == "")
  {
    ResourceForIs(m.resources, p, 0, k);
    var r := m.resources[k];
    LineIsStraight(p, r.start, r.end, 0.0, 1.0);
    LerpBounds(p, r.start, r.end, 0.0, 1.0);
  }

  /** The place f of the way from s to e. */
  function Along(f: real, s: real, e: real): real { s + f * (e - s) }

  lemma UnitLine(f: real, s: real, e: real)
    ensures Lerp(f, 0.0, 1.0, s, e) == Along(f, s, e)
  {
    assert (f - 0.0) / (1.0 - 0.0) == f;
  }

  lemma OnTheDocument(m: Mapping, href: string, k: nat, f: real)
    requires ResourceNamed(m.resources, href, 0) == Some(k) && 0.0 <= f <= 1.0
    ensures ToAudioInHref(m, href, f) == ToAudio(m, Lerp(f, 0.0, 1.0, m.resources[k].start, m.resources[k].end))
  {
    assert Clamp01(f) == f;
  }

  /** A place in a document is that share of the way from the document's start to its end. */
  lemma InDocument(m: Mapping, href: string, k: nat, f: real)
    requires ResourceNamed(m.resources, href, 0) == Some(k) && 0.0 <= f <= 1.0
    ensures ToAudioInHref(m, href, f)
            == ToAudio(m, Along(f, m.resources[k].start, m.resources[k].end))
  {
    OnTheDocument(m, href, k, f);
    UnitLine(f, m.resources[k].start, m.resources[k].end);
  }

  /** A locator without text is read by its own progression in its document. */
  lemma OwnPlaceIsRead(m: Mapping, p: real, loc: Locator, k: nat, f: real, found: Option<TextMatch>)
    requires CleanHref(loc.href) != "" && ResourceNamed(m.resources, CleanHref(loc.href), 0) == Some(k)
    requires loc.progression == Some(f) && 0.0 <= f <= 1.0
    requires loc.text.None? || found.None?
    ensures var at := ToAudio(m, Along(f, m.resources[k].start, m.resources[k].end));
            ToAudioLocator(m, p, Some(loc), found) == AudioSpot(at, at.Some?)
  {
    InDocument(m, CleanHref(loc.href), k, f);
  }

  /** The place where the text was found is taken instead, when it is sure enough and not far from the locator's own. */
  ghost predicate TextIsTaken(loc: Locator, found: TextMatch) {
    && loc.text.Some?
    && (loc.text.value.before != "" || loc.text.value.highlight != "" || loc.text.value.after != "")
    && 100.0 * found.confidence >= 65.0
    && (loc.progression.Some? && 0.0 <= loc.progression.value <= 1.0 ==>
          -15.0 <= 100.0 * (found.fraction - loc.progression.value) <= 15.0)
  }

  /** So a locator with text is read at the text's place by that rule... */
  lemma TextPlaceIsRead(m: Mapping, p: real, loc: Locator, k: nat, found: TextMatch)
    requires CleanHref(loc.href) != "" && ResourceNamed(m.resources, CleanHref(loc.href), 0) == Some(k)
    requires 0.0 <= found.fraction <= 1.0 && TextIsTaken(loc, found)
    ensures var at := ToAudio(m, Along(found.fraction, m.resources[k].start, m.resources[k].end));
            ToAudioLocator(m, p, Some(loc), Some(found)) == AudioSpot(at, at.Some?)
  {
    PlaceTaken(loc, found);
    ReadInDocument(m, p, loc, k, found.fraction, Some(found));
  }

  /** ...and at its own place where the rule refuses the text's; without a place of its own the progression through the
      whole book decides. */
  lemma TextIsPassedOver(m: Mapping, p: real, loc: Locator, k: nat, f: real, found: TextMatch)
    requires CleanHref(loc.href) != "" && ResourceNamed(m.resources, CleanHref(loc.href), 0) == Some(k)
    requires !TextIsTaken(loc, found)
    ensures loc.progression == Some(f) && 0.0 <= f <= 1.0 ==>
              var at := ToAudio(m, Along(f, m.resources[k].start, m.resources[k].end));
              ToAudioLocator(m, p, Some(loc), Some(found)) == AudioSpot(at, at.Some?)
    ensures !(loc.progression.Some? && 0.0 <= loc.progression.value <= 1.0) ==>
              ToAudioLocator(m, p, Some(loc), Some(found)) == AudioSpot(ToAudio(m, p), false)
  {
    PlaceTaken(loc, found);
    if loc.progression == Some(f) && 0.0 <= f <= 1.0 { ReadInDocument(m, p, loc, k, f, Some(found)); }
  }

  /** A text found beyond the document's end is taken for its end, one found before its start for nothing. */
  lemma OddTextPlaces(m: Mapping, p: real, loc: Locator, k: nat, found: TextMatch)
    requires CleanHref(loc.href) != "" && ResourceNamed(m.resources, CleanHref(loc.href), 0) == Some(k)
    requires TextIsTaken(loc, found)
    ensures found.fraction < 0.0 ==> ToAudioLocator(m, p, Some(loc), Some(found)) == AudioSpot(ToAudio(m, p), false)
    ensures found.fraction > 1.0 ==>
              var at := ToAudio(m, Along(1.0, m.resources[k].start, m.resources[k].end));
              ToAudioLocator(m, p, Some(loc), Some(found)) == AudioSpot(at, at.Some?)
  {
    PlaceTaken(loc, found);
    if found.fraction > 1.0 {
      UnitLine(1.0, m.resources[k].start, m.resources[k].end);
      assert Clamp01(found.fraction) == 1.0;
    }
  }

  lemma PlaceTaken(loc: Locator, found: TextMatch)
    ensures ChapterFraction(loc, Some(found))
            == if TextIsTaken(loc, found) then Some(found.fraction)
               else if loc.progression.Some? && 0.0 <= loc.progression.value <= 1.0 then loc.progression else None
  {
  }

  lemma ReadInDocument(m: Mapping, p: real, loc: Locator, k: nat, f: real, found: Option<TextMatch>)
    requires CleanHref(loc.href) != "" && ResourceNamed(m.resources, CleanHref(loc.href), 0) == Some(k)
    requires ChapterFraction(loc, found) == Some(f) && 0.0 <= f <= 1.0
    ensures var at := ToAudio(m, Along(f, m.resources[k].start, m.resources[k].end));
            ToAudioLocator(m, p, Some(loc), found) == AudioSpot(at, at.Some?)
  {
    InDocument(m, CleanHref(loc.href), k, f);
  }

  /** No locator, one without a name, or one that says nothing of a place: the whole-book progression decides. */
  lemma WholeBookDecides(m: Mapping, p: real, loc: Option<Locator>, found: Option<TextMatch>)
    requires loc.None? || CleanHref(loc.value.href) == ""
             || (found.None? && !(loc.value.progression.Some? && 0.0 <= loc.value.progression.value <= 1.0))
    ensures ToAudioLocator(m, p, loc, found) == AudioSpot(ToAudio(m, p), false)
  {
  }

  lemma {:induction false} OneNamed(segs: seq<Segment>, href: string, i: nat)
    requires i < |segs| && forall j | 0 <= j < |segs| :: CleanHref(segs[j].href) == href <==> j == i
    ensures SegmentsNamed(segs, href) == [segs[i]]
  {
    if i == 0 {
      NoneNamed(segs[1..], href);
    } else {
      OneNamed(segs[1..], href, i - 1);
    }
  }

  lemma {:induction false} NoneNamed(segs: seq<Segment>, href: string)
    requires forall j | 0 <= j < |segs| :: CleanHref(segs[j].href) != href
    ensures SegmentsNamed(segs, href) == []
  {
    if segs != [] { NoneNamed(segs[1..], href); }
  }

  lemma OnTheOneSegment(m: Mapping, href: string, i: nat, f: real)
    requires m.resources == [] && i < |m.segments| && 0.0 <= f <= 1.0
    requires SegmentsNamed(m.segments, href) == [m.segments[i]] && m.segments[i].audioStart < m.segments[i].audioEnd
    ensures ToAudioInHref(m, href, f)
            == Some(Lerp(f, 0.0, 1.0, m.segments[i].audioStart, m.segments[i].audioEnd))
  {
    assert Clamp01(f) == f;
  }

  /** Without a reading order the one segment of that name is taken for the document. */
  lemma InTheOneSegment(m: Mapping, href: string, i: nat, f: real)
    requires m.resources == [] && i < |m.segments| && 0.0 <= f <= 1.0
    requires forall j | 0 <= j < |m.segments| :: CleanHref(m.segments[j].href) == href <==> j == i
    requires m.segments[i].audioStart < m.segments[i].audioEnd
    ensures ToAudioInHref(m, href, f)
            == Some(Along(f, m.segments[i].audioStart, m.segments[i].audioEnd))
  {
    OneNamed(m.segments, href, i);
    OnTheOneSegment(m, href, i, f);
    UnitLine(f, m.segments[i].audioStart, m.segments[i].audioEnd);
  }

  /** A name no document carries, or that several segments carry, gives no time. */
  lemma NotInTheBook(m: Mapping, href: string, f: real)
    requires m.resources != [] ==> ResourceNamed(m.resources, href, 0) == None
    requires m.resources == [] ==> |SegmentsNamed(m.segments, href)| != 1
    ensures ToAudioInHref(m, href, f) == None
  {
  }
}
