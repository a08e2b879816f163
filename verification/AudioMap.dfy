/** The piecewise-linear map between seconds of audio and progression through the book
  (internal/audiomap/audiomap.go; the same code serves internal/audiobookshelf/mapping.go).
*/
module AudioMap {
  import opened Wrappers

  datatype Resource = Resource(href: string, start: real, end: real)

  /** One stretch of audio paired with one stretch of the book. */
  datatype Segment = Segment(
    name: string, title: string,
    audioStart: real, audioEnd: real, bookStart: real, bookEnd: real,
    href: string, fragment: string, approx: bool)

  datatype Mapping = Mapping(
    duration: real, segments: seq<Segment>, resources: seq<Resource>,
    coversFirst: bool, coversLast: bool, fullNarrative: bool, linear: bool)

  /** The two axes of a mapping. */
  datatype Axis = Audio | Book

  function Other(x: Axis): Axis { if x.Audio? then Book else Audio }

  function Lo(s: Segment, x: Axis): real { if x.Audio? then s.audioStart else s.bookStart }

  function Hi(s: Segment, x: Axis): real { if x.Audio? then s.audioEnd else s.bookEnd }

  function Min(a: real, b: real): real { if a <= b then a else b }

  function Max(a: real, b: real): real { if a <= b then b else a }

  function Abs(a: real): real { if a < 0.0 then -a else a }

  function Clamp01(v: real): real { Max(0.0, Min(1.0, v)) }

  function Lerp(v: real, x0: real, x1: real, y0: real, y1: real): real {
    if x1 <= x0 then y0 else y0 + (v - x0) / (x1 - x0) * (y1 - y0)
  }

  /** `LinearMapping`: the whole audiobook against the whole book. */
  function LinearMapping(resources: seq<Resource>, duration: real): Mapping {
    Mapping(duration, [Segment("whole book", "", 0.0, duration, 0.0, 1.0, "", "", false)],
            resources, true, true, true, true)
  }

  /** Where coverage starts and ends on one axis (`Coverage`). */
  function CoverStart(m: Mapping, x: Axis): real {
    if m.segments == [] then 0.0 else Lo(m.segments[0], x)
  }

  function CoverEnd(m: Mapping, x: Axis): real {
    if m.segments == [] then 0.0 else Hi(m.segments[|m.segments| - 1], x)
  }

  /** The loop of `segmentAt`: the first segment at or after i that holds v. */
  function Search(segs: seq<Segment>, v: real, x: Axis, i: nat): Option<nat>
    requires i <= |segs|
    decreases |segs| - i
  {
    if i == |segs| then None
    else if v >= Lo(segs[i], x) && (v < Hi(segs[i], x) || (i == |segs| - 1 && v <= Hi(segs[i], x))) then Some(i)
    else Search(segs, v, x, i + 1)
  }

  /** `segmentAt`: an audio time up to one second past the end still belongs to the last segment. */
  function SegmentAt(m: Mapping, v: real, x: Axis): (r: Option<nat>)
    ensures r.Some? ==> r.value < |m.segments|
  {
    var found := Search(m.segments, v, x, 0);
    var n := |m.segments|;
    SearchInRange(m.segments, v, x, 0);
    if found.Some? then found
    else if x.Audio? && n > 0 && m.segments[n - 1].audioEnd < v <= m.segments[n - 1].audioEnd + 1.0 then Some(n - 1)
    else None
  }

  lemma SearchInRange(segs: seq<Segment>, v: real, x: Axis, i: nat)
    requires i <= |segs|
    ensures var r := Search(segs, v, x, i); r.Some? ==> i <= r.value < |segs|
    decreases |segs| - i
  {
  }

  datatype Spot = Spot(progression: real, segment: Segment)

  /** A partial narrative never reports a progression that would read as finished. */
  const PARTIAL_CAP: real := 0.998

  function ToBook(m: Mapping, t: real): Option<Spot> {
    match SegmentAt(m, t, Audio)
    case None => None
    case Some(i) =>
      var s := m.segments[i];
      var p := Lerp(Min(t, s.audioEnd), s.audioStart, s.audioEnd, s.bookStart, s.bookEnd);
      Some(Spot(if m.fullNarrative then p else Min(p, PARTIAL_CAP), s))
  }

  function ToAudio(m: Mapping, p: real): Option<real> {
    match SegmentAt(m, p, Book)
    case None => None
    case Some(i) =>
      var s := m.segments[i];
      Some(Lerp(p, s.bookStart, s.bookEnd, s.audioStart, s.audioEnd))
  }

  /** What `Align` promises of every mapping it returns. */
  ghost predicate WellFormed(m: Mapping) {
    && |m.segments| > 0
    && m.duration > 0.0
    && 0.0 <= CoverStart(m, Book) && CoverEnd(m, Book) <= 1.0
    && 0.0 <= CoverStart(m, Audio) && CoverEnd(m, Audio) <= m.duration + 1.0
    && (forall x: Axis, i | 0 <= i < |m.segments| :: Lo(m.segments[i], x) < Hi(m.segments[i], x))
    && (forall x: Axis, i, j | 0 <= i < j < |m.segments| && j == i + 1 :: Hi(m.segments[i], x) == Lo(m.segments[j], x))
  }

  lemma LinearIsWellFormed(resources: seq<Resource>, duration: real)
    ensures WellFormed(LinearMapping(resources, duration)) <==> duration > 0.0
  {
    var m := LinearMapping(resources, duration);
    if duration > 0.0 {
    } else {
      assert !(m.duration > 0.0);
    }
  }

  // ----- straight lines

  lemma LerpMonotone(u: real, v: real, x0: real, x1: real, y0: real, y1: real)
    requires x0 < x1 && y0 < y1 && u < v
    ensures Lerp(u, x0, x1, y0, y1) < Lerp(v, x0, x1, y0, y1)
  {
    var a, b, w, h := u - x0, v - x0, x1 - x0, y1 - y0;
    var q, r := a / w, b / w;
    QuotientIncreases(a, b, w);
    ProductIncreases(q, r, h);
    assert Lerp(u, x0, x1, y0, y1) == y0 + q * h;
    assert Lerp(v, x0, x1, y0, y1) == y0 + r * h;
  }

  lemma QuotientIncreases(a: real, b: real, w: real)
    requires a < b && w > 0.0
    ensures a / w < b / w
  {
    var q, r := a / w, b / w;
    assert q * w == a && r * w == b;
    assert q >= r ==> (q - r) * w >= 0.0;
  }

  lemma ProductIncreases(a: real, b: real, h: real)
    requires a < b && h > 0.0
    ensures a * h < b * h
  {
    assert (b - a) * h > 0.0;
  }

  lemma LerpEnds(x0: real, x1: real, y0: real, y1: real)
    requires x0 < x1
    ensures Lerp(x0, x0, x1, y0, y1) == y0
    ensures Lerp(x1, x0, x1, y0, y1) == y1
  {
    assert (x1 - x0) / (x1 - x0) == 1.0;
  }

  lemma LerpBounds(v: real, x0: real, x1: real, y0: real, y1: real)
    requires x0 < x1 && y0 < y1 && x0 <= v <= x1
    ensures y0 <= Lerp(v, x0, x1, y0, y1) <= y1
    ensures v < x1 ==> Lerp(v, x0, x1, y0, y1) < y1
  {
    LerpEnds(x0, x1, y0, y1);
    if x0 < v { LerpMonotone(x0, v, x0, x1, y0, y1); }
    if v < x1 { LerpMonotone(v, x1, x0, x1, y0, y1); }
  }

  lemma LerpInverse(v: real, x0: real, x1: real, y0: real, y1: real)
    requires x0 < x1 && y0 < y1
    ensures Lerp(Lerp(v, x0, x1, y0, y1), y0, y1, x0, x1) == v
  {
    var w, h := x1 - x0, y1 - y0;
    var q := (v - x0) / w;
    assert q * h / h == q;
    assert q * w == v - x0;
  }

  // ----- which segment holds a value

  ghost predicate Holds(m: Mapping, i: nat, v: real, x: Axis)
    requires i < |m.segments|
  {
    Lo(m.segments[i], x) <= v && (v < Hi(m.segments[i], x) || (i == |m.segments| - 1 && v <= Hi(m.segments[i], x)))
  }

  /** Segments follow one another on both axes. */
  lemma {:induction false} Ordered(m: Mapping, i: nat, j: nat, x: Axis)
    requires WellFormed(m) && i < j < |m.segments|
    ensures Hi(m.segments[i], x) <= Lo(m.segments[j], x)
    decreases j - i
  {
    assert Hi(m.segments[i], x) == Lo(m.segments[i + 1], x);
    if i + 1 < j {
      Ordered(m, i + 1, j, x);
      assert Lo(m.segments[i + 1], x) < Hi(m.segments[i + 1], x);
    }
  }

  lemma AtMostOneHolds(m: Mapping, i: nat, j: nat, v: real, x: Axis)
    requires WellFormed(m) && i < |m.segments| && j < |m.segments|
    requires Holds(m, i, v, x) && Holds(m, j, v, x)
    ensures i == j
  {
    if i < j { Ordered(m, i, j, x); }
    if j < i { Ordered(m, j, i, x); }
  }

  lemma {:induction false} SearchFinds(m: Mapping, i: nat, v: real, x: Axis)
    requires WellFormed(m) && i < |m.segments|
    requires Lo(m.segments[i], x) <= v <= CoverEnd(m, x)
    ensures var r := Search(m.segments, v, x, i); r.Some? && r.value < |m.segments| && Holds(m, r.value, v, x)
    decreases |m.segments| - i
  {
    if !Holds(m, i, v, x) {
      assert Hi(m.segments[i], x) == Lo(m.segments[i + 1], x);
      SearchFinds(m, i + 1, v, x);
    }
  }

  lemma {:induction false} SearchMisses(m: Mapping, i: nat, v: real, x: Axis)
    requires WellFormed(m) && i <= |m.segments|
    requires v < CoverStart(m, x) || v > CoverEnd(m, x)
    ensures Search(m.segments, v, x, i) == None
    decreases |m.segments| - i
  {
    if i < |m.segments| {
      SearchMisses(m, i + 1, v, x);
      WithinCoverage(m, i, x);
    }
  }

  lemma WithinCoverage(m: Mapping, i: nat, x: Axis)
    requires WellFormed(m) && i < |m.segments|
    ensures CoverStart(m, x) <= Lo(m.segments[i], x) < Hi(m.segments[i], x) <= CoverEnd(m, x)
  {
    if i > 0 { Ordered(m, 0, i, x); }
    if i < |m.segments| - 1 { Ordered(m, i, |m.segments| - 1, x); }
  }

  /** A segment is found exactly on the coverage, plus one second of audio past its end. */
  lemma SegmentAtDomain(m: Mapping, v: real, x: Axis)
    requires WellFormed(m)
    ensures SegmentAt(m, v, x).Some? <==>
            CoverStart(m, x) <= v <= CoverEnd(m, x) + (if x.Audio? then 1.0 else 0.0)
    ensures CoverStart(m, x) <= v <= CoverEnd(m, x) ==>
            var r := SegmentAt(m, v, x); r.Some? && Holds(m, r.value, v, x)
    ensures v > CoverEnd(m, x) && SegmentAt(m, v, x).Some? ==> SegmentAt(m, v, x).value == |m.segments| - 1
  {
    if CoverStart(m, x) <= v <= CoverEnd(m, x) {
      SearchFinds(m, 0, v, x);
    } else {
      SearchMisses(m, 0, v, x);
      CoverPositive(m, x);
    }
  }

  lemma CoverPositive(m: Mapping, x: Axis)
    requires WellFormed(m)
    ensures CoverStart(m, x) < CoverEnd(m, x)
  {
    var n := |m.segments|;
    assert Lo(m.segments[0], x) < Hi(m.segments[0], x);
    if n > 1 { Ordered(m, 0, n - 1, x); assert Lo(m.segments[n - 1], x) < Hi(m.segments[n - 1], x); }
  }

  // ----- crossing from one axis to the other, in either direction

  /** The straight crossing both `ToBook` and `ToAudio` make inside coverage. */
  ghost function Cross(m: Mapping, v: real, x: Axis): real
    requires WellFormed(m) && CoverStart(m, x) <= v <= CoverEnd(m, x)
  {
    SegmentAtDomain(m, v, x);
    var s := m.segments[SegmentAt(m, v, x).value];
    Lerp(v, Lo(s, x), Hi(s, x), Lo(s, Other(x)), Hi(s, Other(x)))
  }

  /** A crossing lands in the same segment on the other axis. */
  lemma CrossStays(m: Mapping, v: real, x: Axis)
    requires WellFormed(m) && CoverStart(m, x) <= v <= CoverEnd(m, x)
    ensures SegmentAt(m, v, x).Some? && Holds(m, SegmentAt(m, v, x).value, Cross(m, v, x), Other(x))
    ensures CoverStart(m, Other(x)) <= Cross(m, v, x) <= CoverEnd(m, Other(x))
  {
    SegmentAtDomain(m, v, x);
    var i := SegmentAt(m, v, x).value;
    var s, y := m.segments[i], Other(x);
    assert Lo(s, x) < Hi(s, x) && Lo(s, y) < Hi(s, y);
    LerpBounds(v, Lo(s, x), Hi(s, x), Lo(s, y), Hi(s, y));
    if i > 0 { Ordered(m, 0, i, y); assert Lo(m.segments[0], y) < Hi(m.segments[0], y); }
    if i < |m.segments| - 1 {
      Ordered(m, i, |m.segments| - 1, y);
      assert Lo(m.segments[|m.segments| - 1], y) < Hi(m.segments[|m.segments| - 1], y);
    }
  }

  lemma CrossIncreasing(m: Mapping, u: real, v: real, x: Axis)
    requires WellFormed(m) && CoverStart(m, x) <= u < v <= CoverEnd(m, x)
    ensures Cross(m, u, x) < Cross(m, v, x)
  {
    CrossStays(m, u, x);
    CrossStays(m, v, x);
    SegmentAtDomain(m, u, x);
    SegmentAtDomain(m, v, x);
    var i, j, y := SegmentAt(m, u, x).value, SegmentAt(m, v, x).value, Other(x);
    if i < j {
      Ordered(m, i, j, y);
    } else if j < i {
      Ordered(m, j, i, x);
      assert false;
    } else {
      var s := m.segments[i];
      assert Lo(s, x) < Hi(s, x) && Lo(s, y) < Hi(s, y);
      LerpMonotone(u, v, Lo(s, x), Hi(s, x), Lo(s, y), Hi(s, y));
    }
  }

  lemma CrossInverse(m: Mapping, v: real, x: Axis)
    requires WellFormed(m) && CoverStart(m, x) <= v <= CoverEnd(m, x)
    ensures var w := Cross(m, v, x);
            CoverStart(m, Other(x)) <= w <= CoverEnd(m, Other(x)) && Cross(m, w, Other(x)) == v
  {
    CrossStays(m, v, x);
    var w, y := Cross(m, v, x), Other(x);
    var i := SegmentAt(m, v, x).value;
    SegmentAtDomain(m, w, y);
    AtMostOneHolds(m, i, SegmentAt(m, w, y).value, w, y);
    var s := m.segments[i];
    assert Lo(s, x) < Hi(s, x) && Lo(s, y) < Hi(s, y);
    LerpInverse(v, Lo(s, x), Hi(s, x), Lo(s, y), Hi(s, y));
  }

  lemma ToBookCrosses(m: Mapping, t: real)
    requires WellFormed(m) && CoverStart(m, Audio) <= t <= CoverEnd(m, Audio) + 1.0
    ensures CoverStart(m, Audio) <= Min(t, CoverEnd(m, Audio))
    ensures ToBook(m, t).Some?
    ensures var p := Cross(m, Min(t, CoverEnd(m, Audio)), Audio);
            ToBook(m, t).value.progression == if m.fullNarrative then p else Min(p, PARTIAL_CAP)
  {
    CoverPositive(m, Audio);
    SegmentAtDomain(m, t, Audio);
    var e := CoverEnd(m, Audio);
    SegmentAtDomain(m, e, Audio);
    var last := |m.segments| - 1;
    assert Lo(m.segments[last], Audio) < Hi(m.segments[last], Audio);
    AtMostOneHolds(m, SegmentAt(m, e, Audio).value, last, e, Audio);
  }

  lemma ToAudioCrosses(m: Mapping, p: real)
    requires WellFormed(m) && CoverStart(m, Book) <= p <= CoverEnd(m, Book)
    ensures ToAudio(m, p) == Some(Cross(m, p, Book))
  {
    SegmentAtDomain(m, p, Book);
  }

  // ----- what a reader of the mapping may rely on

  /** Both directions are defined exactly where the documentation says, and stay inside coverage. */
  lemma Domains(m: Mapping, v: real)
    requires WellFormed(m)
    ensures ToBook(m, v).Some? <==> CoverStart(m, Audio) <= v <= CoverEnd(m, Audio) + 1.0
    ensures ToAudio(m, v).Some? <==> CoverStart(m, Book) <= v <= CoverEnd(m, Book)
    ensures ToAudio(m, v).Some? ==> CoverStart(m, Audio) <= ToAudio(m, v).value <= CoverEnd(m, Audio)
    ensures ToBook(m, v).Some? ==>
              var p := ToBook(m, v).value.progression;
              && p <= CoverEnd(m, Book)
              && p >= if m.fullNarrative then CoverStart(m, Book) else Min(CoverStart(m, Book), PARTIAL_CAP)
  {
    SegmentAtDomain(m, v, Audio);
    SegmentAtDomain(m, v, Book);
    if ToAudio(m, v).Some? { CrossStays(m, v, Book); ToAudioCrosses(m, v); }
    if ToBook(m, v).Some? {
      ToBookCrosses(m, v);
      CrossStays(m, Min(v, CoverEnd(m, Audio)), Audio);
    }
  }

  /** A full narrative is a strictly increasing bijection between the two coverages. */
  lemma FullNarrativeInverse(m: Mapping, t: real, p: real)
    requires WellFormed(m) && m.fullNarrative
    requires CoverStart(m, Audio) <= t <= CoverEnd(m, Audio)
    requires CoverStart(m, Book) <= p <= CoverEnd(m, Book)
    ensures ToBook(m, t).Some? && ToAudio(m, ToBook(m, t).value.progression) == Some(t)
    ensures ToAudio(m, p).Some? && ToBook(m, ToAudio(m, p).value).Some?
    ensures ToBook(m, ToAudio(m, p).value).value.progression == p
  {
    CrossInverse(m, t, Audio);
    CrossInverse(m, p, Book);
    ToBookCrosses(m, t);
    ToAudioCrosses(m, p);
    ToAudioCrosses(m, Cross(m, t, Audio));
    ToBookCrosses(m, Cross(m, p, Book));
  }

  lemma FullNarrativeIncreasing(m: Mapping, u: real, v: real)
    requires WellFormed(m) && u < v
    ensures CoverStart(m, Audio) <= u && v <= CoverEnd(m, Audio) && m.fullNarrative ==>
            ToBook(m, u).Some? && ToBook(m, v).Some? && ToBook(m, u).value.progression < ToBook(m, v).value.progression
    ensures CoverStart(m, Book) <= u && v <= CoverEnd(m, Book) ==>
            ToAudio(m, u).Some? && ToAudio(m, v).Some? && ToAudio(m, u).value < ToAudio(m, v).value
  {
    if CoverStart(m, Audio) <= u && v <= CoverEnd(m, Audio) {
      CrossIncreasing(m, u, v, Audio);
      ToBookCrosses(m, u);
      ToBookCrosses(m, v);
    }
    if CoverStart(m, Book) <= u && v <= CoverEnd(m, Book) {
      CrossIncreasing(m, u, v, Book);
      ToAudioCrosses(m, u);
      ToAudioCrosses(m, v);
    }
  }

  /** A partial narrative still never runs backwards, and is never read as finished. */
  lemma PartialNarrative(m: Mapping, u: real, v: real)
    requires WellFormed(m) && u <= v
    requires ToBook(m, u).Some? && ToBook(m, v).Some?
    ensures ToBook(m, u).value.progression <= ToBook(m, v).value.progression
    ensures !m.fullNarrative ==> ToBook(m, v).value.progression <= PARTIAL_CAP
  {
    Domains(m, u);
    Domains(m, v);
    ToBookCrosses(m, u);
    ToBookCrosses(m, v);
    var e := CoverEnd(m, Audio);
    if Min(u, e) < Min(v, e) { CrossIncreasing(m, Min(u, e), Min(v, e), Audio); }
  }
}
