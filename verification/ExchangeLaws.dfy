/** What one pass of the exchange decides, in the numbers of the row, of the reading and of the mapping's own segments
  (internal/audiobookshelf/sync.go, `exchange`).
*/
module ExchangeLaws {
  import opened Wrappers
  import opened AudioMap
  import opened Locator
  import opened Exchange
  import opened ExchangeRuns
  import opened MappingLaws

  // ----- the row's place in the book

  /** The value p lies on or below the line through (x0, y0) and (x1, y1) at v. */
  ghost predicate BelowLine(v: real, x0: real, x1: real, y0: real, y1: real, p: real) {
    (p - y0) * (x1 - x0) <= (v - x0) * (y1 - y0)
  }

  /** The row stands at time t in segment i, which is place p of the book. A finished row stands at the end of the last
      segment, and on a full narrative at the end of the book; on a partial one no row stands behind 0.998. */
  ghost predicate RowStands(m: Mapping, r: Progress, t: real, i: nat, p: real)
    requires |m.segments| > 0
  {
    && t == (if r.isFinished then m.segments[|m.segments| - 1].audioEnd else r.currentTime)
    && i < |m.segments| && AudioIn(m, i, t)
    && var s := m.segments[i];
    && var v := if t <= s.audioEnd then t else s.audioEnd;
    && if r.isFinished && m.fullNarrative then p == 1.0
       else if m.fullNarrative || p < 0.998 then OnLine(v, s.audioStart, s.audioEnd, s.bookStart, s.bookEnd, p)
       else p == 0.998 && BelowLine(v, s.audioStart, s.audioEnd, s.bookStart, s.bookEnd, p)
  }

  lemma BelowIsAtMost(v: real, x0: real, x1: real, y0: real, y1: real, p: real, q: real)
    requires x0 < x1 && OnLine(v, x0, x1, y0, y1, q)
    ensures BelowLine(v, x0, x1, y0, y1, p) <==> p <= q
    ensures OnLine(v, x0, x1, y0, y1, p) <==> p == q
  {
    if p < q { ProductIncreases(p - y0, q - y0, x1 - x0); }
    if q < p { ProductIncreases(q - y0, p - y0, x1 - x0); }
  }

  lemma SegmentWidth(m: Mapping, i: nat)
    requires WellFormed(m) && i < |m.segments|
    ensures m.segments[i].audioStart < m.segments[i].audioEnd && m.segments[i].bookStart < m.segments[i].bookEnd
  {
    assert Lo(m.segments[i], Audio) < Hi(m.segments[i], Audio) && Lo(m.segments[i], Book) < Hi(m.segments[i], Book);
  }

  /** Where the row stands is what the pass reads it as. */
  lemma RowIsRead(m: Mapping, r: Progress, t: real, i: nat, p: real)
    requires WellFormed(m) && RowStands(m, r, t, i, p)
    ensures RemoteTime(m, r) == t && RemoteSpot(m, r) == Some(Spot(p, m.segments[i]))
  {
    SegmentWidth(m, i);
    var s := m.segments[i];
    var v := if t <= s.audioEnd then t else s.audioEnd;
    var q := Lerp(v, s.audioStart, s.audioEnd, s.bookStart, s.bookEnd);
    OnLineIsLerp(v, s.audioStart, s.audioEnd, s.bookStart, s.bookEnd, q);
    ToBookIs(m, i, t, q);
    BelowIsAtMost(v, s.audioStart, s.audioEnd, s.bookStart, s.bookEnd, p, q);
  }

  lemma SegmentOfTime(m: Mapping, t: real) returns (i: nat)
    requires WellFormed(m) && SegmentAt(m, t, Audio).Some?
    ensures i < |m.segments| && AudioIn(m, i, t)
  {
    SegmentAtDomain(m, t, Audio);
    CoverPositive(m, Audio);
    SegmentWidth(m, |m.segments| - 1);
    i := SegmentAt(m, t, Audio).value;
  }

  /** A row that is read as a place stands there. */
  lemma PlacedRowStands(m: Mapping, r: Progress) returns (i: nat, p: real)
    requires WellFormed(m) && RemoteSpot(m, r).Some?
    ensures RowStands(m, r, RemoteTime(m, r), i, p)
  {
    var t := RemoteTime(m, r);
    i := SegmentOfTime(m, t);
    SegmentWidth(m, i);
    var s := m.segments[i];
    var v := if t <= s.audioEnd then t else s.audioEnd;
    var q := Lerp(v, s.audioStart, s.audioEnd, s.bookStart, s.bookEnd);
    OnLineIsLerp(v, s.audioStart, s.audioEnd, s.bookStart, s.bookEnd, q);
    p := if r.isFinished && m.fullNarrative then 1.0 else if m.fullNarrative || q < 0.998 then q else 0.998;
    BelowIsAtMost(v, s.audioStart, s.audioEnd, s.bookStart, s.bookEnd, p, q);
  }

  /** A row stands nowhere exactly when its time lies before the mapping or more than a second behind it. */
  lemma RowIsLostExactly(m: Mapping, r: Progress)
    requires WellFormed(m)
    ensures RemoteSpot(m, r).None? <==>
            !r.isFinished && (r.currentTime < m.segments[0].audioStart
                              || r.currentTime > m.segments[|m.segments| - 1].audioEnd + 1.0)
  {
    SegmentAtDomain(m, RemoteTime(m, r), Audio);
    CoverPositive(m, Audio);
  }

  // ----- together or apart

  /** The reading came from this peer: its device carries the first eight digits of the peer's identity. */
  predicate PeersOwn(w: World, op: Op)
    requires |w.key.peer| >= 8
  {
    |op.deviceId| >= 13 && op.deviceId[..13] == "abs-" + w.key.peer[..8] + ":"
  }

  predicate ThisEdition(w: World, op: Op) { op.edition == None || op.edition == Some(w.key.edition) }

  lemma PeersOwnIs(w: World, op: Op)
    requires |w.key.peer| >= 8
    ensures PeersOwn(w, op) <==> FromPeer(w, op)
    ensures ThisEdition(w, op) <==> SameEdition(w, op)
  {
    assert |PeerPrefix(w.key.peer)| == 13;
  }

  /** The reading was taken at the end of the book. */
  predicate ReadToTheEnd(m: Mapping, op: Op) { 1000.0 * op.progression >= 999.0 && m.coversLast }

  /** Both sides say the book is finished, or that it is not; a partial narrative is finished at 0.998. */
  predicate FlagsMatch(m: Mapping, r: Progress, op: Op) {
    || (r.isFinished <==> ReadToTheEnd(m, op))
    || (!m.fullNarrative && r.isFinished && 0.997999999 < op.progression < 0.998000001)
  }

  /** Row and reading are close: at most a second apart where a locator gave the reading's time, and otherwise at most
      what one second of audio is in that segment's book, or a thousand-millionth of the book. */
  ghost predicate PlacesAreClose(op: Op, local: AudioSpot, t: real, s: Segment, p: real) {
    if local.usedLocator && local.at.Some? then t - 1.0 <= local.at.value <= t + 1.0
    else
      var d := if op.progression < p then p - op.progression else op.progression - p;
      WithinASecond(d, s.audioEnd - s.audioStart, s.bookEnd - s.bookStart) || d <= 0.000000001
  }

  /** The stretch d of the book is at most one second of a segment. */
  ghost predicate WithinASecond(d: real, audioWidth: real, bookWidth: real) { d * audioWidth <= bookWidth }

  /** The reading as a time; one of another edition or of the peer's own has none. */
  function ReadingAs(w: World, m: Mapping, find: Op -> Option<TextMatch>, op: Op): AudioSpot
    requires |w.key.peer| >= 8
  {
    if op.seqNo > 0 && ThisEdition(w, op) && !PeersOwn(w, op)
    then ToAudioLocator(m, op.progression, op.locator, find(op)) else AudioSpot(None, false)
  }

  lemma WithinTolerance(d: real, bookWidth: real, audioWidth: real, q: real)
    requires audioWidth > 0.0 && q == bookWidth / audioWidth
    ensures d <= q <==> WithinASecond(d, audioWidth, bookWidth)
  {
    assert q * audioWidth == bookWidth;
    if d < q { ProductIncreases(d, q, audioWidth); }
    if q < d { ProductIncreases(q, d, audioWidth); }
  }

  lemma ClosenessIs(m: Mapping, r: Progress, op: Op, local: AudioSpot, t: real, s: Segment, p: real)
    requires WellFormed(m) && RemoteTime(m, r) == t && RemoteSpot(m, r) == Some(Spot(p, s))
    requires s.audioStart < s.audioEnd
    ensures SamePlace(m, r, op, local) <==> PlacesAreClose(op, local, t, s, p) && FlagsMatch(m, r, op)
  {
    var q := (s.bookEnd - s.bookStart) / (s.audioEnd - s.audioStart);
    WithinTolerance(Abs(op.progression - p), s.bookEnd - s.bookStart, s.audioEnd - s.audioStart, q);
  }

  /** Both sides are at the same place already: there are a row and a reading of this edition, they match on whether
      the book is finished, and they are close. */
  ghost predicate Together(w: World, m: Mapping, find: Op -> Option<TextMatch>)
    requires |m.segments| > 0 && |w.key.peer| >= 8
  {
    && w.remote.Some? && w.log != []
    && var r, op := w.remote.value, w.log[|w.log| - 1];
    && op.seqNo > 0 && ThisEdition(w, op) && FlagsMatch(m, r, op)
    && exists t: real, i: nat, p: real ::
         RowStands(m, r, t, i, p) && PlacesAreClose(op, ReadingAs(w, m, find, op), t, m.segments[i], p)
  }

  lemma ReadingIs(w: World, m: Mapping, find: Op -> Option<TextMatch>)
    requires |w.key.peer| >= 8 && w.log != []
    ensures LocalSpot(w, m, find) == ReadingAs(w, m, find, w.log[|w.log| - 1])
  {
    PeersOwnIs(w, w.log[|w.log| - 1]);
  }

  lemma TogetherAgrees(w: World, m: Mapping, find: Op -> Option<TextMatch>, t: real, s: Segment, p: real)
    requires WellFormed(m) && |w.key.peer| >= 8 && w.remote.Some? && w.log != []
    requires RemoteTime(m, w.remote.value) == t && RemoteSpot(m, w.remote.value) == Some(Spot(p, s))
    requires s.audioStart < s.audioEnd
    ensures var r, op := w.remote.value, w.log[|w.log| - 1];
            Agree(w, m, find) <==>
            && op.seqNo > 0 && ThisEdition(w, op) && FlagsMatch(m, r, op)
            && PlacesAreClose(op, ReadingAs(w, m, find, op), t, s, p)
  {
    ReadingIs(w, m, find);
    PeersOwnIs(w, w.log[|w.log| - 1]);
    ClosenessIs(m, w.remote.value, w.log[|w.log| - 1], ReadingAs(w, m, find, w.log[|w.log| - 1]), t, s, p);
  }

  lemma TogetherThenAgree(w: World, m: Mapping, find: Op -> Option<TextMatch>)
    requires WellFormed(m) && |w.key.peer| >= 8 && Together(w, m, find)
    ensures Agree(w, m, find)
  {
    var r, op := w.remote.value, w.log[|w.log| - 1];
    var t: real, i: nat, p: real :|
      RowStands(m, r, t, i, p) && PlacesAreClose(op, ReadingAs(w, m, find, op), t, m.segments[i], p);
    RowIsRead(m, r, t, i, p);
    SegmentWidth(m, i);
    TogetherAgrees(w, m, find, t, m.segments[i], p);
  }

  lemma AgreeThenTogether(w: World, m: Mapping, find: Op -> Option<TextMatch>)
    requires WellFormed(m) && |w.key.peer| >= 8 && Agree(w, m, find)
    ensures Together(w, m, find)
  {
    var r := w.remote.value;
    var i, p := PlacedRowStands(m, r);
    RowIsRead(m, r, RemoteTime(m, r), i, p);
    SegmentWidth(m, i);
    TogetherAgrees(w, m, find, RemoteTime(m, r), m.segments[i], p);
  }

  lemma TogetherIs(w: World, m: Mapping, find: Op -> Option<TextMatch>)
    requires WellFormed(m) && |w.key.peer| >= 8
    ensures Together(w, m, find) <==> Agree(w, m, find)
  {
    if Together(w, m, find) { TogetherThenAgree(w, m, find); }
    if Agree(w, m, find) { AgreeThenTogether(w, m, find); }
  }

  // ----- what a pass does

  /** Neither side has moved since the cut-off; a log without readings counts as the first of January of the year 1. */
  predicate BothOld(w: World, e: Env) {
    && e.cutoff.Some?
    && (if w.log == [] then -62135596800000 else w.log[|w.log| - 1].clientTs) < e.cutoff.value
    && (w.remote.Some? ==> w.remote.value.lastUpdate < e.cutoff.value)
  }

  lemma OldIsLeftAlone(w: World, m: Mapping, find: Op -> Option<TextMatch>, e: Env)
    requires WellFormed(m)
    ensures BothOld(w, e) ==> Pass(w, m, find, e) == (w, Skipped)
    ensures BothOld(w, e) <==> Inactive(w, e)
  {
  }

  /** A pass skips with the cursor moved to row and reading exactly when both sides are together already. */
  lemma SkippedTogetherExactly(w: World, m: Mapping, find: Op -> Option<TextMatch>, e: Env)
    requires WellFormed(m) && |w.key.peer| >= 8 && !BothOld(w, e) && w.remote.Some? && w.log != []
    requires w.pushedSeq != w.log[|w.log| - 1].seqNo || w.remoteUpdatedMs != w.remote.value.lastUpdate
    ensures var there := w.(pushedSeq := w.log[|w.log| - 1].seqNo, remoteUpdatedMs := w.remote.value.lastUpdate);
            Pass(w, m, find, e) == (there, Skipped) <==> Together(w, m, find)
  {
    TogetherIs(w, m, find);
    OldIsLeftAlone(w, m, find, e);
  }

  /** The whole number n is the one nearest to x, and of two the even one. */
  predicate RoundsTo(x: real, n: int) {
    && n as real - 0.5 <= x <= n as real + 0.5
    && (x == n as real - 0.5 || x == n as real + 0.5 ==> n % 2 == 0)
  }

  lemma RoundingIs(x: real, n: int)
    ensures RoundHalfEven(x) == n <==> RoundsTo(x, n)
  {
    var f := x.Floor;
    assert f as real <= x < f as real + 1.0;
    if RoundsTo(x, n) { assert n == f || n == f + 1; }
  }

  /** The row is what this server wrote last: the whole seconds and the flag of the mark, stamped no later than read
      back. */
  predicate Echoes(w: World) {
    && w.remote.Some? && w.pushedMark.Some?
    && RoundsTo(w.remote.value.currentTime, w.pushedMark.value.seconds)
    && (w.remote.value.isFinished <==> w.pushedMark.value.finished)
    && w.remote.value.lastUpdate <= w.remoteUpdatedMs
  }

  lemma EchoesIs(w: World)
    ensures Echoes(w) <==> Echo(w)
  {
    if w.remote.Some? && w.pushedMark.Some? {
      RoundingIs(w.remote.value.currentTime, w.pushedMark.value.seconds);
    }
  }

  predicate HasReading(w: World) { w.log != [] && w.log[|w.log| - 1].seqNo > 0 }

  /** A row later than the newest reading and than the cursor, with a place in the book, and no untouched start over a
      begun book. */
  ghost predicate WouldPull(w: World, m: Mapping)
    requires |m.segments| > 0
  {
    && w.remote.Some?
    && var r := w.remote.value;
    && (HasReading(w) ==> r.lastUpdate > w.log[|w.log| - 1].clientTs) && r.lastUpdate > w.remoteUpdatedMs
    && (|| r.isFinished
        || m.segments[0].audioStart <= r.currentTime <= m.segments[|m.segments| - 1].audioEnd + 1.0)
    && !(r.currentTime == 0.0 && w.log != [] && w.log[|w.log| - 1].progression > 0.0)
  }

  /** A reading of this edition, made on no device of the peer's, that is a time in the audio; the row is not what was
      written of it, is not later, or was dealt with before the reading came. */
  ghost predicate WouldPush(w: World, m: Mapping, find: Op -> Option<TextMatch>)
    requires |w.key.peer| >= 8
  {
    && HasReading(w)
    && var op := w.log[|w.log| - 1];
    && ThisEdition(w, op) && !PeersOwn(w, op)
    && (ReadToTheEnd(m, op) || ReadingAs(w, m, find, op).at.Some?)
    && (Echoes(w) ==> op.seqNo > w.pushedSeq)
    && (w.remote.Some? && !Echoes(w) ==>
          || w.remote.value.lastUpdate <= op.clientTs
          || (w.remote.value.lastUpdate <= w.remoteUpdatedMs && op.seqNo > w.pushedSeq))
  }

  /** The sides are apart, and not both of old. */
  ghost predicate Apart(w: World, m: Mapping, find: Op -> Option<TextMatch>, e: Env)
    requires |m.segments| > 0 && |w.key.peer| >= 8
  {
    !BothOld(w, e) && !Together(w, m, find)
  }

  lemma ApartDecides(w: World, m: Mapping, find: Op -> Option<TextMatch>, e: Env)
    requires WellFormed(m) && |w.key.peer| >= 8 && Apart(w, m, find, e)
    ensures !Inactive(w, e) && !Agree(w, m, find) && (Echoes(w) <==> Echo(w))
    ensures w.log != [] ==> LocalSpot(w, m, find) == ReadingAs(w, m, find, w.log[|w.log| - 1])
    ensures w.log != [] ==> (Sendable(w, w.log[|w.log| - 1]) <==>
              w.log[|w.log| - 1].seqNo > 0 && ThisEdition(w, w.log[|w.log| - 1]) && !PeersOwn(w, w.log[|w.log| - 1]))
    ensures w.remote.Some? ==> (RemoteSpot(m, w.remote.value).Some? <==>
              || w.remote.value.isFinished
              || m.segments[0].audioStart <= w.remote.value.currentTime <= m.segments[|m.segments| - 1].audioEnd + 1.0)
  {
    TogetherIs(w, m, find);
    OldIsLeftAlone(w, m, find, e);
    EchoesIs(w);
    if w.log != [] { ReadingIs(w, m, find); PeersOwnIs(w, w.log[|w.log| - 1]); }
    if w.remote.Some? { RowIsLostExactly(m, w.remote.value); }
  }

  /** A pass over sides that are apart pulls, when it would pull and nothing fails... */
  lemma PullsExactly(w: World, m: Mapping, find: Op -> Option<TextMatch>, e: Env)
    requires WellFormed(m) && |w.key.peer| >= 8 && Apart(w, m, find, e)
    ensures Pass(w, m, find, e).1.Pulling? <==> WouldPull(w, m) && m.resources != [] && e.ready && e.appends
  {
    ApartDecides(w, m, find, e);
  }

  /** ...writes to the peer when it would push and nothing fails... */
  lemma PushesExactly(w: World, m: Mapping, find: Op -> Option<TextMatch>, e: Env)
    requires WellFormed(m) && |w.key.peer| >= 8 && Apart(w, m, find, e)
    ensures Pass(w, m, find, e).1.Pushed? || Pass(w, m, find, e).1.PushedUnread?
            <==> WouldPush(w, m, find) && e.ready && e.updates
    ensures Pass(w, m, find, e).1.Pushed? ==> e.readsBack
    ensures Pass(w, m, find, e).1.PushedUnread? ==> !e.readsBack
  {
    ApartDecides(w, m, find, e);
    if PushTime(w, m, find).Some? { PushTimeIsWritable(w, m, find); }
    LocalSpotIsTheSame(w, w.(pushedMark := None), m, find);
  }

  /** ...fails when something does, and is skipped otherwise; then nothing but an outdated mark goes. */
  lemma OtherwiseNothing(w: World, m: Mapping, find: Op -> Option<TextMatch>, e: Env)
    requires WellFormed(m) && |w.key.peer| >= 8 && Apart(w, m, find, e)
    ensures var (w', outcome) := Pass(w, m, find, e);
            && (outcome.Failed? ==> WouldPull(w, m) || WouldPush(w, m, find))
            && (outcome.Skipped? ==> !WouldPull(w, m) && !WouldPush(w, m, find))
            && (outcome.Skipped? || outcome.Failed? ==> w' == if Echoes(w) then w else w.(pushedMark := None))
  {
    ApartDecides(w, m, find, e);
    if PushTime(w, m, find).Some? { PushTimeIsWritable(w, m, find); }
    LocalSpotIsTheSame(w, w.(pushedMark := None), m, find);
  }

  /** What a pull adds to the log: the row's place in the book at the row's time, as a reading of the peer's own device
      and of this edition, with a locator; the cursor is at both. */
  lemma PullTakesIn(w: World, m: Mapping, find: Op -> Option<TextMatch>, e: Env, t: real, i: nat, p: real)
    requires WellFormed(m) && |w.key.peer| >= 8 && Pass(w, m, find, e).1.Pulling?
    requires w.remote.Some? && RowStands(m, w.remote.value, t, i, p)
    ensures var r, w', s := w.remote.value, Pass(w, m, find, e).0, m.segments[i];
            var id := Pulled(w.key, r.lastUpdate, r.currentTime, r.isFinished);
            var seqNo := (if w.log == [] then 0 else w.log[|w.log| - 1].seqNo) + 1 + e.seqGap;
            && w'.key == w.key && w'.remote == w.remote && w'.remoteUpdatedMs == r.lastUpdate && w'.pushedMark == None
            && ((exists op :: op in w.log && op.id == id) ==>
                  w'.log == w.log && exists op :: op in w.log && op.id == id && w'.pushedSeq == op.seqNo)
            && (!(exists op :: op in w.log && op.id == id) ==>
                  && w'.pushedSeq == seqNo
                  && w'.log == w.log + [
                       Op(id, seqNo, r.lastUpdate, p, "abs-" + w.key.peer[..8] + ":" + "audiobookshelf",
                          Some(w.key.edition), LocatorAt(m, p, s, t == s.audioStart, Snippet("", "", "")))])
  {
    RowIsRead(m, w.remote.value, t, i, p);
  }

  lemma AWriteIsAPush(w: World, m: Mapping, find: Op -> Option<TextMatch>, e: Env) returns (mark: Option<Mark>)
    requires WellFormed(m) && (Pass(w, m, find, e).1.Pushed? || Pass(w, m, find, e).1.PushedUnread?)
    ensures Pass(w, m, find, e) == PushPass(w.(pushedMark := mark), m, find, e)
  {
    mark := if Echo(w) then w.pushedMark else None;
  }

  lemma PushLeaves(w: World, m: Mapping, find: Op -> Option<TextMatch>, e: Env)
    requires w.log != [] && (PushPass(w, m, find, e).1.Pushed? || PushPass(w, m, find, e).1.PushedUnread?)
    ensures var w' := PushPass(w, m, find, e).0;
            && w'.key == w.key && w'.log == w.log && w'.pushedSeq == w.log[|w.log| - 1].seqNo
            && w'.remoteUpdatedMs == (if e.readsBack then e.peerNow else w.remoteUpdatedMs)
            && w'.remote.Some? && w'.pushedMark == Some(ProgressMark(w'.remote.value))
            && PushTime(w, m, find).Some?
            && w'.remote.value.currentTime == PushTime(w, m, find).value && w'.remote.value.lastUpdate == e.peerNow
            && w'.remote.value.isFinished == LocallyFinished(m, w.log[|w.log| - 1])
  {
  }

  lemma PushedTimeIs(w: World, m: Mapping, find: Op -> Option<TextMatch>)
    requires WellFormed(m) && |w.key.peer| >= 8 && w.log != [] && PushTime(w, m, find).Some?
    ensures var op := w.log[|w.log| - 1];
            var local, end, at := ReadingAs(w, m, find, op).at, m.segments[|m.segments| - 1].audioEnd,
                                  PushTime(w, m, find).value;
            && 0.0 <= at <= m.duration
            && (ReadToTheEnd(m, op) ==> at == if end <= m.duration then end else m.duration)
            && (!ReadToTheEnd(m, op) ==>
                  local.Some? && at == if local.value <= m.duration then local.value else m.duration)
  {
    ReadingIs(w, m, find);
    PushTimeIsWritable(w, m, find);
  }

  /** What a push writes: the end of the mapping when the book is read to its end, else the reading's time, but never
      more than the duration. */
  lemma PushWrites(w: World, m: Mapping, find: Op -> Option<TextMatch>, e: Env)
    requires WellFormed(m) && |w.key.peer| >= 8 && w.log != []
    requires Pass(w, m, find, e).1.Pushed? || Pass(w, m, find, e).1.PushedUnread?
    ensures var op := w.log[|w.log| - 1];
            var local, end, row := ReadingAs(w, m, find, op).at, m.segments[|m.segments| - 1].audioEnd,
                                   Pass(w, m, find, e).0.remote;
            && row.Some? && row.value.lastUpdate == e.peerNow && (row.value.isFinished <==> ReadToTheEnd(m, op))
            && 0.0 <= row.value.currentTime <= m.duration
            && (ReadToTheEnd(m, op) ==> row.value.currentTime == if end <= m.duration then end else m.duration)
            && (!ReadToTheEnd(m, op) ==>
                  && local.Some?
                  && row.value.currentTime == if local.value <= m.duration then local.value else m.duration)
  {
    var mark := AWriteIsAPush(w, m, find, e);
    PushLeaves(w.(pushedMark := mark), m, find, e);
    LocalSpotIsTheSame(w, w.(pushedMark := mark), m, find);
    PushedTimeIs(w, m, find);
  }

  /** ...and what it remembers: the reading sent, the row in whole seconds, and the peer's stamp once read back. */
  lemma PushRemembers(w: World, m: Mapping, find: Op -> Option<TextMatch>, e: Env)
    requires WellFormed(m) && w.log != []
    requires Pass(w, m, find, e).1.Pushed? || Pass(w, m, find, e).1.PushedUnread?
    ensures var w' := Pass(w, m, find, e).0;
            && w'.key == w.key && w'.log == w.log && w'.pushedSeq == w.log[|w.log| - 1].seqNo
            && w'.remoteUpdatedMs == (if e.readsBack then e.peerNow else w.remoteUpdatedMs)
            && w'.remote.Some? && w'.pushedMark.Some?
            && RoundsTo(w'.remote.value.currentTime, w'.pushedMark.value.seconds)
            && w'.pushedMark.value.finished == w'.remote.value.isFinished
  {
    var mark := AWriteIsAPush(w, m, find, e);
    PushLeaves(w.(pushedMark := mark), m, find, e);
    var row := Pass(w, m, find, e).0.remote.value;
    RoundingIs(row.currentTime, RoundHalfEven(row.currentTime));
  }

  /** A later row whose time is more than a second from the reading's is taken in. */
  lemma ASecondApartIsTaken(w: World, m: Mapping, find: Op -> Option<TextMatch>, e: Env, at: real)
    requires WellFormed(m) && |w.key.peer| >= 8 && !BothOld(w, e) && Calm(e) && m.resources != [] && w.log != []
    requires WouldPull(w, m) && ReadingAs(w, m, find, w.log[|w.log| - 1]) == AudioSpot(Some(at), true)
    requires !w.remote.value.isFinished
    requires at < w.remote.value.currentTime - 1.0 || w.remote.value.currentTime + 1.0 < at
    ensures Pass(w, m, find, e).1.Pulling?
  {
    PullsExactly(w, m, find, e);
  }
}
