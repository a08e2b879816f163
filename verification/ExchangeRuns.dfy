/** What the exchange keeps over whole runs (internal/audiobookshelf/sync.go): it comes to rest, it never overwrites
  listening it has not seen, and it never sends back what it took in.
*/
module ExchangeRuns {
  import opened Wrappers
  import opened AudioMap
  import opened Locator
  import opened Exchange

  // ----- pushed values

  /** The time a locator gives inside a well-formed mapping is never negative. */
  lemma AudioSpotNonNegative(m: Mapping, p: real, loc: Option<Locator>, found: Option<TextMatch>)
    requires WellFormed(m)
    ensures var at := ToAudioLocator(m, p, loc, found).at; at.Some? ==> at.value >= 0.0
  {
    Domains(m, p);
    if loc.Some? && ChapterFraction(loc.value, found).Some? {
      InHrefNonNegative(m, CleanHref(loc.value.href), ChapterFraction(loc.value, found).value);
    }
  }

  lemma InHrefNonNegative(m: Mapping, href: string, f: real)
    requires WellFormed(m)
    ensures var at := ToAudioInHref(m, href, f); at.Some? ==> at.value >= 0.0
  {
    var g, k := Clamp01(f), ResourceNamed(m.resources, href, 0);
    if k.Some? {
      Domains(m, Lerp(g, 0.0, 1.0, m.resources[k.value].start, m.resources[k.value].end));
    } else {
      var named := SegmentsNamed(m.segments, href);
      if |named| == 1 && named[0].audioEnd > named[0].audioStart {
        NamedIsSegment(m.segments, href, named[0]);
        var i :| 0 <= i < |m.segments| && m.segments[i] == named[0];
        assert Lo(m.segments[0], Audio) < Hi(m.segments[0], Audio);
        if i > 0 { Ordered(m, 0, i, Audio); }
        LerpBounds(g, 0.0, 1.0, named[0].audioStart, named[0].audioEnd);
      }
    }
  }

  lemma {:induction false} NamedIsSegment(segs: seq<Segment>, href: string, s: Segment)
    requires s in SegmentsNamed(segs, href)
    ensures s in segs
  {
    if s in SegmentsNamed(segs[1..], href) { NamedIsSegment(segs[1..], href, s); }
  }

  /** Whatever a pass decides to push, `UpdateProgress` accepts. */
  lemma PushTimeIsWritable(w: World, m: Mapping, find: Op -> Option<TextMatch>)
    requires WellFormed(m) && PushTime(w, m, find).Some?
    ensures Writable(PushTime(w, m, find).value, m.duration)
  {
    CoverPositive(m, Audio);
    var op := Head(w.log);
    if Sendable(w, op) { AudioSpotNonNegative(m, op.progression, op.locator, find(op)); }
  }

  // ----- single passes

  /** A push goes out only over a row that is absent, not later than the reading it carries, or already taken in;
      what it carries was read on some other device; and the row it leaves is that reading's time. */
  lemma PushIsJustified(w: World, m: Mapping, find: Op -> Option<TextMatch>, e: Env)
    requires WellFormed(m) && (Pass(w, m, find, e).1.Pushed? || Pass(w, m, find, e).1.PushedUnread?)
    ensures w.remote.None? || w.remote.value.lastUpdate <= Head(w.log).clientTs
            || w.remote.value.lastUpdate <= w.remoteUpdatedMs
    ensures Sendable(w, Head(w.log)) && !FromPeer(w, Head(w.log))
    ensures var w' := Pass(w, m, find, e).0;
            && w'.log == w.log && w'.pushedSeq == Head(w.log).seqNo
            && w'.remote.Some? && PushTime(w, m, find) == Some(w'.remote.value.currentTime)
            && w'.remote.value.isFinished == LocallyFinished(m, Head(w.log))
  {
    assert PushTime(w.(pushedMark := None), m, find) == PushTime(w, m, find);
  }

  /** A pull takes only a row later than everything taken in before, and adds at most one operation: the row's place
      in the book, marked as the peer's own. */
  lemma PullIsFresh(w: World, m: Mapping, find: Op -> Option<TextMatch>, e: Env)
    requires WellFormed(m) && Pass(w, m, find, e).1.Pulling?
    ensures w.remote.Some? && w.remoteUpdatedMs < w.remote.value.lastUpdate
    ensures var w' := Pass(w, m, find, e).0;
            && w'.remote == w.remote && w'.remoteUpdatedMs == w.remote.value.lastUpdate && w'.pushedMark.None?
            && (w'.log == w.log ||
                var op := Head(w'.log);
                && w'.log == w.log + [op] && FromPeer(w', op) && op.clientTs == w.remote.value.lastUpdate
                && RemoteSpot(m, w.remote.value).Some?
                && op.progression == RemoteSpot(m, w.remote.value).value.progression
                && w'.pushedSeq == op.seqNo > Head(w.log).seqNo)
  {
  }

  // ----- who wins

  /** What a pulled operation's id is made of. */
  function RowId(w: World): OpId
    requires w.remote.Some?
  {
    var r := w.remote.value;
    Pulled(w.key, r.lastUpdate, r.currentTime, r.isFinished)
  }

  /** There is a row and a reading, and the pass has something to decide. */
  ghost predicate Contested(w: World, m: Mapping, find: Op -> Option<TextMatch>, e: Env)
    requires WellFormed(m)
  {
    w.remote.Some? && Calm(e) && m.resources != [] && !Inactive(w, e) && !Agree(w, m, find)
  }

  /** Both sides hold the row's position. */
  ghost predicate AtTheRow(w: World, m: Mapping, w': World)
    requires w.remote.Some?
  {
    && w'.remote == w.remote && RemoteSpot(m, w.remote.value).Some?
    && Head(w'.log).progression == RemoteSpot(m, w.remote.value).value.progression
  }

  /** Both sides hold the reading's position. */
  ghost predicate AtTheReading(w: World, m: Mapping, find: Op -> Option<TextMatch>, w': World) {
    && w'.log == w.log && PushTime(w, m, find).Some?
    && w'.remote.Some? && w'.remote.value.currentTime == PushTime(w, m, find).value
    && w'.remote.value.isFinished == LocallyFinished(m, Head(w.log))
  }

  /** A row later than the newest reading ends on both sides exactly when it is later than the cursor, has a place in
      the book, is no untouched start over a begun book, and was not pulled before. */
  lemma LaterRowWinsExactly(w: World, m: Mapping, find: Op -> Option<TextMatch>, e: Env)
    requires WellFormed(m) && Contested(w, m, find, e) && !AtTheRow(w, m, w)
    requires w.remote.value.lastUpdate > Head(w.log).clientTs
    ensures var r := w.remote.value;
            AtTheRow(w, m, Pass(w, m, find, e).0) <==>
            && r.lastUpdate > w.remoteUpdatedMs && RemoteSpot(m, r).Some?
            && !(r.currentTime == 0.0 && Head(w.log).progression > 0.0) && Holding(w.log, RowId(w)).None?
  {
    var w' := Pass(w, m, find, e).0;
    assert w'.log == w.log ==> !AtTheRow(w, m, w');
  }

  /** A reading at least as late as the row ends on both sides exactly when it can be sent and is not what the row
      already echoes. */
  lemma LaterReadingWinsExactly(w: World, m: Mapping, find: Op -> Option<TextMatch>, e: Env)
    requires WellFormed(m) && Contested(w, m, find, e) && !AtTheReading(w, m, find, w)
    requires w.remote.value.lastUpdate <= Head(w.log).clientTs
    ensures AtTheReading(w, m, find, Pass(w, m, find, e).0) <==>
            && Sendable(w, Head(w.log)) && PushTime(w, m, find).Some?
            && !(Echo(w) && Head(w.log).seqNo <= w.pushedSeq)
  {
    if PushTime(w, m, find).Some? { PushTimeIsWritable(w, m, find); }
    LocalSpotIsTheSame(w, w.(pushedMark := None), m, find);
  }

  /** A reading older than the row is pushed over it, exactly when the row was dealt with before and the reading came to
      the log after that. */
  lemma OlderReadingIsPushedExactly(w: World, m: Mapping, find: Op -> Option<TextMatch>, e: Env)
    requires WellFormed(m) && Contested(w, m, find, e)
    requires w.remote.value.lastUpdate > Head(w.log).clientTs
    ensures Pass(w, m, find, e).1.Pushed? <==>
            && w.remote.value.lastUpdate <= w.remoteUpdatedMs && Head(w.log).seqNo > w.pushedSeq
            && Sendable(w, Head(w.log)) && PushTime(w, m, find).Some?
  {
    if PushTime(w, m, find).Some? { PushTimeIsWritable(w, m, find); }
    LocalSpotIsTheSame(w, w.(pushedMark := None), m, find);
  }

  /** A link of a hundred seconds of audio. */
  const HUNDRED := LinearMapping([Resource("text", 0.0, 1.0)], 100.0)

  /** The row of time 100 was pulled; then a reading of time 50, made on a phone without a connection, arrives. */
  function LateArrival(key: LinkKey): World {
    var taken := Op(Pulled(key, 100, 20.0, false), 1, 100, 0.2, PeerPrefix(key.peer) + "audiobookshelf",
        Some(key.edition), None);
    World(key, 1, None, 100, [taken, Op(Other("late"), 2, 50, 0.5, "phone", None, None)],
      Some(Progress(20.0, false, 100)))
  }

  /** It is the older of the two, and is pushed over the row. */
  lemma AnOlderReadingWins(key: LinkKey, find: Op -> Option<TextMatch>)
    ensures var w, e := LateArrival(key), Env(None, true, true, 0, true, 160, true);
            && WellFormed(HUNDRED) && Contested(w, HUNDRED, find, e)
            && w.remote.value.lastUpdate > Head(w.log).clientTs
            && Pass(w, HUNDRED, find, e).1 == Pushed
            && Pass(w, HUNDRED, find, e).0.remote == Some(Progress(50.0, false, 160))
  {
    var w, e := LateArrival(key), Env(None, true, true, 0, true, 160, true);
    LinearIsWellFormed([Resource("text", 0.0, 1.0)], 100.0);
    assert PeerPrefix(key.peer)[0] == 'a' && Head(w.log).deviceId[0] == 'p';
    assert SegmentAt(HUNDRED, 20.0, Audio) == Some(0) && SegmentAt(HUNDRED, 0.5, Book) == Some(0);
    assert RemoteSpot(HUNDRED, w.remote.value) == Some(Spot(0.2, HUNDRED.segments[0]));
    assert LocalSpot(w, HUNDRED, find) == AudioSpot(Some(50.0), false);
    assert !Agree(w, HUNDRED, find);
    assert PushTime(w, HUNDRED, find) == Some(50.0);
    OlderReadingIsPushedExactly(w, HUNDRED, find, e);
  }

  // ----- coming to rest

  /** Nothing fails: the store appends, the peer stores and can be read back. */
  predicate Calm(e: Env) { e.ready && e.appends && e.updates && e.readsBack }

  /** The activity cut-off only moves forward. */
  predicate NotEarlier(c: Option<int>, d: Option<int>) { c.Some? == d.Some? && (c.Some? ==> c.value <= d.value) }

  /** Every later pass, calm or not, is skipped and leaves everything as it is. */
  ghost predicate AtRest(w: World, m: Mapping, find: Op -> Option<TextMatch>, cutoff: Option<int>)
    requires WellFormed(m)
  {
    forall e: Env | NotEarlier(cutoff, e.cutoff) :: Pass(w, m, find, e) == (w, Skipped)
  }

  /** Two worlds that differ only in the cursor are read alike. */
  ghost predicate SamePositions(w: World, w': World) { w'.key == w.key && w'.log == w.log && w'.remote == w.remote }

  lemma CursorDoesNotMatter(w: World, w': World, m: Mapping, find: Op -> Option<TextMatch>)
    requires WellFormed(m) && SamePositions(w, w')
    ensures LocalSpot(w', m, find) == LocalSpot(w, m, find) && PushTime(w', m, find) == PushTime(w, m, find)
    ensures Agree(w', m, find) == Agree(w, m, find)
  {
    LocalSpotIsTheSame(w, w', m, find);
  }

  lemma LocalSpotIsTheSame(w: World, w': World, m: Mapping, find: Op -> Option<TextMatch>)
    requires SamePositions(w, w')
    ensures LocalSpot(w', m, find) == LocalSpot(w, m, find)
  {
  }

  lemma SkipComesToRest(w: World, m: Mapping, find: Op -> Option<TextMatch>, e: Env)
    requires WellFormed(m) && Pass(w, m, find, e).1.Skipped?
    ensures AtRest(Pass(w, m, find, e).0, m, find, e.cutoff)
  {
    var w' := Pass(w, m, find, e).0;
    forall e': Env | NotEarlier(e.cutoff, e'.cutoff) ensures Pass(w', m, find, e') == (w', Skipped) {
      if Inactive(w, e) {
        assert Inactive(w, e');
      } else if Agree(w, m, find) {
        AgreementStays(w, m, find, e');
      } else if Echo(w) {
        EchoStays(w, m, find, e, e');
      } else {
        PositionsStay(w, m, find, e, e');
      }
    }
  }

  lemma AgreementStays(w: World, m: Mapping, find: Op -> Option<TextMatch>, e': Env)
    requires WellFormed(m) && Agree(w, m, find)
    ensures var w' := w.(pushedSeq := Head(w.log).seqNo, remoteUpdatedMs := w.remote.value.lastUpdate);
            Pass(w', m, find, e') == (w', Skipped)
  {
    CursorDoesNotMatter(w, w.(pushedSeq := Head(w.log).seqNo, remoteUpdatedMs := w.remote.value.lastUpdate), m, find);
  }

  lemma EchoStays(w: World, m: Mapping, find: Op -> Option<TextMatch>, e: Env, e': Env)
    requires WellFormed(m) && !Inactive(w, e) && !Agree(w, m, find) && Echo(w) && Pass(w, m, find, e).1.Skipped?
    ensures Pass(w, m, find, e').0 == Pass(w, m, find, e).0 == w && Pass(w, m, find, e').1.Skipped?
  {
  }

  lemma PositionsStay(w: World, m: Mapping, find: Op -> Option<TextMatch>, e: Env, e': Env)
    requires WellFormed(m) && !Inactive(w, e) && !Agree(w, m, find) && !Echo(w) && Pass(w, m, find, e).1.Skipped?
    ensures var w' := Pass(w, m, find, e).0;
            w' == w.(pushedMark := None) && Pass(w', m, find, e') == (w', Skipped)
  {
    CursorDoesNotMatter(w, w.(pushedMark := None), m, find);
  }

  lemma PushComesToRest(w: World, m: Mapping, find: Op -> Option<TextMatch>, e: Env)
    requires WellFormed(m) && Pass(w, m, find, e).1.Pushed?
    ensures AtRest(Pass(w, m, find, e).0, m, find, e.cutoff)
  {
    var w' := Pass(w, m, find, e).0;
    assert Echo(w') && Head(w'.log).seqNo == w'.pushedSeq;
  }

  lemma PullComesToRest(w: World, m: Mapping, find: Op -> Option<TextMatch>, e: Env)
    requires WellFormed(m) && Pass(w, m, find, e).1.Pulling? && w.remote.Some? && Holding(w.log, RowId(w)).None?
    ensures AtRest(Pass(w, m, find, e).0, m, find, e.cutoff)
  {
    PullIsFresh(w, m, find, e);
    var w' := Pass(w, m, find, e).0;
    assert !Sendable(w', Head(w'.log)) && !Echo(w') && !WantsPull(w');
  }

  /** Sequence numbers grow along the log, and a pulled operation carries the time of the row it was pulled from. */
  ghost predicate SoundLog(log: seq<Op>) {
    && (forall i | 0 <= i < |log| :: log[i].seqNo > 0)
    && (forall i, j | 0 <= i < j < |log| :: log[i].seqNo < log[j].seqNo)
    && (forall i | 0 <= i < |log| && log[i].id.Pulled? :: log[i].clientTs == log[i].id.lastUpdate)
  }

  /** What a pull leaves behind that found its operation already in the log: a newer local head, unsent. */
  lemma DuplicateLeavesTheHead(w: World, m: Mapping, find: Op -> Option<TextMatch>, e: Env)
    requires WellFormed(m) && Pass(w, m, find, e).1.Pulling? && w.remote.Some? && Holding(w.log, RowId(w)).Some?
    requires SoundLog(w.log)
    ensures var w' := Pass(w, m, find, e).0;
            && SamePositions(w, w') && w'.pushedMark.None? && Head(w'.log).seqNo > w'.pushedSeq
            && w'.remote.Some? && w'.remote.value.lastUpdate == w'.remoteUpdatedMs
            && !Inactive(w', e) && !Agree(w', m, find)
  {
    PullIsFresh(w, m, find, e);
    var w' := Pass(w, m, find, e).0;
    CursorDoesNotMatter(w, w', m, find);
    HeldBelowTheHead(w.log, Holding(w.log, RowId(w)).value, w.remote.value.lastUpdate);
  }

  /** An operation pulled later than the newest reading is not the newest. */
  lemma HeldBelowTheHead(log: seq<Op>, known: Op, lastUpdate: int)
    requires SoundLog(log) && known in log && known.id.Pulled? && known.id.lastUpdate == lastUpdate
    requires Head(log).seqNo == 0 || lastUpdate > Head(log).clientTs
    ensures known.seqNo < Head(log).seqNo
  {
    var i :| 0 <= i < |log| && log[i] == known;
    assert i < |log| - 1;
  }

  /** Every pass from there either skips or pushes that head. */
  lemma UnsentHeadPass(w: World, m: Mapping, find: Op -> Option<TextMatch>, e: Env)
    requires WellFormed(m) && w.pushedMark.None? && w.remote.Some? && w.remote.value.lastUpdate == w.remoteUpdatedMs
    requires Head(w.log).seqNo > w.pushedSeq && !Agree(w, m, find)
    ensures Pass(w, m, find, e) == if Inactive(w, e) then (w, Skipped) else PushPass(w, m, find, e)
  {
    assert w.(pushedMark := None) == w;
  }

  /** A pull that found its operation already in the log leaves the newer local head in place. The link is at rest
      exactly when that head cannot be pushed. */
  lemma DuplicatePull(w: World, m: Mapping, find: Op -> Option<TextMatch>, e: Env)
    requires WellFormed(m) && Pass(w, m, find, e).1.Pulling? && w.remote.Some? && Holding(w.log, RowId(w)).Some?
    requires SoundLog(w.log)
    ensures var w' := Pass(w, m, find, e).0;
            AtRest(w', m, find, e.cutoff) <==> !Sendable(w', Head(w'.log)) || PushTime(w', m, find).None?
    ensures var w' := Pass(w, m, find, e).0;
            forall e': Env | Calm(e') && NotEarlier(e.cutoff, e'.cutoff) ::
              Pass(w', m, find, e').1.Skipped? || Pass(w', m, find, e').1.Pushed?
  {
    DuplicateLeavesTheHead(w, m, find, e);
    var w' := Pass(w, m, find, e).0;
    if PushTime(w', m, find).Some? { PushTimeIsWritable(w', m, find); }
    forall e': Env | NotEarlier(e.cutoff, e'.cutoff)
      ensures Pass(w', m, find, e') == if Inactive(w', e') then (w', Skipped) else PushPass(w', m, find, e')
    {
      UnsentHeadPass(w', m, find, e');
    }
    assert NotEarlier(e.cutoff, e.cutoff);
    assert PushPass(w', m, find, e).1.Skipped? <==> !Sendable(w', Head(w'.log)) || PushTime(w', m, find).None?;
  }

  /** Such a head exists: a pull that changed nothing is followed by a push. */
  lemma DuplicatePullIsNotRest(key: LinkKey, find: Op -> Option<TextMatch>)
    ensures var m := LinearMapping([Resource("text", 0.0, 1.0)], 100.0);
            var taken := Op(Pulled(key, 50, 20.0, false), 1, 50, 0.2, PeerPrefix(key.peer) + "audiobookshelf",
                Some(key.edition), None);
            var read := Op(Other("later"), 2, 10, 0.5, "phone", None, None);
            var w := World(key, 0, None, 0, [taken, read], Some(Progress(20.0, false, 50)));
            var e := Env(None, true, true, 0, true, 60, true);
            && WellFormed(m) && Pass(w, m, find, e) == (w.(pushedSeq := 1, remoteUpdatedMs := 50), Pulling)
            && !AtRest(w.(pushedSeq := 1, remoteUpdatedMs := 50), m, find, None)
  {
    var m := LinearMapping([Resource("text", 0.0, 1.0)], 100.0);
    LinearIsWellFormed([Resource("text", 0.0, 1.0)], 100.0);
    var taken := Op(Pulled(key, 50, 20.0, false), 1, 50, 0.2, PeerPrefix(key.peer) + "audiobookshelf",
        Some(key.edition), None);
    var read := Op(Other("later"), 2, 10, 0.5, "phone", None, None);
    var r := Progress(20.0, false, 50);
    var w := World(key, 0, None, 0, [taken, read], Some(r));
    var e := Env(None, true, true, 0, true, 60, true);
    assert PeerPrefix(key.peer)[0] == 'a' && read.deviceId[0] == 'p';
    assert Sendable(w, read);
    assert SegmentAt(m, 20.0, Audio) == Some(0) && SegmentAt(m, 0.5, Book) == Some(0);
    assert RemoteSpot(m, r) == Some(Spot(0.2, m.segments[0]));
    assert LocalSpot(w, m, find) == AudioSpot(Some(50.0), false);
    var w' := w.(pushedSeq := 1, remoteUpdatedMs := 50);
    CursorDoesNotMatter(w, w', m, find);
    assert !Agree(w, m, find);
    assert WantsPull(w) && !WantsPull(w');
    assert Holding(w.log, Pulled(key, 50, 20.0, false)) == Some(taken);
    assert PushTime(w', m, find) == Some(50.0);
    assert Pass(w', m, find, e).1 == Pushed;
  }

  /** How many times a pass writes: an operation appended, or a row sent. */
  function WritesOf(w: World, m: Mapping, find: Op -> Option<TextMatch>, e: Env): nat
    requires WellFormed(m)
  {
    var (w', o) := Pass(w, m, find, e);
    (|w'.log| - |w.log| as int) + (if o.Pushed? || o.PushedUnread? then 1 else 0)
  }

  function Writes(w: World, m: Mapping, find: Op -> Option<TextMatch>, es: seq<Env>): nat
    requires WellFormed(m)
    decreases |es|
  {
    if es == [] then 0 else WritesOf(w, m, find, es[0]) + Writes(Pass(w, m, find, es[0]).0, m, find, es[1..])
  }

  ghost predicate CalmRun(es: seq<Env>) {
    && (forall i | 0 <= i < |es| :: Calm(es[i]))
    && (forall i, j | 0 <= i < j < |es| :: NotEarlier(es[i].cutoff, es[j].cutoff))
  }

  lemma {:induction false} RestWritesNothing(w: World, m: Mapping, find: Op -> Option<TextMatch>, cutoff: Option<int>,
                                             es: seq<Env>)
    requires WellFormed(m) && AtRest(w, m, find, cutoff)
    requires forall i | 0 <= i < |es| :: NotEarlier(cutoff, es[i].cutoff)
    ensures Writes(w, m, find, es) == 0
    decreases |es|
  {
    if es != [] { RestWritesNothing(w, m, find, cutoff, es[1..]); }
  }

  /** With no change from outside, a calm link writes at most once, however many passes run. */
  lemma {:induction false} AtMostOneWrite(w: World, m: Mapping, find: Op -> Option<TextMatch>, es: seq<Env>)
    requires WellFormed(m) && CalmRun(es)
    ensures Writes(w, m, find, es) <= 1
    decreases |es|
  {
    if es != [] {
      var (w', o) := Pass(w, m, find, es[0]);
      if WritesOf(w, m, find, es[0]) == 0 {
        AtMostOneWrite(w', m, find, es[1..]);
      } else {
        if o.Pushed? { PushComesToRest(w, m, find, es[0]); } else { PullComesToRest(w, m, find, es[0]); }
        RestWritesNothing(w', m, find, es[0].cutoff, es[1..]);
      }
    }
  }

  // ----- without the readback

  /** The row a push from this world leaves. */
  function PushedRow(w: World, m: Mapping, find: Op -> Option<TextMatch>, e: Env): Progress
    requires PushTime(w, m, find).Some?
  {
    Progress(PushTime(w, m, find).value, LocallyFinished(m, Head(w.log)), e.peerNow)
  }

  /** An unread push is let be: the row it left agrees with the reading, or is no later than the cursor, or is later
      than the reading but not to be pulled. */
  ghost predicate LetBe(w: World, m: Mapping, find: Op -> Option<TextMatch>, e: Env)
    requires WellFormed(m) && PushTime(w, m, find).Some?
  {
    var row := PushedRow(w, m, find, e);
    || SamePlace(m, row, Head(w.log), LocalSpot(w, m, find)) || e.peerNow <= w.remoteUpdatedMs
    || (e.peerNow > Head(w.log).clientTs
        && (RemoteSpot(m, row).None? || (row.currentTime == 0.0 && Head(w.log).progression > 0.0)))
  }

  lemma UnreadPushLeaves(w: World, m: Mapping, find: Op -> Option<TextMatch>, e: Env)
    requires WellFormed(m) && Pass(w, m, find, e).1.PushedUnread?
    ensures PushTime(w, m, find).Some? && Sendable(w, Head(w.log))
    ensures var w' := Pass(w, m, find, e).0;
            && w'.key == w.key && w'.log == w.log && w'.remoteUpdatedMs == w.remoteUpdatedMs
            && w'.pushedSeq == Head(w.log).seqNo && w'.remote == Some(PushedRow(w, m, find, e))
            && w'.pushedMark == Some(ProgressMark(PushedRow(w, m, find, e)))
  {
    LocalSpotIsTheSame(w, w.(pushedMark := None), m, find);
  }

  /** Nothing but the log and the key decides what is read of a local position. */
  lemma LocalPositionOnly(w: World, w': World, m: Mapping, find: Op -> Option<TextMatch>)
    requires w'.key == w.key && w'.log == w.log
    ensures LocalSpot(w', m, find) == LocalSpot(w, m, find) && PushTime(w', m, find) == PushTime(w, m, find)
  {
    assert Sendable(w', Head(w'.log)) == Sendable(w, Head(w.log));
  }

  /** After a push whose readback failed the next calm pass skips exactly when the push is let be, or both sides have
      fallen out of the active days. Otherwise it pulls the row back when that is later than the reading, and pushes
      again when it is not. */
  lemma AfterAnUnreadPush(w: World, m: Mapping, find: Op -> Option<TextMatch>, e: Env, e': Env)
    requires WellFormed(m) && m.resources != [] && Pass(w, m, find, e).1.PushedUnread? && Calm(e')
    ensures PushTime(w, m, find).Some?
    ensures var w' := Pass(w, m, find, e).0;
            var o := Pass(w', m, find, e').1;
            && (o.Skipped? <==> LetBe(w, m, find, e) || Inactive(w', e'))
            && (!o.Skipped? ==> if e.peerNow > Head(w.log).clientTs then o.Pulling? else o.Pushed?)
  {
    UnreadPushLeaves(w, m, find, e);
    var w' := Pass(w, m, find, e).0;
    LocalPositionOnly(w, w', m, find);
    LocalPositionOnly(w, w'.(pushedMark := None), m, find);
    PushTimeIsWritable(w, m, find);
    assert Agree(w', m, find) <==> SamePlace(m, PushedRow(w, m, find, e), Head(w.log), LocalSpot(w, m, find));
    assert Echo(w') <==> e.peerNow <= w.remoteUpdatedMs;
  }

  /** So a second write follows exactly when it is not let be and, if it is pulled back, is not already in the log. */
  lemma UnreadPushWritesTwiceExactly(w: World, m: Mapping, find: Op -> Option<TextMatch>, e: Env, e': Env)
    requires WellFormed(m) && m.resources != [] && Pass(w, m, find, e).1.PushedUnread? && Calm(e')
    ensures PushTime(w, m, find).Some?
    ensures var w' := Pass(w, m, find, e).0;
            WritesOf(w, m, find, e) == 1 &&
            (WritesOf(w', m, find, e') == 1 <==>
              && !LetBe(w, m, find, e) && !Inactive(w', e')
              && (e.peerNow > Head(w.log).clientTs ==> w'.remote.Some? && Holding(w'.log, RowId(w')).None?))
  {
    UnreadPushLeaves(w, m, find, e);
    AfterAnUnreadPush(w, m, find, e, e');
    WritesByOutcome(w, m, find, e);
    WritesByOutcome(Pass(w, m, find, e).0, m, find, e');
  }

  /** What each outcome has written. */
  lemma WritesByOutcome(w: World, m: Mapping, find: Op -> Option<TextMatch>, e: Env)
    requires WellFormed(m)
    ensures var o := Pass(w, m, find, e).1;
            && (o.Skipped? || o.Failed? ==> WritesOf(w, m, find, e) == 0)
            && (o.Pushed? || o.PushedUnread? ==> WritesOf(w, m, find, e) == 1)
            && (o.Pulling? ==>
                  w.remote.Some? && WritesOf(w, m, find, e) == if Holding(w.log, RowId(w)).None? then 1 else 0)
  {
  }

  /** A book read to its end on a phone, on a link of ten thousand seconds of audio. */
  const LONG := LinearMapping([Resource("text", 0.0, 1.0)], 10000.0)

  function ReadToTheEnd(key: LinkKey): World {
    World(key, 0, None, 0, [Op(Other("end"), 1, 10, 0.9995, "phone", None, None)], None)
  }

  function Unread(peerNow: int): Env { Env(None, true, true, 0, true, peerNow, false) }

  /** The end is pushed as finished, which reads back as the very end and not as 0.9995: unread, it is pulled back when
      the peer's stamp is later than the reading, and pushed once more when it is not. */
  lemma TheEndIsWrittenTwice(key: LinkKey, find: Op -> Option<TextMatch>, peerNow: int, e': Env)
    requires peerNow > 0 && Calm(e') && e'.cutoff.None?
    ensures var w, e := ReadToTheEnd(key), Unread(peerNow);
            && WellFormed(LONG) && Pass(w, LONG, find, e).1.PushedUnread?
            && WritesOf(w, LONG, find, e) == 1 && WritesOf(Pass(w, LONG, find, e).0, LONG, find, e') == 1
            && Pass(Pass(w, LONG, find, e).0, LONG, find, e').1 == if peerNow > 10 then Pulling else Pushed
  {
    var w, e := ReadToTheEnd(key), Unread(peerNow);
    LinearIsWellFormed([Resource("text", 0.0, 1.0)], 10000.0);
    assert PeerPrefix(key.peer)[0] == 'a' && Head(w.log).deviceId[0] == 'p';
    assert PushTime(w, LONG, find) == Some(10000.0);
    var row := PushedRow(w, LONG, find, e);
    assert SegmentAt(LONG, 10000.0, Audio) == Some(0) && SegmentAt(LONG, 0.9995, Book) == Some(0);
    assert RemoteSpot(LONG, row) == Some(Spot(1.0, LONG.segments[0]));
    assert !LocalSpot(w, LONG, find).usedLocator;
    assert !SamePlace(LONG, row, Head(w.log), LocalSpot(w, LONG, find));
    UnreadPushLeaves(w, LONG, find, e);
    UnreadPushWritesTwiceExactly(w, LONG, find, e, e');
    AfterAnUnreadPush(w, LONG, find, e, e');
    var w' := Pass(w, LONG, find, e).0;
    assert Holding(w'.log, RowId(w')).None?;
  }

  // ----- runs with a reader and a listener

  /** What happens to a link over time: somebody reads on another device, somebody listens, a pass runs. */
  datatype Event = Read(op: Op) | Listen(row: Progress) | Run(e: Env)

  /** The world, the latest time the peer has stamped, and the remote rows each pass has dealt with so far:
      taken into the log, found to agree with it, or written by the pass itself. */
  datatype System = System(w: World, clock: int, pulled: set<Progress>, agreed: set<Progress>, written: set<Progress>)

  function Seen(s: System): set<Progress> { s.pulled + s.agreed + s.written }

  ghost predicate Possible(s: System, ev: Event) {
    match ev
    case Read(op) => op.seqNo > Head(s.w.log).seqNo && op.id.Other?
    case Listen(row) => row.lastUpdate > s.clock
    case Run(e) => e.peerNow > s.clock
  }

  ghost function Step(s: System, ev: Event, m: Mapping, find: Op -> Option<TextMatch>): System
    requires WellFormed(m)
  {
    match ev
    case Read(op) => s.(w := s.w.(log := s.w.log + [op]))
    case Listen(row) => s.(w := s.w.(remote := Some(row)), clock := row.lastUpdate)
    case Run(e) =>
      var (w', o) := Pass(s.w, m, find, e);
      match o
      case Pulling => s.(w := w', pulled := s.pulled + {s.w.remote.value})
      case Failed => s.(w := w')
      case Skipped =>
        s.(w := w',
           agreed := if !Inactive(s.w, e) && Agree(s.w, m, find) then s.agreed + {s.w.remote.value} else s.agreed)
      case _ => s.(w := w', clock := e.peerNow, written := s.written + {w'.remote.value})
  }

  /** A fresh link: nothing taken in yet, and every row the peer has carries a real time stamp. */
  ghost predicate Start(s: System) {
    && s.w.remoteUpdatedMs == 0 && s.clock > 0 && Seen(s) == {}
    && (s.w.remote.Some? ==> 0 < s.w.remote.value.lastUpdate <= s.clock)
    && SoundLog(s.w.log) && (forall i | 0 <= i < |s.w.log| :: s.w.log[i].id.Other?)
  }

  ghost predicate Reachable(s: System, evs: seq<Event>, s': System, m: Mapping, find: Op -> Option<TextMatch>)
    requires WellFormed(m)
    decreases |evs|
  {
    if evs == [] then s' == s
    else Possible(s, evs[0]) && Reachable(Step(s, evs[0], m, find), evs[1..], s', m, find)
  }

  /** The row r has its operation in the log, as the peer's. */
  ghost predicate InLog(w: World, r: Progress) {
    exists op :: op in w.log && op.id == Pulled(w.key, r.lastUpdate, r.currentTime, r.isFinished)
  }

  /** No row at or below the cursor is unseen. */
  ghost predicate CursorInv(s: System) {
    && s.w.remoteUpdatedMs <= s.clock
    && (s.w.remote.Some? ==> s.w.remote.value.lastUpdate <= s.clock)
    && (s.w.remote.Some? && s.w.remote.value.lastUpdate <= s.w.remoteUpdatedMs ==> s.w.remote.value in Seen(s))
  }

  /** Pulled rows are in the log, once each, as the peer's. */
  ghost predicate LogInv(s: System) {
    PulledOnce(s.w) && forall r | r in s.pulled :: InLog(s.w, r)
  }

  ghost predicate PulledOnce(w: World) {
    && SoundLog(w.log)
    && (forall i | 0 <= i < |w.log| && w.log[i].id.Pulled? :: FromPeer(w, w.log[i]))
    && (forall i, j | 0 <= i < j < |w.log| && w.log[j].id.Pulled? :: w.log[i].id != w.log[j].id)
  }

  lemma AppendKeepsPulledOnce(w: World, w': World, op: Op)
    requires PulledOnce(w) && w'.key == w.key && w'.log == w.log + [op] && op.seqNo > Head(w.log).seqNo
    requires op.id.Pulled? ==> FromPeer(w, op) && op.clientTs == op.id.lastUpdate
                               && forall o | o in w.log :: o.id != op.id
    ensures PulledOnce(w')
  {
    assert forall i | 0 <= i < |w.log| :: w.log[i].seqNo <= Head(w.log).seqNo;
    assert forall i | 0 <= i < |w.log| :: w.log[i] in w.log;
  }

  lemma GrowthKeepsRows(w: World, w': World, r: Progress)
    requires w'.key == w.key && w.log <= w'.log && InLog(w, r)
    ensures InLog(w', r)
  {
    var op :| op in w.log && op.id == Pulled(w.key, r.lastUpdate, r.currentTime, r.isFinished);
    assert op in w'.log;
  }

  ghost predicate Inv(s: System) { CursorInv(s) && LogInv(s) }

  lemma StepKeepsCursor(s: System, ev: Event, m: Mapping, find: Op -> Option<TextMatch>)
    requires WellFormed(m) && CursorInv(s) && Possible(s, ev)
    ensures CursorInv(Step(s, ev, m, find))
  {
  }

  /** How a step changes the log: not at all, or by one later operation at its end. */
  ghost predicate LogStep(w: World, w': World) {
    && w'.key == w.key
    && (w'.log == w.log ||
        (&& |w'.log| > 0
         && var op := Head(w'.log);
         && w'.log == w.log + [op] && op.seqNo > Head(w.log).seqNo
         && (op.id.Pulled? ==> FromPeer(w, op) && op.clientTs == op.id.lastUpdate
                               && forall o | o in w.log :: o.id != op.id)))
  }

  lemma StepsAreLogSteps(s: System, ev: Event, m: Mapping, find: Op -> Option<TextMatch>)
    requires WellFormed(m) && Possible(s, ev)
    ensures LogStep(s.w, Step(s, ev, m, find).w)
  {
    if ev.Run? { PassIsALogStep(s.w, m, find, ev.e); }
  }

  lemma PassIsALogStep(w: World, m: Mapping, find: Op -> Option<TextMatch>, e: Env)
    requires WellFormed(m)
    ensures LogStep(w, Pass(w, m, find, e).0)
  {
    if Pass(w, m, find, e).1.Pulling? { PullIsFresh(w, m, find, e); }
  }

  lemma StepKeepsLog(s: System, ev: Event, m: Mapping, find: Op -> Option<TextMatch>)
    requires WellFormed(m) && LogInv(s) && Possible(s, ev)
    ensures LogInv(Step(s, ev, m, find))
  {
    var s' := Step(s, ev, m, find);
    StepsAreLogSteps(s, ev, m, find);
    if s'.w.log != s.w.log { AppendKeepsPulledOnce(s.w, s'.w, Head(s'.w.log)); }
    forall r | r in s'.pulled ensures InLog(s'.w, r) {
      if r in s.pulled { GrowthKeepsRows(s.w, s'.w, r); } else { PullRecords(s.w, m, find, ev.e); }
    }
  }

  lemma PullRecords(w: World, m: Mapping, find: Op -> Option<TextMatch>, e: Env)
    requires WellFormed(m) && Pass(w, m, find, e).1.Pulling?
    ensures InLog(Pass(w, m, find, e).0, w.remote.value)
  {
    var w', r := Pass(w, m, find, e).0, w.remote.value;
    var known := Holding(w.log, Pulled(w.key, r.lastUpdate, r.currentTime, r.isFinished));
    if known.None? {
      assert w'.log[|w'.log| - 1].id == Pulled(w.key, r.lastUpdate, r.currentTime, r.isFinished);
    }
  }

  lemma {:induction false} RunKeepsInv(s: System, evs: seq<Event>, s': System, m: Mapping,
                                       find: Op -> Option<TextMatch>)
    requires WellFormed(m) && Inv(s) && Reachable(s, evs, s', m, find)
    ensures Inv(s')
    decreases |evs|
  {
    if evs != [] {
      StepKeepsCursor(s, evs[0], m, find);
      StepKeepsLog(s, evs[0], m, find);
      RunKeepsInv(Step(s, evs[0], m, find), evs[1..], s', m, find);
    }
  }

  /** Over every run from a fresh link: a push replaces a row only when it is absent, not later than the reading that
      replaces it, or one a pass has already pulled, agreed with or written; every row counted as pulled has its
      operation in the log, once; and what is pushed never came from the peer. */
  lemma NoUnseenListeningIsOverwritten(s: System, evs: seq<Event>, s': System, e: Env, m: Mapping,
                                       find: Op -> Option<TextMatch>)
    requires WellFormed(m) && Start(s) && Reachable(s, evs, s', m, find)
    ensures forall r | r in s'.pulled :: InLog(s'.w, r)
    ensures forall i, j | 0 <= i < j < |s'.w.log| && s'.w.log[j].id.Pulled? :: s'.w.log[i].id != s'.w.log[j].id
    ensures Pass(s'.w, m, find, e).1.Pushed? || Pass(s'.w, m, find, e).1.PushedUnread? ==>
              && (s'.w.remote.None? || s'.w.remote.value.lastUpdate <= Head(s'.w.log).clientTs
                   || s'.w.remote.value in Seen(s'))
              && !Head(s'.w.log).id.Pulled?
  {
    RunKeepsInv(s, evs, s', m, find);
    if Pass(s'.w, m, find, e).1.Pushed? || Pass(s'.w, m, find, e).1.PushedUnread? {
      PushIsJustified(s'.w, m, find, e);
      assert s'.w.log != [] ==> Head(s'.w.log) == s'.w.log[|s'.w.log| - 1];
    }
  }
}
