/** One pass of the two-way position exchange with Audiobookshelf (internal/audiobookshelf/sync.go, `exchange`).

  A pass sees the newest local reading position, the remote listening position and the link's cursor, and it
  pulls the remote position into the log, pushes the local one to the peer, or leaves both alone.
*/
module Exchange {
  import opened Wrappers
  import opened AudioMap
  import opened Locator
  import Text

  /** A remote progress row; `lastUpdate` is the peer's clock in milliseconds. */
  datatype Progress = Progress(currentTime: real, isFinished: bool, lastUpdate: int)

  /** `progressMark`: "%.0f:%t" of a row. */
  datatype Mark = Mark(seconds: int, finished: bool)

  /** What a pulled operation's id is hashed from; other operations carry ids of their own. */
  datatype OpId =
    | Pulled(link: LinkKey, lastUpdate: int, currentTime: real, isFinished: bool)
    | Other(id: string)

  datatype Op = Op(
    id: OpId, seqNo: nat, clientTs: int, progression: real, deviceId: string, edition: Option<string>,
    locator: Option<Locator>)

  /** The parts of a link a pass never changes. */
  datatype LinkKey = LinkKey(peer: string, item: string, generation: string, edition: string)

  /** Everything a pass reads or writes: the link's cursor, the work's log, the peer's row. */
  datatype World = World(
    key: LinkKey, pushedSeq: int, pushedMark: Option<Mark>, remoteUpdatedMs: int, log: seq<Op>,
    remote: Option<Progress>)

  /** What a pass meets on its way: the cut-off of `active_days`, the answers of the store and of the peer. */
  datatype Env = Env(
    cutoff: Option<int>, ready: bool, appends: bool, seqGap: nat, updates: bool, peerNow: int, readsBack: bool)

  /** `PushedUnread` is a push whose readback failed: reported as an error, but the write happened. */
  datatype Outcome = Skipped | Pulling | Pushed | PushedUnread | Failed

  function RoundHalfEven(x: real): int {
    var f := x.Floor;
    var d := x - f as real;
    if d < 0.5 || (d == 0.5 && f % 2 == 0) then f else f + 1
  }

  function ProgressMark(p: Progress): Mark { Mark(RoundHalfEven(p.currentTime), p.isFinished) }

  /** `peerPrefix`; a peer identity is sixteen hexadecimal digits. */
  function PeerPrefix(peer: string): string {
    "abs-" + (if |peer| >= 8 then peer[..8] else peer) + ":"
  }

  /** The zero time of an absent operation, in milliseconds. */
  const ZERO_TIME: int := -62135596800000

  const NO_OP: Op := Op(Other(""), 0, ZERO_TIME, 0.0, "", None, None)

  /** The newest operation of the work, by sequence number. */
  function Head(log: seq<Op>): Op { if log == [] then NO_OP else log[|log| - 1] }

  predicate FromPeer(w: World, op: Op) { Text.HasPrefix(op.deviceId, PeerPrefix(w.key.peer)) }

  predicate SameEdition(w: World, op: Op) { op.edition.None? || op.edition.value == w.key.edition }

  /** The operation can be sent to the peer at all. */
  predicate Sendable(w: World, op: Op) { op.seqNo > 0 && SameEdition(w, op) && !FromPeer(w, op) }

  // ----- what a pass makes of the two positions

  function RemoteTime(m: Mapping, r: Progress): real { if r.isFinished then CoverEnd(m, Audio) else r.currentTime }

  /** The remote position as a place in the book. */
  function RemoteSpot(m: Mapping, r: Progress): Option<Spot> {
    var spot := ToBook(m, RemoteTime(m, r));
    if r.isFinished && m.fullNarrative && spot.Some? then Some(spot.value.(progression := 1.0)) else spot
  }

  /** The local position as a time in the audio. */
  function LocalSpot(w: World, m: Mapping, find: Op -> Option<TextMatch>): AudioSpot {
    var op := Head(w.log);
    if Sendable(w, op) then ToAudioLocator(m, op.progression, op.locator, find(op)) else AudioSpot(None, false)
  }

  predicate LocallyFinished(m: Mapping, op: Op) { op.progression >= 0.999 && m.coversLast }

  /** Both sides are already at the same place, and agree on whether the book is finished. */
  predicate Agree(w: World, m: Mapping, find: Op -> Option<TextMatch>)
    requires WellFormed(m)
  {
    && w.remote.Some? && Head(w.log).seqNo > 0 && SameEdition(w, Head(w.log))
    && SamePlace(m, w.remote.value, Head(w.log), LocalSpot(w, m, find))
  }

  /** Row and operation are within tolerance of one another. */
  predicate SamePlace(m: Mapping, r: Progress, op: Op, local: AudioSpot)
    requires WellFormed(m)
  {
    && RemoteSpot(m, r).Some?
    && var spot := RemoteSpot(m, r).value;
    && (SpotHasWidth(m, r);
        if local.usedLocator && local.at.Some? then Abs(local.at.value - RemoteTime(m, r)) <= 1.0
        else
          var tolerance :=
            (spot.segment.bookEnd - spot.segment.bookStart) / (spot.segment.audioEnd - spot.segment.audioStart);
          Abs(op.progression - spot.progression) <= Max(tolerance, 0.000000001))
    && (|| r.isFinished == LocallyFinished(m, op)
        || (!m.fullNarrative && r.isFinished && Abs(op.progression - 0.998) < 0.000000001))
  }

  lemma SpotHasWidth(m: Mapping, r: Progress)
    requires WellFormed(m) && RemoteSpot(m, r).Some?
    ensures var s := RemoteSpot(m, r).value.segment; s.audioStart < s.audioEnd
  {
    var i := SegmentAt(m, RemoteTime(m, r), Audio).value;
    assert Lo(m.segments[i], Audio) < Hi(m.segments[i], Audio);
  }

  /** The remote row is the one this server wrote last. */
  predicate Echo(w: World) {
    && w.remote.Some? && w.pushedMark.Some?
    && ProgressMark(w.remote.value) == w.pushedMark.value
    && w.remote.value.lastUpdate <= w.remoteUpdatedMs
  }

  predicate Inactive(w: World, e: Env) {
    && e.cutoff.Some? && Head(w.log).clientTs < e.cutoff.value
    && (w.remote.None? || w.remote.value.lastUpdate < e.cutoff.value)
  }

  /** The remote position is the later one, and has not been superseded by a local one since it was taken in. */
  predicate WantsPull(w: World) {
    && w.remote.Some? && !Echo(w)
    && var r, op := w.remote.value, Head(w.log);
    && (op.seqNo == 0 || r.lastUpdate > op.clientTs)
    && !(r.lastUpdate <= w.remoteUpdatedMs && op.seqNo > w.pushedSeq)
  }

  function PulledOp(w: World, m: Mapping, r: Progress, spot: Spot, seqNo: nat, loc: Locator): Op {
    Op(Pulled(w.key, r.lastUpdate, r.currentTime, r.isFinished), seqNo, r.lastUpdate, spot.progression,
       PeerPrefix(w.key.peer) + "audiobookshelf", Some(w.key.edition), Some(loc))
  }

  function Holding(log: seq<Op>, id: OpId): (r: Option<Op>)
    ensures r.Some? ==> r.value in log && r.value.id == id
    ensures r.None? ==> forall op | op in log :: op.id != id
  {
    if log == [] then None else if log[0].id == id then Some(log[0]) else Holding(log[1..], id)
  }

  /** The pull branch, on a world whose mark is already cleared. */
  function PullPass(w: World, m: Mapping, e: Env): (World, Outcome)
    requires w.remote.Some?
  {
    var r, op, spot := w.remote.value, Head(w.log), RemoteSpot(m, w.remote.value);
    if r.lastUpdate <= w.remoteUpdatedMs || spot.None? || (r.currentTime == 0.0 && op.progression > 0.0) then
      (w, Skipped)
    else if !e.ready then (w, Failed)
    else
      var loc := LocatorAt(m, spot.value.progression, spot.value.segment,
                           RemoteTime(m, r) == spot.value.segment.audioStart, Snippet("", "", ""));
      if loc.None? || !e.appends then (w, Failed)
      else
        var pulled := PulledOp(w, m, r, spot.value, op.seqNo + 1 + e.seqGap, loc.value);
        var known := Holding(w.log, pulled.id);
        if known.Some? then (w.(pushedSeq := known.value.seqNo, remoteUpdatedMs := r.lastUpdate), Pulling)
        else (w.(log := w.log + [pulled], pushedSeq := pulled.seqNo, remoteUpdatedMs := r.lastUpdate), Pulling)
  }

  /** The time a push writes. */
  function PushTime(w: World, m: Mapping, find: Op -> Option<TextMatch>): Option<real> {
    var at := if LocallyFinished(m, Head(w.log)) then Some(CoverEnd(m, Audio)) else LocalSpot(w, m, find).at;
    if at.None? then None else Some(Min(at.value, m.duration))
  }

  /** What `UpdateProgress` accepts. */
  predicate Writable(at: real, duration: real) { duration > 0.0 && 0.0 <= at <= duration }

  /** The push branch. */
  function PushPass(w: World, m: Mapping, find: Op -> Option<TextMatch>, e: Env): (World, Outcome) {
    var op := Head(w.log);
    if !Sendable(w, op) || PushTime(w, m, find).None? then (w, Skipped)
    else if !e.ready || !Writable(PushTime(w, m, find).value, m.duration) || !e.updates then (w, Failed)
    else
      var row := Progress(PushTime(w, m, find).value, LocallyFinished(m, op), e.peerNow);
      var w' := w.(pushedSeq := op.seqNo, pushedMark := Some(ProgressMark(row)), remote := Some(row));
      if e.readsBack then (w'.(remoteUpdatedMs := e.peerNow), Pushed) else (w', PushedUnread)
  }

  /** The whole pass, as one step from world to world. */
  function Pass(w: World, m: Mapping, find: Op -> Option<TextMatch>, e: Env): (World, Outcome)
    requires WellFormed(m)
  {
    if Inactive(w, e) then (w, Skipped)
    else if Agree(w, m, find) then
      (w.(pushedSeq := Head(w.log).seqNo, remoteUpdatedMs := w.remote.value.lastUpdate), Skipped)
    else if Echo(w) then
      if Head(w.log).seqNo <= w.pushedSeq then (w, Skipped) else PushPass(w, m, find, e)
    else
      var clear := w.(pushedMark := None);
      if WantsPull(w) then PullPass(clear, m, e) else PushPass(clear, m, find, e)
  }

  /** The link, its work's log and the peer's row as the program holds them, updated in place by each pass. */
  class Exchanger {
    const key: LinkKey
    var pushedSeq: int
    var pushedMark: Option<Mark>
    var remoteUpdatedMs: int
    var log: seq<Op>
    var remote: Option<Progress>

    function Contents(): World
      reads this
    {
      World(key, pushedSeq, pushedMark, remoteUpdatedMs, log, remote)
    }

    constructor (key: LinkKey, log: seq<Op>, remote: Option<Progress>)
      ensures Contents() == World(key, 0, None, 0, log, remote)
    {
      this.key, this.log, this.remote := key, log, remote;
      pushedSeq, pushedMark, remoteUpdatedMs := 0, None, 0;
    }

    /** `exchange`. */
    method Exchange(m: Mapping, find: Op -> Option<TextMatch>, e: Env) returns (outcome: Outcome)
      requires WellFormed(m)
      modifies this
      ensures (Contents(), outcome) == Pass(old(Contents()), m, find, e)
    {
      var local := Head(log);
      if e.cutoff.Some? && local.clientTs < e.cutoff.value &&
         (remote.None? || remote.value.lastUpdate < e.cutoff.value) {
        return Skipped;
      }
      var same := Agree(Contents(), m, find);
      if same {
        pushedSeq, remoteUpdatedMs := local.seqNo, remote.value.lastUpdate;
        return Skipped;
      }
      var echo := Echo(Contents());
      if !echo {
        pushedMark := None;
      }
      if echo && local.seqNo <= pushedSeq {
        return Skipped;
      }
      var pull := remote.Some? && !echo && (local.seqNo == 0 || remote.value.lastUpdate > local.clientTs);
      if pull && remote.value.lastUpdate <= remoteUpdatedMs && local.seqNo > pushedSeq {
        pull := false;
      }
      if pull {
        outcome := Pull(m, e);
      } else {
        outcome := Push(m, find, e);
      }
    }

    /** The branch of `exchange` that takes the remote position into the log. */
    method Pull(m: Mapping, e: Env) returns (outcome: Outcome)
      requires remote.Some?
      modifies this
      ensures (Contents(), outcome) == PullPass(old(Contents()), m, e)
    {
      var r, local, spot := remote.value, Head(log), RemoteSpot(m, remote.value);
      if r.lastUpdate <= remoteUpdatedMs || spot.None? || (r.currentTime == 0.0 && local.progression > 0.0) {
        return Skipped;
      }
      if !e.ready {
        return Failed;
      }
      var s := spot.value;
      var loc := LocatorAt(m, s.progression, s.segment, RemoteTime(m, r) == s.segment.audioStart, Snippet("", "", ""));
      if loc.None? || !e.appends {
        return Failed;
      }
      var op := PulledOp(Contents(), m, r, s, local.seqNo + 1 + e.seqGap, loc.value);
      var known := Holding(log, op.id);
      if known.None? {
        log := log + [op];
      }
      pushedSeq, remoteUpdatedMs := (if known.Some? then known.value.seqNo else op.seqNo), r.lastUpdate;
      return Pulling;
    }

    /** The branch of `exchange` that sends the local position to the peer. */
    method Push(m: Mapping, find: Op -> Option<TextMatch>, e: Env) returns (outcome: Outcome)
      modifies this
      ensures (Contents(), outcome) == PushPass(old(Contents()), m, find, e)
    {
      var local := Head(log);
      if !Sendable(Contents(), local) {
        return Skipped;
      }
      var at := LocalSpot(Contents(), m, find).at;
      var finished := LocallyFinished(m, local);
      if finished {
        at := Some(CoverEnd(m, Audio));
      }
      if at.None? {
        return Skipped;
      }
      if !e.ready {
        return Failed;
      }
      var time := Min(at.value, m.duration);
      if !Writable(time, m.duration) || !e.updates {
        return Failed;
      }
      remote := Some(Progress(time, finished, e.peerNow));
      pushedSeq, pushedMark := local.seqNo, Some(ProgressMark(remote.value));
      if !e.readsBack {
        return PushedUnread;
      }
      if ProgressMark(remote.value) == pushedMark.value {
        remoteUpdatedMs := remote.value.lastUpdate;
      }
      return Pushed;
    }
  }
}
