/** Importing listening sessions page by page (internal/audiobookshelf/sessions.go, `importSessions`). */
module Sessions {
  import opened Wrappers

  datatype Session = Session(id: string, item: string, startedAt: int, updatedAt: int, device: string)

  /** What `Session.Validate` says of a session. */
  datatype Verdict = Valid | Malformed | Future

  datatype Page = Page(total: int, numPages: int, sessions: seq<Session>)

  const PER_PAGE: nat := 100

  const DEFAULT_OVERLAP_MS: int := 600000

  /** The unchanging surroundings of one import: the item, the clock, the checks, and what the server answers. */
  datatype Source = Source(
    item: string, nowMs: int, overlapMs: int, check: Session -> Verdict,
    page: nat -> Option<Page>, cancelled: nat -> bool)

  function Max(a: int, b: int): int { if a >= b then a else b }

  function Min(a: int, b: int): int { if a <= b then a else b }

  function Boundary(src: Source, watermark: int): int {
    watermark - if src.overlapMs <= 0 then DEFAULT_OVERLAP_MS else src.overlapMs
  }

  predicate Ours(src: Source, s: Session) { src.check(s).Valid? && s.item == src.item }

  /** The sessions of a list that an import has to hand on, in order. */
  function Wanted(src: Source, boundary: int, ss: seq<Session>): seq<Session> {
    if ss == [] then []
    else
      var last := ss[|ss| - 1];
      Wanted(src, boundary, ss[..|ss| - 1]) + if Ours(src, last) && last.updatedAt > boundary then [last] else []
  }

  function CountMalformed(src: Source, ss: seq<Session>): nat {
    if ss == [] then 0
    else
      var last := ss[|ss| - 1];
      CountMalformed(src, ss[..|ss| - 1])
      + if src.check(last).Malformed? || (src.check(last).Valid? && last.item != src.item) then 1 else 0
  }

  /** Some session on the page is one of ours and no newer than the boundary. */
  predicate Reaches(src: Source, boundary: int, ss: seq<Session>) {
    exists i :: 0 <= i < |ss| && Ours(src, ss[i]) && ss[i].updatedAt <= boundary
  }

  /** The watermark after handing on `handed`. */
  function Advanced(src: Source, watermark: int, handed: seq<Session>): int {
    if handed == [] then watermark
    else Max(Advanced(src, watermark, handed[..|handed| - 1]), Min(handed[|handed| - 1].updatedAt, src.nowMs))
  }

  /** The sessions of the first n pages. */
  function Listed(src: Source, n: nat): seq<Session> {
    if n == 0 then [] else Listed(src, n - 1) + if src.page(n - 1).Some? then src.page(n - 1).value.sessions else []
  }

  predicate StopsAt(src: Source, boundary: int, n: nat)
    requires src.page(n).Some?
  {
    var p := src.page(n).value;
    Reaches(src, boundary, p.sessions) || |p.sessions| < PER_PAGE || (p.numPages > 0 && n + 1 >= p.numPages)
  }

  /** Pages 0..n-1 were all read and none of them ended the import. */
  ghost predicate ReadOn(src: Source, boundary: int, n: nat) {
    forall k | 0 <= k < n :: src.page(k).Some? && !StopsAt(src, boundary, k)
  }

  /** Pages 0..n-1 were all read and only the last of them ended the import. */
  ghost predicate ReadExactly(src: Source, boundary: int, n: nat) {
    n > 0 && ReadOn(src, boundary, n - 1) && src.page(n - 1).Some? && StopsAt(src, boundary, n - 1)
  }

  /** Why an import fails at page n: the caller or the server gave up, a page is missing its sessions, or one of the
      sessions to hand on is refused. */
  ghost predicate Hindered(src: Source, boundary: int, fails: nat -> bool, n: nat) {
    && ReadOn(src, boundary, n)
    && (|| src.cancelled(n) || src.page(n).None?
        || (src.page(n).value.sessions == [] && src.page(n).value.total > n * PER_PAGE)
        || Refused(src, boundary, fails, Listed(src, n + 1)))
  }

  ghost predicate Refused(src: Source, boundary: int, fails: nat -> bool, ss: seq<Session>) {
    exists i :: 0 <= i < |Wanted(src, boundary, ss)| && fails(i)
  }

  /** The pages of a server that lists `all`, newest update first, a hundred at a time. */
  ghost predicate Honest(src: Source, all: seq<Session>) {
    && (forall i, j | 0 <= i < j < |all| :: all[i].updatedAt >= all[j].updatedAt)
    && forall k: nat | src.page(k).Some? ::
         var p := src.page(k).value;
         && p.sessions == all[Min(k * PER_PAGE, |all|)..Min((k + 1) * PER_PAGE, |all|)]
         && p.total == |all| && (p.numPages > 0 ==> p.numPages * PER_PAGE >= |all|)
  }

  lemma {:induction false} WantedConcat(src: Source, boundary: int, s: seq<Session>, t: seq<Session>)
    ensures Wanted(src, boundary, s + t) == Wanted(src, boundary, s) + Wanted(src, boundary, t)
  {
    if t == [] {
      assert s + t == s;
    } else {
      assert (s + t)[..|s + t| - 1] == s + t[..|t| - 1];
      WantedConcat(src, boundary, s, t[..|t| - 1]);
    }
  }

  lemma {:induction false} NothingWanted(src: Source, boundary: int, s: seq<Session>)
    requires forall i | 0 <= i < |s| :: s[i].updatedAt <= boundary
    ensures Wanted(src, boundary, s) == []
  {
    if s != [] { NothingWanted(src, boundary, s[..|s| - 1]); }
  }

  /** Exactly the sessions of ours above the boundary are wanted. */
  lemma {:induction false} WantedMembers(src: Source, boundary: int, ss: seq<Session>, s: Session)
    ensures s in Wanted(src, boundary, ss) <==> s in ss && Ours(src, s) && s.updatedAt > boundary
  {
    if ss != [] {
      WantedMembers(src, boundary, ss[..|ss| - 1], s);
      assert s in ss <==> s in ss[..|ss| - 1] || s == ss[|ss| - 1];
    }
  }

  lemma {:induction false} HonestListing(src: Source, all: seq<Session>, n: nat)
    requires Honest(src, all) && forall k | 0 <= k < n :: src.page(k).Some?
    ensures Listed(src, n) == all[..Min(n * PER_PAGE, |all|)]
  {
    if n > 0 { HonestListing(src, all, n - 1); }
  }

  /** Against an honest server an import that ends has handed on every wanted session there is, each once, in order. */
  lemma NothingIsMissed(src: Source, boundary: int, all: seq<Session>, n: nat)
    requires Honest(src, all) && ReadExactly(src, boundary, n)
    ensures Wanted(src, boundary, Listed(src, n)) == Wanted(src, boundary, all)
  {
    HonestListing(src, all, n);
    var cut := Min(n * PER_PAGE, |all|);
    RestIsOld(src, boundary, all, n - 1, all[cut..]);
    OldRestAddsNothing(src, boundary, all, cut);
  }

  lemma OldRestAddsNothing(src: Source, boundary: int, all: seq<Session>, cut: nat)
    requires cut <= |all| && forall j | 0 <= j < |all[cut..]| :: all[cut..][j].updatedAt <= boundary
    ensures Wanted(src, boundary, all[..cut]) == Wanted(src, boundary, all)
  {
    assert all == all[..cut] + all[cut..];
    WantedConcat(src, boundary, all[..cut], all[cut..]);
    NothingWanted(src, boundary, all[cut..]);
  }

  /** What lies beyond a page that ended the import is no newer than the boundary. */
  lemma RestIsOld(src: Source, boundary: int, all: seq<Session>, k: nat, rest: seq<Session>)
    requires Honest(src, all) && src.page(k).Some? && StopsAt(src, boundary, k)
    requires rest == all[Min((k + 1) * PER_PAGE, |all|)..]
    ensures forall j | 0 <= j < |rest| :: rest[j].updatedAt <= boundary
  {
    var p := src.page(k).value;
    var lo, cut := Min(k * PER_PAGE, |all|), Min((k + 1) * PER_PAGE, |all|);
    assert p.sessions == all[lo..cut];
    if i :| 0 <= i < |p.sessions| && Ours(src, p.sessions[i]) && p.sessions[i].updatedAt <= boundary {
      assert all[lo + i].updatedAt <= boundary;
    } else {
      assert cut == |all|;
    }
  }

  /** The watermark never falls, never passes the clock unless it already had, and covers what was handed on. */
  lemma {:induction false} WatermarkBounds(src: Source, watermark: int, handed: seq<Session>)
    ensures watermark <= Advanced(src, watermark, handed) <= Max(watermark, src.nowMs)
    ensures forall s | s in handed :: Min(s.updatedAt, src.nowMs) <= Advanced(src, watermark, handed)
  {
    if handed != [] { WatermarkBounds(src, watermark, handed[..|handed| - 1]); }
  }

  /** The watermark moves only up to a session that was handed on. */
  lemma {:induction false} WatermarkIsAttained(src: Source, watermark: int, handed: seq<Session>)
    ensures var w := Advanced(src, watermark, handed);
            w == watermark || exists s :: s in handed && w <= s.updatedAt && w <= src.nowMs
  {
    if handed != [] {
      WatermarkIsAttained(src, watermark, handed[..|handed| - 1]);
      assert handed[|handed| - 1] in handed;
      var before := Advanced(src, watermark, handed[..|handed| - 1]);
      if before != watermark && before == Advanced(src, watermark, handed) {
        var s :| s in handed[..|handed| - 1] && before <= s.updatedAt && before <= src.nowMs;
        assert s in handed;
      }
    }
  }

  /** An honest server runs out of full pages. */
  lemma HonestServerEnds(src: Source, all: seq<Session>, k: nat)
    requires Honest(src, all) && k >= |all| / PER_PAGE && src.page(k).Some?
    ensures |src.page(k).value.sessions| < PER_PAGE
  {
  }

  /** What an import has gathered: the sessions handed on, the malformed ones, and the newest update so far. */
  datatype Tally = Tally(handed: seq<Session>, malformed: nat, maxUpdated: int)

  /** The tally after the sessions in `seen`, starting from this watermark, none of whose imports was refused. */
  ghost predicate Counted(src: Source, watermark: int, fails: nat -> bool, seen: seq<Session>, t: Tally) {
    && t.handed == Wanted(src, Boundary(src, watermark), seen)
    && t.malformed == CountMalformed(src, seen)
    && t.maxUpdated == Advanced(src, watermark, t.handed)
    && forall i | 0 <= i < |t.handed| :: !fails(i)
  }

  /** What handing on one session does to the tally. */
  lemma CountWanted(src: Source, watermark: int, fails: nat -> bool, seen: seq<Session>, t: Tally, s: Session)
    requires Counted(src, watermark, fails, seen, t)
    requires Ours(src, s) && s.updatedAt > Boundary(src, watermark) && !fails(|t.handed|)
    ensures Counted(src, watermark, fails, seen + [s],
                    Tally(t.handed + [s], t.malformed, Max(t.maxUpdated, Min(s.updatedAt, src.nowMs))))
  {
    OneMoreSession(src, Boundary(src, watermark), seen, s);
    OneMoreHanded(src, watermark, t.handed, s);
  }

  /** What passing one over does. */
  lemma CountOther(src: Source, watermark: int, fails: nat -> bool, seen: seq<Session>, t: Tally, s: Session)
    requires Counted(src, watermark, fails, seen, t)
    requires !(Ours(src, s) && s.updatedAt > Boundary(src, watermark))
    ensures Counted(src, watermark, fails, seen + [s], t.(malformed := CountMalformed(src, seen + [s])))
  {
    OneMoreSession(src, Boundary(src, watermark), seen, s);
  }

  lemma OneMoreSession(src: Source, boundary: int, seen: seq<Session>, s: Session)
    ensures Wanted(src, boundary, seen + [s]) ==
            Wanted(src, boundary, seen) + if Ours(src, s) && s.updatedAt > boundary then [s] else []
    ensures Ours(src, s) ==> CountMalformed(src, seen + [s]) == CountMalformed(src, seen)
  {
    assert (seen + [s])[..|seen + [s]| - 1] == seen;
  }

  lemma OneMoreHanded(src: Source, watermark: int, handed: seq<Session>, s: Session)
    ensures Advanced(src, watermark, handed + [s]) == Max(Advanced(src, watermark, handed), Min(s.updatedAt, src.nowMs))
  {
    assert (handed + [s])[..|handed + [s]| - 1] == handed;
  }

  /** The loop over one page. */
  method ImportPage(src: Source, watermark: int, fails: nat -> bool, ss: seq<Session>, before: Tally,
                    ghost seen: seq<Session>)
    returns (ok: bool, t: Tally, reached: bool)
    requires Counted(src, watermark, fails, seen, before)
    ensures ok ==> Counted(src, watermark, fails, seen + ss, t)
    ensures ok ==> reached == Reaches(src, Boundary(src, watermark), ss)
    ensures !ok ==> Refused(src, Boundary(src, watermark), fails, seen + ss)
  {
    var boundary := Boundary(src, watermark);
    t, reached := before, false;
    assert seen + ss[..0] == seen;
    for i := 0 to |ss|
      invariant Counted(src, watermark, fails, seen + ss[..i], t)
      invariant reached == Reaches(src, boundary, ss[..i])
    {
      var s := ss[i];
      assert seen + ss[..i + 1] == seen + ss[..i] + [s];
      assert (seen + ss[..i + 1])[..|seen + ss[..i + 1]| - 1] == seen + ss[..i];
      if Ours(src, s) && s.updatedAt > boundary {
        if !fails(|t.handed|) { CountWanted(src, watermark, fails, seen + ss[..i], t, s); }
      } else {
        CountOther(src, watermark, fails, seen + ss[..i], t, s);
      }
      ReachesStep(src, boundary, ss, i);
      if !src.check(s).Valid? {
        if src.check(s).Malformed? {
          t := t.(malformed := t.malformed + 1);
        }
      } else if s.item != src.item {
        t := t.(malformed := t.malformed + 1);
      } else if s.updatedAt <= boundary {
        reached := true;
      } else {
        if fails(|t.handed|) {
          RefusedAt(src, boundary, fails, seen, ss, i);
          return false, t, reached;
        }
        t := Tally(t.handed + [s], t.malformed, Max(t.maxUpdated, Min(s.updatedAt, src.nowMs)));
      }
    }
    assert ss[..|ss|] == ss;
    ok := true;
  }

  lemma RefusedAt(src: Source, boundary: int, fails: nat -> bool, seen: seq<Session>, ss: seq<Session>, i: nat)
    requires i < |ss| && Ours(src, ss[i]) && ss[i].updatedAt > boundary
    requires fails(|Wanted(src, boundary, seen + ss[..i])|)
    ensures Refused(src, boundary, fails, seen + ss)
  {
    OneMoreSession(src, boundary, seen + ss[..i], ss[i]);
    WantedConcat(src, boundary, seen + ss[..i] + [ss[i]], ss[i + 1..]);
    assert seen + ss[..i] + [ss[i]] + ss[i + 1..] == seen + ss;
  }

  /** The body of the loop over pages. */
  method FetchPage(src: Source, watermark: int, fails: nat -> bool, page: nat, before: Tally)
    returns (ok: bool, stop: bool, t: Tally)
    requires ReadOn(src, Boundary(src, watermark), page) && Counted(src, watermark, fails, Listed(src, page), before)
    ensures !ok ==> Hindered(src, Boundary(src, watermark), fails, page)
    ensures ok ==> src.page(page).Some? && Counted(src, watermark, fails, Listed(src, page + 1), t)
    ensures ok ==> stop == StopsAt(src, Boundary(src, watermark), page)
  {
    if src.cancelled(page) || src.page(page).None? {
      return false, false, before;
    }
    var batch := src.page(page).value;
    if batch.sessions == [] && batch.total > page * PER_PAGE {
      return false, false, before;
    }
    var reached;
    ok, t, reached := ImportPage(src, watermark, fails, batch.sessions, before, Listed(src, page));
    stop := reached || |batch.sessions| < PER_PAGE || (batch.numPages > 0 && page + 1 >= batch.numPages);
  }

  /** The link's own cursor over sessions. */
  class Importer {
    var watermarkMs: int

    constructor (watermark: int)
      ensures watermarkMs == watermark
    {
      watermarkMs := watermark;
    }

    /** `importSessions`. `fails` says which of the calls to `importSession`, counted from 0, are refused; `lastPage` is
        any page from which on the server answers no full page. */
    method Import(src: Source, fails: nat -> bool, ghost lastPage: nat) returns (ok: bool, t: Tally, ghost read: nat)
      requires forall k: nat | k >= lastPage && src.page(k).Some? :: |src.page(k).value.sessions| < PER_PAGE
      modifies this
      ensures !ok ==> watermarkMs == old(watermarkMs) && Hindered(src, Boundary(src, old(watermarkMs)), fails, read)
      ensures ok ==> ReadExactly(src, Boundary(src, old(watermarkMs)), read)
      ensures ok ==> Counted(src, old(watermarkMs), fails, Listed(src, read), t)
      ensures ok ==> watermarkMs == Advanced(src, old(watermarkMs), t.handed)
      ensures ok ==> forall all | Honest(src, all) :: t.handed == Wanted(src, Boundary(src, old(watermarkMs)), all)
    {
      var watermark := watermarkMs;
      ok, t, read := false, Tally([], 0, watermark), 0;
      var page := 0;
      while true
        invariant page <= lastPage + 1 && watermarkMs == old(watermarkMs)
        invariant ReadOn(src, Boundary(src, watermark), page)
        invariant Counted(src, watermark, fails, Listed(src, page), t)
        invariant page == lastPage + 1 ==> src.page(lastPage).Some? && |src.page(lastPage).value.sessions| >= PER_PAGE
        decreases lastPage + 1 - page
      {
        var done, stop;
        done, stop, t := FetchPage(src, watermark, fails, page, t);
        if !done {
          return false, t, page;
        }
        page := page + 1;
        if stop {
          break;
        }
      }
      read := page;
      watermarkMs := t.maxUpdated;
      HonestImport(src, Boundary(src, watermark), read, t.handed);
      ok := true;
    }
  }

  lemma HonestImport(src: Source, boundary: int, n: nat, handed: seq<Session>)
    requires ReadExactly(src, boundary, n) && handed == Wanted(src, boundary, Listed(src, n))
    ensures forall all | Honest(src, all) :: handed == Wanted(src, boundary, all)
  {
    forall all | Honest(src, all) ensures handed == Wanted(src, boundary, all) {
      NothingIsMissed(src, boundary, all, n);
    }
  }

  lemma ReachesStep(src: Source, boundary: int, ss: seq<Session>, i: nat)
    requires i < |ss|
    ensures Reaches(src, boundary, ss[..i + 1]) <==>
            Reaches(src, boundary, ss[..i]) || (Ours(src, ss[i]) && ss[i].updatedAt <= boundary)
  {
    assert forall j | 0 <= j < i :: ss[..i + 1][j] == ss[..i][j];
    assert ss[..i + 1][i] == ss[i];
    if Reaches(src, boundary, ss[..i]) {
      var j :| 0 <= j < i && Ours(src, ss[..i][j]) && ss[..i][j].updatedAt <= boundary;
      assert ss[..i + 1][j] == ss[..i][j];
    }
  }
}
