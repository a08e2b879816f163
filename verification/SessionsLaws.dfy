/** What an import of listening sessions reads and hands on, spelled out (internal/audiobookshelf/sessions.go,
  `importSessions`).
*/
module SessionsLaws {
  import opened Sessions

  // ----- what is handed on

  /** The session was updated after the watermark less the overlap, which is ten minutes unless set. */
  predicate IsRecent(src: Source, watermark: int, s: Session) {
    s.updatedAt > watermark - (if src.overlapMs > 0 then src.overlapMs else 600_000)
  }

  /** A valid session of the item, updated recently. */
  predicate ToImport(src: Source, watermark: int, s: Session) {
    src.check(s) == Valid && s.item == src.item && IsRecent(src, watermark, s)
  }

  /** The sessions handed on are those to import, in their order: the j-th of them was session number at[j]. */
  ghost predicate HandedOn(src: Source, watermark: int, ss: seq<Session>, handed: seq<Session>, at: seq<nat>) {
    && |at| == |handed|
    && (forall j | 0 <= j < |at| :: at[j] < |ss| && handed[j] == ss[at[j]])
    && (forall i, j | 0 <= i < j < |at| :: at[i] < at[j])
    && (forall i | 0 <= i < |ss| :: ToImport(src, watermark, ss[i]) <==> i in at)
  }

  lemma {:induction false} WantedIs(src: Source, watermark: int, ss: seq<Session>) returns (at: seq<nat>)
    ensures HandedOn(src, watermark, ss, Wanted(src, Boundary(src, watermark), ss), at)
  {
    at := [];
    if ss != [] {
      var n := |ss| - 1;
      at := WantedIs(src, watermark, ss[..n]);
      if ToImport(src, watermark, ss[n]) { at := at + [n]; }
    }
  }

  /** The server lists `all`, newest update first, a hundred to a page. */
  ghost predicate ListsInHundreds(src: Source, all: seq<Session>) {
    && (forall i, j | 0 <= i < j < |all| :: all[j].updatedAt <= all[i].updatedAt)
    && forall k: nat | src.page(k).Some? :: IsHundred(src.page(k).value, all, k)
  }

  ghost predicate IsHundred(p: Page, all: seq<Session>, k: nat) {
    && p.sessions == (if 100 * k > |all| then [] else if 100 * k + 100 > |all| then all[100 * k..]
                      else all[100 * k..100 * k + 100])
    && p.total == |all| && (p.numPages > 0 ==> 100 * p.numPages >= |all|)
  }

  lemma HundredsAreHonest(src: Source, all: seq<Session>)
    requires ListsInHundreds(src, all)
    ensures Honest(src, all)
  {
    forall k: nat | src.page(k).Some?
      ensures src.page(k).value.sessions == all[Min(k * PER_PAGE, |all|)..Min((k + 1) * PER_PAGE, |all|)]
    {
      assert IsHundred(src.page(k).value, all, k);
    }
    forall k: nat | src.page(k).Some?
      ensures var p := src.page(k).value; p.total == |all| && (p.numPages > 0 ==> p.numPages * PER_PAGE >= |all|)
    {
      assert IsHundred(src.page(k).value, all, k);
    }
  }

  /** What an import that ended has handed on, from the pages of such a server: everything there is to import, in order,
      each once. */
  lemma ImportedExactly(src: Source, watermark: int, fails: nat -> bool, all: seq<Session>, read: nat, t: Tally)
    returns (at: seq<nat>)
    requires ListsInHundreds(src, all) && ReadExactly(src, Boundary(src, watermark), read)
    requires Counted(src, watermark, fails, Listed(src, read), t)
    ensures HandedOn(src, watermark, all, t.handed, at)
  {
    HundredsAreHonest(src, all);
    NothingIsMissed(src, Boundary(src, watermark), all, read);
    at := WantedIs(src, watermark, all);
  }

  // ----- where it stops

  /** A page ends the import when it holds a session of ours that is not recent, fewer than a hundred sessions, or is
      the last the server counts. */
  ghost predicate Ends(src: Source, watermark: int, p: Page, number: nat) {
    || (exists s :: s in p.sessions && src.check(s) == Valid && s.item == src.item && !IsRecent(src, watermark, s))
    || |p.sessions| < 100
    || 0 < p.numPages <= number
  }

  lemma EndsIs(src: Source, watermark: int, k: nat)
    requires src.page(k).Some?
    ensures StopsAt(src, Boundary(src, watermark), k) <==> Ends(src, watermark, src.page(k).value, k + 1)
  {
    var ss, boundary := src.page(k).value.sessions, Boundary(src, watermark);
    if s :| s in ss && src.check(s) == Valid && s.item == src.item && !IsRecent(src, watermark, s) {
      var i :| 0 <= i < |ss| && ss[i] == s;
      assert Ours(src, ss[i]) && ss[i].updatedAt <= boundary;
    }
    if Reaches(src, boundary, ss) {
      var i :| 0 <= i < |ss| && Ours(src, ss[i]) && ss[i].updatedAt <= boundary;
      assert ss[i] in ss;
    }
  }

  /** An import that succeeds has read the pages up to the first one that ends it. */
  lemma ReadUpToTheEnd(src: Source, watermark: int, read: nat)
    ensures ReadExactly(src, Boundary(src, watermark), read) <==>
              && read > 0 && (forall k | 0 <= k < read :: src.page(k).Some?)
              && (forall k | 0 <= k < read - 1 :: !Ends(src, watermark, src.page(k).value, k + 1))
              && Ends(src, watermark, src.page(read - 1).value, read)
  {
    forall k: nat | src.page(k).Some?
      ensures StopsAt(src, Boundary(src, watermark), k) <==> Ends(src, watermark, src.page(k).value, k + 1)
    {
      EndsIs(src, watermark, k);
    }
  }

  // ----- what it counts, and how far it comes

  /** Malformed sessions, and valid ones of another item, are counted. */
  ghost function BadOnes(src: Source, ss: seq<Session>): set<int> {
    set i | 0 <= i < |ss| && (src.check(ss[i]) == Malformed || (src.check(ss[i]) == Valid && ss[i].item != src.item))
  }

  lemma {:induction false} MalformedIs(src: Source, ss: seq<Session>)
    ensures CountMalformed(src, ss) == |BadOnes(src, ss)|
  {
    if ss != [] {
      var n := |ss| - 1;
      MalformedIs(src, ss[..n]);
      assert BadOnes(src, ss) == BadOnes(src, ss[..n]) + if n in BadOnes(src, ss) then {n} else {};
    }
  }

  /** The watermark never falls; it reaches the newest update handed on, but not beyond the clock. */
  lemma WatermarkIs(src: Source, watermark: int, handed: seq<Session>, w: int)
    requires w == Advanced(src, watermark, handed)
    ensures w >= watermark
    ensures forall s | s in handed :: s.updatedAt <= w || src.nowMs <= w
    ensures w > watermark ==> w <= src.nowMs && exists s :: s in handed && w <= s.updatedAt
  {
    WatermarkBounds(src, watermark, handed);
    WatermarkIsAttained(src, watermark, handed);
  }
}
