/** What `Align` answers when every number of the audio stands in the book as often, told by ranks and neighbours
  (internal/audiomap/audiomap.go).
*/
module AlignLaws {
  import opened Wrappers
  import opened AudioMap
  import opened SplitAlign
  import opened Align

  // ----- the audio

  /** Chapters of positive length, one after the other, none before the start or more than a second past the end. */
  ghost predicate AudioInOrder(audio: seq<Chapter>, duration: real) {
    && duration > 0.0
    && (forall c | c in audio :: c.start >= 0.0 && c.start < c.end && c.end <= duration + 1.0)
    && (forall i, j | 0 <= i < j < |audio| :: audio[i].end <= audio[j].start)
  }

  lemma AudioInOrderIs(audio: seq<Chapter>, duration: real)
    ensures AudioInOrder(audio, duration) <==> ValidAudio(audio, duration)
  {
    if ValidAudio(audio, duration) {
      forall i, j | 0 <= i < j < |audio| ensures audio[i].end <= audio[j].start { AudioOrdered(audio, duration, i, j); }
    }
    if AudioInOrder(audio, duration) { forall i | 0 <= i < |audio| ensures audio[i] in audio {} }
  }

  // ----- who is paired with whom

  /** The audio chapter and the entry carry one number, and as many of that number stand before either. */
  ghost predicate SameRank(x: Input, a: nat, b: nat)
    requires Matching(x) && a < |x.audio| && b < |x.book|
  {
    && x.audioNums[a] > 0 && x.bookNums[b] == x.audioNums[a]
    && multiset(x.audioNums[..a])[x.audioNums[a]] == multiset(x.bookNums[..b])[x.audioNums[a]]
  }

  /** Every number of the audio stands in the book as often. */
  ghost predicate AsOften(x: Input) {
    forall n | n > 0 && n in x.audioNums :: multiset(x.audioNums)[n] == multiset(x.bookNums)[n]
  }

  lemma {:induction false} CountIs(nums: seq<nat>, n: nat)
    ensures |Occurrences(nums, n)| == multiset(nums)[n]
  {
    if nums != [] {
      var k := |nums| - 1;
      CountIs(nums[..k], n);
      assert nums == nums[..k] + [nums[k]];
    }
  }

  lemma AsOftenIs(x: Input)
    ensures AsOften(x) <==> Align.Complete(x.audioNums, x.bookNums)
  {
    forall n ensures |Occurrences(x.audioNums, n)| == multiset(x.audioNums)[n] { CountIs(x.audioNums, n); }
    forall n ensures |Occurrences(x.bookNums, n)| == multiset(x.bookNums)[n] { CountIs(x.bookNums, n); }
  }

  /** The numbered audio chapters in their order, each with the entry of its rank. */
  ghost predicate Ranked(x: Input, ps: seq<Pair>) {
    && InBounds(x, ps)
    && (forall i, j | 0 <= i < j < |ps| :: ps[i].a < ps[j].a)
    && (forall p | p in ps :: SameRank(x, p.a, p.b))
    && (forall a | 0 <= a < |x.audio| && x.audioNums[a] > 0 :: exists p :: p in ps && p.a == a)
  }

  lemma PartnersShareRank(x: Input, p: Pair)
    requires Matching(x) && p.a < |x.audio| && x.audioNums[p.a] > 0
    ensures ArePartners(x.audioNums, x.bookNums, p) <==> p.b < |x.book| && SameRank(x, p.a, p.b)
  {
    var n := x.audioNums[p.a];
    CountIs(x.audioNums[..p.a], n);
    OccurrencesRank(x.bookNums, n);
    if p.b < |x.book| { CountIs(x.bookNums[..p.b], n); }
  }

  /** It is the pairing the code makes. */
  lemma RankedIsPairing(x: Input, ps: seq<Pair>)
    requires Matching(x) && AsOften(x) && Ranked(x, ps)
    ensures Align.Complete(x.audioNums, x.bookNums) && Pairing(x.audioNums, x.bookNums, |x.audioNums|) == ps
  {
    AsOftenIs(x);
    var t := Pairing(x.audioNums, x.bookNums, |x.audioNums|);
    PairingShape(x.audioNums, x.bookNums, |x.audioNums|);
    forall p ensures p in ps <==> p in t {
      PairingMembers(x.audioNums, x.bookNums, |x.audioNums|, p);
      if p.a < |x.audio| && x.audioNums[p.a] > 0 {
        PartnersShareRank(x, p);
        if p in t {
          var q :| q in ps && q.a == p.a;
          PartnersShareRank(x, q);
          assert q == p;
        }
      }
    }
    OneOrder(ps, t);
  }

  // ----- which pairings are refused

  /** Two neighbouring pairs follow one another: in both lists and on both axes; the number is the next, or starts again
      at 1; between them lie audio chapters only if an unnumbered entry does, and no numbered entry of its own place. */
  ghost predicate Follows(x: Input, p: Pair, q: Pair)
    requires Matching(x) && p.a < |x.audio| && q.a < |x.audio| && p.b < |x.book| && q.b < |x.book|
  {
    && p.b < q.b && x.audio[p.a].start < x.audio[q.a].start && x.book[p.b].start < x.book[q.b].start
    && (x.audioNums[q.a] == 1 || x.audioNums[q.a] == x.audioNums[p.a] + 1)
    && (q.a - p.a > 1 ==> 0 in x.bookNums[p.b + 1..q.b])
    && !exists i :: p.b < i < q.b && x.bookNums[i] != 0
                    && x.book[p.b].start < x.book[i].start && x.book[i].start < x.book[q.b].start
  }

  ghost predicate Acceptable(x: Input, ps: seq<Pair>)
    requires InBounds(x, ps)
  {
    && (forall k | 0 <= k < |ps| ::
          0.0 <= x.book[ps[k].b].start && x.book[ps[k].b].start < x.book[ps[k].b].end && x.book[ps[k].b].end <= 1.0)
    && forall j, k | 0 <= j < k < |ps| && k == j + 1 :: Follows(x, ps[j], ps[k])
  }

  lemma UnnumberedBetween(nums: seq<nat>, lo: nat, hi: nat)
    requires lo < hi < |nums|
    ensures 0 in nums[lo + 1..hi] <==> exists i :: lo < i < hi && nums[i] == 0
  {
    if i :| lo < i < hi && nums[i] == 0 { assert nums[lo + 1..hi][i - lo - 1] == 0; }
  }

  lemma FollowsIs(x: Input, ps: seq<Pair>, j: nat, k: nat)
    requires InBounds(x, ps) && j < k < |ps| && k == j + 1
    ensures Follows(x, ps[j], ps[k]) && ValidEntry(x.book[ps[k].b]) <==> PairAccepted(x, ps, k)
  {
    if ps[j].b < ps[k].b { UnnumberedBetween(x.bookNums, ps[j].b, ps[k].b); }
  }

  lemma AcceptableIs(x: Input, ps: seq<Pair>)
    requires InBounds(x, ps)
    ensures Acceptable(x, ps) <==> Accepted(x, ps)
  {
    forall j, k | 0 <= j < k < |ps| && k == j + 1
      ensures Follows(x, ps[j], ps[k]) && ValidEntry(x.book[ps[k].b]) <==> PairAccepted(x, ps, k)
    {
      FollowsIs(x, ps, j, k);
    }
    if Acceptable(x, ps) {
      forall k | 0 <= k < |ps| ensures PairAccepted(x, ps, k) { if k > 0 { FollowsIs(x, ps, k - 1, k); } }
    }
    if Accepted(x, ps) {
      forall j, k | 0 <= j < k < |ps| && k == j + 1 ensures Follows(x, ps[j], ps[k]) {
        assert PairAccepted(x, ps, k);
      }
      forall k | 0 <= k < |ps| ensures ValidEntry(x.book[ps[k].b]) { assert PairAccepted(x, ps, k); }
    }
  }

  // ----- the mapping

  /** A segment runs from where its chapter starts to where the next one does, the last to its own end, on both axes. */
  ghost predicate LaidOut(x: Input, ps: seq<Pair>, segs: seq<Segment>)
    requires InBounds(x, ps)
  {
    && |segs| == |ps|
    && (forall j, k | 0 <= j < k < |ps| && k == j + 1 ::
          Runs(x.audio[ps[j].a], x.book[ps[j].b], x.audio[ps[k].a].start, x.book[ps[k].b].start, segs[j]))
    && (ps != [] ==>
          var a, b := x.audio[ps[|ps| - 1].a], x.book[ps[|ps| - 1].b]; Runs(a, b, a.end, b.end, segs[|ps| - 1]))
  }

  predicate Runs(a: Chapter, b: BookChapter, audioEnd: real, bookEnd: real, s: Segment) {
    s == Segment(a.title, b.title, a.start, audioEnd, b.start, bookEnd, b.href, b.fragment, b.approx)
  }

  lemma LaidOutIs(x: Input, ps: seq<Pair>)
    requires InBounds(x, ps) && ps != []
    ensures LaidOut(x, ps, DirectMapping(x, ps).segments)
  {
    var segs := DirectMapping(x, ps).segments;
    forall j, k | 0 <= j < k < |ps| && k == j + 1
      ensures Runs(x.audio[ps[j].a], x.book[ps[j].b], x.audio[ps[k].a].start, x.book[ps[k].b].start, segs[j])
    {
      assert segs[j] == PairSegment(x, ps, j);
    }
    assert segs[|ps| - 1] == PairSegment(x, ps, |ps| - 1);
  }

  /** What a mapping of the pairs says it covers: nothing numbered starts before the first pair's entry, or after the
      last's; the full narrative is claimed when every numbered entry is paired. */
  ghost predicate SaysWhatItCovers(x: Input, ps: seq<Pair>, m: Mapping)
    requires InBounds(x, ps) && ps != []
  {
    && (m.coversFirst <==> !exists i :: 0 <= i < |x.book| && x.bookNums[i] != 0
                                        && x.book[i].start < x.book[ps[0].b].start)
    && (m.coversLast <==> !exists i :: 0 <= i < |x.book| && x.bookNums[i] != 0
                                       && x.book[ps[|ps| - 1].b].start < x.book[i].start)
    && (m.fullNarrative <==> forall i | 0 <= i < |x.book| && x.bookNums[i] != 0 :: exists p :: p in ps && p.b == i)
  }

  lemma SaysIs(x: Input, ps: seq<Pair>)
    requires InBounds(x, ps) && ps != []
    ensures SaysWhatItCovers(x, ps, DirectMapping(x, ps))
  {
    var m := DirectMapping(x, ps);
    if m.fullNarrative {
      forall i | 0 <= i < |x.book| && x.bookNums[i] != 0 ensures exists p :: p in ps && p.b == i {
        var k :| 0 <= k < |ps| && ps[k].b == i;
        assert ps[k] in ps;
      }
    }
  }

  lemma DirectIs(x: Input, ps: seq<Pair>)
    requires Matching(x) && AsOften(x) && Ranked(x, ps)
    ensures Alignment(x) == if AudioInOrder(x.audio, x.duration) && ps != [] && Acceptable(x, ps)
                            then Some(DirectMapping(x, ps)) else None
  {
    AudioInOrderIs(x.audio, x.duration);
    RankedIsPairing(x, ps);
    AcceptableIs(x, ps);
  }

  /** With every number as often on both sides, a mapping is answered exactly when the audio is in order and the pairs,
      chapter by chapter with the entry of the same rank, are acceptable; it is laid out from them, and says what it
      covers. */
  lemma DirectAnswer(x: Input, ps: seq<Pair>)
    requires Matching(x) && AsOften(x) && Ranked(x, ps)
    ensures Alignment(x).Some? <==> AudioInOrder(x.audio, x.duration) && ps != [] && Acceptable(x, ps)
    ensures Alignment(x).Some? ==>
              var m := Alignment(x).value;
              && m.duration == x.duration && m.resources == x.resources && !m.linear
              && LaidOut(x, ps, m.segments) && SaysWhatItCovers(x, ps, m)
  {
    DirectIs(x, ps);
    if ps != [] {
      LaidOutIs(x, ps);
      SaysIs(x, ps);
    }
  }

  /** There is always such a list of pairs. */
  lemma RankedExists(x: Input) returns (ps: seq<Pair>)
    requires Matching(x) && AsOften(x)
    ensures Ranked(x, ps)
  {
    AsOftenIs(x);
    ps := Pairing(x.audioNums, x.bookNums, |x.audioNums|);
    PairingShape(x.audioNums, x.bookNums, |x.audioNums|);
    forall p | p in ps ensures SameRank(x, p.a, p.b) {
      PairingMembers(x.audioNums, x.bookNums, |x.audioNums|, p);
      PartnersShareRank(x, p);
    }
    forall a: nat | a < |x.audio| && x.audioNums[a] > 0 ensures exists p :: p in ps && p.a == a {
      PartnerExists(x.audioNums, x.bookNums, a);
      PairingMembers(x.audioNums, x.bookNums, |x.audioNums|, Pair(a, Partner(x.audioNums, x.bookNums, a)));
    }
  }

  /** A number that stands on both sides, but not as often, ends it; otherwise a number missing from the book leaves it
      to the chapters split over two tracks. */
  lemma OtherAnswers(x: Input)
    requires Matching(x) && !AsOften(x)
    ensures !AudioInOrder(x.audio, x.duration) ==> Alignment(x) == None
    ensures (exists n :: n > 0 && n in x.audioNums && n in x.bookNums
                         && multiset(x.audioNums)[n] != multiset(x.bookNums)[n]) ==> Alignment(x) == None
    ensures AudioInOrder(x.audio, x.duration)
            && (forall n | n > 0 && n in x.audioNums && n in x.bookNums ::
                  multiset(x.audioNums)[n] == multiset(x.bookNums)[n]) ==>
              Alignment(x) == SplitMapping(x.book, x.bookNums, x.resources, x.audio, x.audioNums, x.duration)
  {
    AudioInOrderIs(x.audio, x.duration);
    AsOftenIs(x);
    forall n ensures |Occurrences(x.audioNums, n)| == multiset(x.audioNums)[n] { CountIs(x.audioNums, n); }
    forall n ensures |Occurrences(x.bookNums, n)| == multiset(x.bookNums)[n] { CountIs(x.bookNums, n); }
  }
}
