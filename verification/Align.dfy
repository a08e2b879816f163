/** `Align` (internal/audiomap/audiomap.go): pairs numbered audio chapters with numbered entries of the table of
  contents.

  `number` stands for `chapterNumber`: 0 when a title starts with none.
*/
module Align {
  import opened Wrappers
  import opened AudioMap
  import opened SplitAlign

  datatype Pair = Pair(a: nat, b: nat)

  // ----- occurrences

  /** The indices at which n occurs, in order. */
  function Occurrences(nums: seq<nat>, n: nat): seq<nat> {
    if nums == [] then []
    else
      var k := |nums| - 1;
      Occurrences(nums[..k], n) + if nums[k] == n then [k] else []
  }

  /** The k-th occurrence of n is preceded by exactly k others, and nothing else is listed. */
  lemma {:induction false} OccurrencesRank(nums: seq<nat>, n: nat)
    ensures forall k | 0 <= k < |Occurrences(nums, n)| ::
              var i := Occurrences(nums, n)[k];
              i < |nums| && nums[i] == n && |Occurrences(nums[..i], n)| == k
    ensures forall i | 0 <= i < |nums| && nums[i] == n ::
              |Occurrences(nums[..i], n)| < |Occurrences(nums, n)|
              && Occurrences(nums, n)[|Occurrences(nums[..i], n)|] == i
  {
    if nums != [] {
      var m := |nums| - 1;
      var before := nums[..m];
      OccurrencesRank(before, n);
      forall k | 0 <= k < |Occurrences(nums, n)|
        ensures var i := Occurrences(nums, n)[k]; i < |nums| && nums[i] == n && |Occurrences(nums[..i], n)| == k
      {
        if k < |Occurrences(before, n)| {
          assert nums[..Occurrences(before, n)[k]] == before[..Occurrences(before, n)[k]];
        }
      }
      forall i | 0 <= i < |nums| && nums[i] == n
        ensures |Occurrences(nums[..i], n)| < |Occurrences(nums, n)|
        ensures Occurrences(nums, n)[|Occurrences(nums[..i], n)|] == i
      {
        if i < m { assert nums[..i] == before[..i]; }
      }
    }
  }

  lemma OccurrencesIncrease(nums: seq<nat>, n: nat)
    ensures forall k | 0 <= k < |Occurrences(nums, n)| ::
              Occurrences(nums, n)[k] < |nums| && nums[Occurrences(nums, n)[k]] == n
    ensures forall i, k | 0 <= i < k < |Occurrences(nums, n)| :: Occurrences(nums, n)[i] < Occurrences(nums, n)[k]
    ensures n in nums ==> Occurrences(nums, n) != []
  {
    OccurrencesRank(nums, n);
    OccursSomewhere(nums, n);
    forall i, k | 0 <= i < k < |Occurrences(nums, n)| ensures Occurrences(nums, n)[i] < Occurrences(nums, n)[k] {
      OccurrencesOrdered(nums, n, i, k);
    }
  }

  lemma {:induction false} OccurrencesOrdered(nums: seq<nat>, n: nat, i: nat, k: nat)
    requires i < k < |Occurrences(nums, n)|
    ensures Occurrences(nums, n)[i] < Occurrences(nums, n)[k] < |nums|
  {
    var before := nums[..|nums| - 1];
    if k < |Occurrences(before, n)| {
      OccurrencesOrdered(before, n, i, k);
    } else {
      OccurrencesRank(before, n);
    }
  }

  lemma OccursSomewhere(nums: seq<nat>, n: nat)
    ensures n in nums <==> Occurrences(nums, n) != []
  {
    OccurrencesRank(nums, n);
  }

  /** Every number of the audio occurs in the book, as often. */
  ghost predicate Complete(audioNums: seq<nat>, bookNums: seq<nat>) {
    forall n | n > 0 && n in audioNums :: |Occurrences(audioNums, n)| == |Occurrences(bookNums, n)|
  }

  /** Some number occurs on both sides, but not equally often. */
  ghost predicate Mismatched(audioNums: seq<nat>, bookNums: seq<nat>) {
    exists n :: n > 0 && n in audioNums && n in bookNums && |Occurrences(audioNums, n)| != |Occurrences(bookNums, n)|
  }

  /** The book entry an audio chapter is paired with: as many equal numbers before it on each side. */
  function Partner(audioNums: seq<nat>, bookNums: seq<nat>, a: nat): (b: nat)
    requires a < |audioNums|
    requires |Occurrences(audioNums[..a], audioNums[a])| < |Occurrences(bookNums, audioNums[a])|
  {
    Occurrences(bookNums, audioNums[a])[|Occurrences(audioNums[..a], audioNums[a])|]
  }

  lemma PartnerExists(audioNums: seq<nat>, bookNums: seq<nat>, a: nat)
    requires Complete(audioNums, bookNums) && a < |audioNums| && audioNums[a] > 0
    ensures |Occurrences(audioNums[..a], audioNums[a])| < |Occurrences(bookNums, audioNums[a])|
    ensures var b := Partner(audioNums, bookNums, a); b < |bookNums| && bookNums[b] == audioNums[a]
  {
    OccurrencesRank(audioNums, audioNums[a]);
    OccurrencesRank(bookNums, audioNums[a]);
  }

  /** All pairs among the first k audio chapters, in audio order. */
  ghost function Pairing(audioNums: seq<nat>, bookNums: seq<nat>, k: nat): seq<Pair>
    requires Complete(audioNums, bookNums) && k <= |audioNums|
  {
    if k == 0 then []
    else if audioNums[k - 1] == 0 then Pairing(audioNums, bookNums, k - 1)
    else
      PartnerExists(audioNums, bookNums, k - 1);
      Pairing(audioNums, bookNums, k - 1) + [Pair(k - 1, Partner(audioNums, bookNums, k - 1))]
  }

  ghost predicate Within(audioNums: seq<nat>, bookNums: seq<nat>, k: nat, ps: seq<Pair>)
    requires k <= |audioNums|
  {
    && Increasing(ps)
    && forall i | 0 <= i < |ps| :: ps[i].a < k && audioNums[ps[i].a] > 0 && ps[i].b < |bookNums|
  }

  lemma WithinOneMore(audioNums: seq<nat>, bookNums: seq<nat>, k: nat, ps: seq<Pair>, b: nat)
    requires k < |audioNums| && Within(audioNums, bookNums, k, ps) && audioNums[k] > 0 && b < |bookNums|
    ensures Within(audioNums, bookNums, k + 1, ps + [Pair(k, b)])
  {
  }

  /** They stay within both lists, in the order of the audio. */
  lemma {:induction false} PairingShape(audioNums: seq<nat>, bookNums: seq<nat>, k: nat)
    requires Complete(audioNums, bookNums) && k <= |audioNums|
    ensures Within(audioNums, bookNums, k, Pairing(audioNums, bookNums, k))
    decreases k
  {
    if k > 0 {
      PairingShape(audioNums, bookNums, k - 1);
      if audioNums[k - 1] > 0 {
        PartnerExists(audioNums, bookNums, k - 1);
        WithinOneMore(audioNums, bookNums, k - 1, Pairing(audioNums, bookNums, k - 1),
                      Partner(audioNums, bookNums, k - 1));
      }
    }
  }

  /** p pairs one of the first k audio chapters with its partner. */
  ghost predicate IsPartnered(audioNums: seq<nat>, bookNums: seq<nat>, k: nat, p: Pair)
    requires k <= |audioNums|
  {
    p.a < k && audioNums[p.a] > 0 && ArePartners(audioNums, bookNums, p)
  }

  ghost predicate ArePartners(audioNums: seq<nat>, bookNums: seq<nat>, p: Pair)
    requires p.a < |audioNums|
  {
    && |Occurrences(audioNums[..p.a], audioNums[p.a])| < |Occurrences(bookNums, audioNums[p.a])|
    && p.b == Partner(audioNums, bookNums, p.a)
  }

  lemma PairingStep(audioNums: seq<nat>, bookNums: seq<nat>, k: nat) returns (last: seq<Pair>)
    requires Complete(audioNums, bookNums) && 0 < k <= |audioNums|
    ensures Pairing(audioNums, bookNums, k) == Pairing(audioNums, bookNums, k - 1) + last
    ensures if audioNums[k - 1] == 0 then last == []
            else |last| == 1 && last[0].a == k - 1 && ArePartners(audioNums, bookNums, last[0])
  {
    last := [];
    if audioNums[k - 1] > 0 {
      PartnerExists(audioNums, bookNums, k - 1);
      last := [Pair(k - 1, Partner(audioNums, bookNums, k - 1))];
    }
  }

  /** What a pair added at the end brings to the membership. */
  lemma MembersStep(audioNums: seq<nat>, bookNums: seq<nat>, k: nat, p: Pair, before: seq<Pair>, last: seq<Pair>)
    requires 0 < k <= |audioNums| && (p in before <==> IsPartnered(audioNums, bookNums, k - 1, p))
    requires if audioNums[k - 1] == 0 then last == []
             else |last| == 1 && last[0].a == k - 1 && ArePartners(audioNums, bookNums, last[0])
    ensures p in before + last <==> IsPartnered(audioNums, bookNums, k, p)
  {
  }

  /** The pairing holds each numbered audio chapter with its partner, and nothing else. */
  lemma {:induction false} PairingMembers(audioNums: seq<nat>, bookNums: seq<nat>, k: nat, p: Pair)
    requires Complete(audioNums, bookNums) && k <= |audioNums|
    ensures p in Pairing(audioNums, bookNums, k) <==> IsPartnered(audioNums, bookNums, k, p)
    decreases k
  {
    if k > 0 {
      PairingMembers(audioNums, bookNums, k - 1, p);
      var last := PairingStep(audioNums, bookNums, k);
      MembersStep(audioNums, bookNums, k, p, Pairing(audioNums, bookNums, k - 1), last);
    }
  }

  // ----- sorting by audio index

  function Insert(p: Pair, ps: seq<Pair>): (r: seq<Pair>)
    ensures |r| == |ps| + 1
  {
    if ps == [] then [p] else if p.a <= ps[0].a then [p] + ps else [ps[0]] + Insert(p, ps[1..])
  }

  /** `sort.Slice` by audio index. */
  function SortByAudio(ps: seq<Pair>): (r: seq<Pair>)
    ensures |r| == |ps|
  {
    if ps == [] then [] else Insert(ps[0], SortByAudio(ps[1..]))
  }

  ghost predicate Increasing(ps: seq<Pair>) { forall i, j | 0 <= i < j < |ps| :: ps[i].a < ps[j].a }

  ghost predicate DistinctAudio(ps: seq<Pair>) { forall i, j | 0 <= i < j < |ps| :: ps[i].a != ps[j].a }

  lemma {:induction false} InsertSorts(p: Pair, ps: seq<Pair>)
    requires Increasing(ps) && forall q | q in ps :: q.a != p.a
    ensures Increasing(Insert(p, ps)) && (forall q :: q in Insert(p, ps) <==> q == p || q in ps)
  {
    if ps != [] && p.a > ps[0].a {
      InsertSorts(p, ps[1..]);
      var r := Insert(p, ps[1..]);
      forall q ensures q in Insert(p, ps) <==> q == p || q in ps {
        assert q in ps <==> q == ps[0] || q in ps[1..];
        assert q in [ps[0]] + r <==> q == ps[0] || q in r;
      }
      forall j | 0 <= j < |r| ensures ps[0].a < r[j].a {
        assert r[j] in r;
        assert r[j] == p || r[j] in ps[1..];
      }
    }
  }

  lemma {:induction false} SortSorts(ps: seq<Pair>)
    requires DistinctAudio(ps)
    ensures Increasing(SortByAudio(ps)) && (forall q :: q in SortByAudio(ps) <==> q in ps)
  {
    if ps != [] {
      SortSorts(ps[1..]);
      InsertSorts(ps[0], SortByAudio(ps[1..]));
      assert forall q :: q in ps <==> q == ps[0] || q in ps[1..];
    }
  }

  /** Distinct audio indices leave only one way to order the same pairs. */
  lemma {:induction false} OneOrder(s: seq<Pair>, t: seq<Pair>)
    requires Increasing(s) && Increasing(t) && forall q :: q in s <==> q in t
    ensures s == t
    decreases |s|
  {
    if s == [] {
      assert forall i | 0 <= i < |t| :: t[i] in t;
    } else {
      assert s[0] in s && s[0] in t;
      assert t[0] in t && t[0] in s;
      var i :| 0 <= i < |t| && t[i] == s[0];
      var j :| 0 <= j < |s| && s[j] == t[0];
      assert s[0] == t[0];
      forall q ensures q in s[1..] <==> q in t[1..] {
        assert q in s <==> q == s[0] || q in s[1..];
        assert q in t <==> q == t[0] || q in t[1..];
      }
      OneOrder(s[1..], t[1..]);
    }
  }

  // ----- the checks every pair has to pass

  datatype Input = Input(
    book: seq<BookChapter>, bookNums: seq<nat>, resources: seq<Resource>,
    audio: seq<Chapter>, audioNums: seq<nat>, duration: real)

  function InputOf(book: seq<BookChapter>, resources: seq<Resource>, audio: seq<Chapter>, duration: real,
                   number: string -> nat): (x: Input)
    ensures Matching(x)
  {
    Input(book, seq<nat>(|book|, i requires 0 <= i < |book| => number(book[i].title)), resources,
          audio, seq<nat>(|audio|, i requires 0 <= i < |audio| => number(audio[i].title)), duration)
  }

  predicate Matching(x: Input) { |x.book| == |x.bookNums| && |x.audio| == |x.audioNums| }

  predicate InBounds(x: Input, ps: seq<Pair>) {
    Matching(x) && forall k | 0 <= k < |ps| :: ps[k].a < |x.audio| && ps[k].b < |x.book|
  }

  predicate PairAccepted(x: Input, ps: seq<Pair>, k: nat)
    requires InBounds(x, ps) && k < |ps|
  {
    var p := ps[k];
    && ValidEntry(x.book[p.b])
    && (k > 0 ==>
          var prev := ps[k - 1];
          var n, pn := x.audioNums[p.a], x.audioNums[prev.a];
          && prev.b < p.b
          && x.audio[prev.a].start < x.audio[p.a].start
          && x.book[prev.b].start < x.book[p.b].start
          && (n == pn + 1 || n == 1)
          && (p.a > prev.a + 1 ==> exists i | prev.b < i < p.b :: x.bookNums[i] == 0)
          && (forall i | prev.b < i < p.b ::
                !(x.bookNums[i] > 0 && x.book[prev.b].start < x.book[i].start < x.book[p.b].start)))
  }

  predicate Accepted(x: Input, ps: seq<Pair>)
    requires InBounds(x, ps)
  {
    forall k | 0 <= k < |ps| :: PairAccepted(x, ps, k)
  }

  function PairSegment(x: Input, ps: seq<Pair>, k: nat): Segment
    requires InBounds(x, ps) && k < |ps|
  {
    var a, b := x.audio[ps[k].a], x.book[ps[k].b];
    var more := k + 1 < |ps|;
    Segment(a.title, b.title,
            a.start, if more then x.audio[ps[k + 1].a].start else a.end,
            b.start, if more then x.book[ps[k + 1].b].start else b.end,
            b.href, b.fragment, b.approx)
  }

  ghost function DirectMapping(x: Input, ps: seq<Pair>): Mapping
    requires InBounds(x, ps) && ps != []
  {
    Mapping(
      x.duration,
      seq(|ps|, k requires 0 <= k < |ps| => PairSegment(x, ps, k)),
      x.resources,
      forall i | 0 <= i < |x.book| && x.bookNums[i] > 0 :: x.book[i].start >= x.book[ps[0].b].start,
      forall i | 0 <= i < |x.book| && x.bookNums[i] > 0 :: x.book[i].start <= x.book[ps[|ps| - 1].b].start,
      forall i | 0 <= i < |x.book| && x.bookNums[i] > 0 :: exists k | 0 <= k < |ps| :: ps[k].b == i,
      false)
  }

  lemma SegmentIsPositive(x: Input, ps: seq<Pair>, k: nat, y: Axis)
    requires InBounds(x, ps) && k < |ps| && ValidAudio(x.audio, x.duration) && Accepted(x, ps)
    ensures Lo(PairSegment(x, ps, k), y) < Hi(PairSegment(x, ps, k), y)
  {
    assert PairAccepted(x, ps, k);
    if k + 1 < |ps| { assert PairAccepted(x, ps, k + 1); }
  }

  lemma DirectMappingIsWellFormed(x: Input, ps: seq<Pair>)
    requires InBounds(x, ps) && ps != [] && ValidAudio(x.audio, x.duration) && Accepted(x, ps)
    ensures WellFormed(DirectMapping(x, ps))
  {
    var segs := DirectMapping(x, ps).segments;
    forall y: Axis, k | 0 <= k < |segs| ensures Lo(segs[k], y) < Hi(segs[k], y) { SegmentIsPositive(x, ps, k, y); }
    forall y: Axis, i, j | 0 <= i < j < |segs| && j == i + 1 ensures Hi(segs[i], y) == Lo(segs[j], y) {
      assert segs[i] == PairSegment(x, ps, i) && segs[j] == PairSegment(x, ps, j);
    }
    CoverageInRange(x, ps);
  }

  lemma CoverageInRange(x: Input, ps: seq<Pair>)
    requires InBounds(x, ps) && ps != [] && ValidAudio(x.audio, x.duration) && Accepted(x, ps)
    ensures 0.0 <= x.book[ps[0].b].start && 0.0 <= x.audio[ps[0].a].start
    ensures x.book[ps[|ps| - 1].b].end <= 1.0 && x.audio[ps[|ps| - 1].a].end <= x.duration + 1.0
  {
    assert PairAccepted(x, ps, 0) && PairAccepted(x, ps, |ps| - 1);
  }

  // ----- what Align returns, without any reference to the order in which the numbers are visited

  ghost function Alignment(x: Input): Option<Mapping>
    requires Matching(x)
  {
    if !ValidAudio(x.audio, x.duration) then None
    else if Mismatched(x.audioNums, x.bookNums) then None
    else if !Complete(x.audioNums, x.bookNums) then
      SplitMapping(x.book, x.bookNums, x.resources, x.audio, x.audioNums, x.duration)
    else
      var ps := Pairing(x.audioNums, x.bookNums, |x.audioNums|);
      PairingShape(x.audioNums, x.bookNums, |x.audioNums|);
      if ps == [] || !Accepted(x, ps) then None else Some(DirectMapping(x, ps))
  }

  lemma DirectAlignment(x: Input)
    requires Matching(x) && ValidAudio(x.audio, x.duration) && !Mismatched(x.audioNums, x.bookNums)
    requires Complete(x.audioNums, x.bookNums)
    ensures Alignment(x).Some? ==> WellFormed(Alignment(x).value)
  {
    var ps := Pairing(x.audioNums, x.bookNums, |x.audioNums|);
    PairingShape(x.audioNums, x.bookNums, |x.audioNums|);
    assert InBounds(x, ps);
    if ps != [] && Accepted(x, ps) { DirectMappingIsWellFormed(x, ps); }
  }

  /** Every mapping `Align` returns is well formed, whichever path made it. */
  lemma AlignmentIsWellFormed(x: Input)
    requires Matching(x)
    ensures Alignment(x).Some? ==> WellFormed(Alignment(x).value)
  {
    if ValidAudio(x.audio, x.duration) && !Mismatched(x.audioNums, x.bookNums) {
      if Complete(x.audioNums, x.bookNums) {
        DirectAlignment(x);
      } else {
        SplitMappingIsWellFormed(x.book, x.bookNums, x.resources, x.audio, x.audioNums, x.duration);
      }
    }
  }

  /** A mapping that claims the full narrative covers the book's first and last numbered chapters. */
  lemma FullNarrativeCovers(x: Input)
    requires Matching(x) && Alignment(x).Some? && Alignment(x).value.fullNarrative
    ensures Alignment(x).value.coversFirst && Alignment(x).value.coversLast
  {
    if Complete(x.audioNums, x.bookNums) {
      PairingShape(x.audioNums, x.bookNums, |x.audioNums|);
      DirectFullCovers(x, Pairing(x.audioNums, x.bookNums, |x.audioNums|));
    } else {
      SplitMappingIsWellFormed(x.book, x.bookNums, x.resources, x.audio, x.audioNums, x.duration);
    }
  }

  lemma DirectFullCovers(x: Input, ps: seq<Pair>)
    requires InBounds(x, ps) && ps != [] && Accepted(x, ps) && DirectMapping(x, ps).fullNarrative
    ensures DirectMapping(x, ps).coversFirst && DirectMapping(x, ps).coversLast
  {
    forall i | 0 <= i < |x.book| && x.bookNums[i] > 0
      ensures x.book[ps[0].b].start <= x.book[i].start <= x.book[ps[|ps| - 1].b].start
    {
      var k :| 0 <= k < |ps| && ps[k].b == i;
      if k > 0 { StartsIncrease(x, ps, 0, k); }
      if k < |ps| - 1 { StartsIncrease(x, ps, k, |ps| - 1); }
    }
  }

  lemma {:induction false} StartsIncrease(x: Input, ps: seq<Pair>, i: nat, j: nat)
    requires InBounds(x, ps) && Accepted(x, ps) && i < j < |ps|
    ensures x.book[ps[i].b].start < x.book[ps[j].b].start
  {
    assert PairAccepted(x, ps, j);
    if i < j - 1 { StartsIncrease(x, ps, i, j - 1); }
  }

  /** Where a number occurs on both sides but not equally often, the split path would refuse too. */
  lemma MismatchRefusesSplits(x: Input)
    requires Matching(x) && ValidAudio(x.audio, x.duration) && Mismatched(x.audioNums, x.bookNums)
    ensures SplitMapping(x.book, x.bookNums, x.resources, x.audio, x.audioNums, x.duration) == None
  {
    MismatchIsNoSplit(x);
  }

  lemma MismatchIsNoSplit(x: Input)
    requires Matching(x) && Mismatched(x.audioNums, x.bookNums)
    ensures !SplitShape(x.book, x.bookNums, x.audio, x.audioNums)
  {
    var n :| n > 0 && n in x.audioNums && n in x.bookNums
             && |Occurrences(x.audioNums, n)| != |Occurrences(x.bookNums, n)|;
    ShapeNumbers(x);
    SameCount(x.audioNums, x.bookNums, n);
  }

  ghost predicate CountsUp(nums: seq<nat>) {
    var idx := Numbered(nums); forall k | 0 <= k < |idx| :: nums[idx[k]] == k + 1
  }

  lemma ShapeNumbers(x: Input)
    requires Matching(x)
    ensures SplitShape(x.book, x.bookNums, x.audio, x.audioNums) ==> CountsUp(x.audioNums) && CountsUp(x.bookNums)
  {
  }

  lemma SameCount(audioNums: seq<nat>, bookNums: seq<nat>, n: nat)
    requires n > 0 && n in audioNums && n in bookNums
    ensures CountsUp(audioNums) && CountsUp(bookNums) ==> |Occurrences(audioNums, n)| == |Occurrences(bookNums, n)|
  {
    if CountsUp(audioNums) && CountsUp(bookNums) {
      NumberedOnce(audioNums, n);
      NumberedOnce(bookNums, n);
    }
  }

  /** In a sequence whose positive numbers run 1, 2, 3, ... each of them stands at the place it names. */
  lemma PlacedByNumber(nums: seq<nat>, i: nat)
    requires i < |nums| && nums[i] > 0
    requires CountsUp(nums)
    ensures nums[i] <= |Numbered(nums)| && Numbered(nums)[nums[i] - 1] == i
  {
    var k :| 0 <= k < |Numbered(nums)| && Numbered(nums)[k] == i;
  }

  lemma SamePlace(nums: seq<nat>, i: nat, j: nat)
    requires i < |nums| && j < |nums| && nums[i] == nums[j] > 0
    requires CountsUp(nums)
    ensures i == j
  {
    PlacedByNumber(nums, i);
    PlacedByNumber(nums, j);
  }

  lemma OccursOnce(nums: seq<nat>, n: nat)
    requires n > 0 && n in nums
    requires forall i, j | 0 <= i < |nums| && 0 <= j < |nums| && nums[i] == nums[j] == n :: i == j
    ensures |Occurrences(nums, n)| == 1
  {
    OccurrencesIncrease(nums, n);
    if |Occurrences(nums, n)| > 1 { FirstTwoDiffer(Occurrences(nums, n)); }
  }

  lemma FirstTwoDiffer(s: seq<nat>)
    requires |s| > 1 && forall i, k | 0 <= i < k < |s| :: s[i] < s[k]
    ensures s[0] < s[1]
  {
  }

  lemma NumberedOnce(nums: seq<nat>, n: nat)
    requires n > 0 && n in nums
    requires CountsUp(nums)
    ensures |Occurrences(nums, n)| == 1
  {
    forall i, j | 0 <= i < |nums| && 0 <= j < |nums| && nums[i] == nums[j] == n ensures i == j {
      SamePlace(nums, i, j);
    }
    OccursOnce(nums, n);
  }

  // ----- the code

  /** `occurrences`: each positive number with the indices it occurs at. */
  method CollectOccurrences(nums: seq<nat>) returns (m: map<nat, seq<nat>>)
    ensures forall n :: n in m <==> n > 0 && n in nums
    ensures forall n | n in m :: m[n] == Occurrences(nums, n)
  {
    m := map[];
    for i := 0 to |nums|
      invariant forall n :: n in m <==> n > 0 && n in nums[..i]
      invariant forall n | n in m :: m[n] == Occurrences(nums[..i], n)
    {
      assert nums[..i + 1][..i] == nums[..i];
      var n := nums[i];
      OccursSomewhere(nums[..i], n);
      if n > 0 {
        m := m[n := (if n in m then m[n] else []) + [i]];
      }
    }
    assert nums[..|nums|] == nums;
  }

  /** The pairs made so far are exactly those of the numbers in `done`. */
  ghost predicate PairsOf(audioNums: seq<nat>, bookNums: seq<nat>, done: set<nat>, ps: seq<Pair>) {
    && DistinctAudio(ps)
    && (forall p :: p in ps <==> FromNumbers(audioNums, bookNums, done, p))
  }

  ghost predicate FromNumbers(audioNums: seq<nat>, bookNums: seq<nat>, done: set<nat>, p: Pair) {
    exists n, k :: n in done && 0 <= k < |Occurrences(audioNums, n)| && k < |Occurrences(bookNums, n)|
                   && p == Pair(Occurrences(audioNums, n)[k], Occurrences(bookNums, n)[k])
  }

  method CheckPairs(x: Input, ps: seq<Pair>) returns (ok: bool)
    requires InBounds(x, ps)
    ensures ok == Accepted(x, ps)
  {
    for k := 0 to |ps|
      invariant forall i | 0 <= i < k :: PairAccepted(x, ps, i)
    {
      if !PairAccepted(x, ps, k) {
        return false;
      }
    }
    return true;
  }

  /** The loops that lay the accepted pairs out as segments and decide what the mapping covers. */
  method BuildMapping(x: Input, ps: seq<Pair>) returns (m: Mapping)
    requires InBounds(x, ps) && ps != []
    ensures m == DirectMapping(x, ps)
  {
    var segments := [];
    for k := 0 to |ps|
      invariant |segments| == k && forall i | 0 <= i < k :: segments[i] == PairSegment(x, ps, i)
    {
      segments := segments + [PairSegment(x, ps, k)];
    }
    var first, last := ps[0].b, ps[|ps| - 1].b;
    var coversFirst, coversLast, full := true, true, true;
    for i := 0 to |x.book|
      invariant coversFirst == forall j | 0 <= j < i && x.bookNums[j] > 0 :: x.book[j].start >= x.book[first].start
      invariant coversLast == forall j | 0 <= j < i && x.bookNums[j] > 0 :: x.book[j].start <= x.book[last].start
    {
      if x.bookNums[i] > 0 && x.book[i].start < x.book[first].start { coversFirst := false; }
      if x.bookNums[i] > 0 && x.book[i].start > x.book[last].start { coversLast := false; }
    }
    var matched: set<nat> := {};
    for k := 0 to |ps|
      invariant forall b: nat :: b in matched <==> exists j | 0 <= j < k :: ps[j].b == b
    {
      matched := matched + {ps[k].b};
    }
    for i := 0 to |x.book|
      invariant full == forall j | 0 <= j < i && x.bookNums[j] > 0 :: j in matched
    {
      if x.bookNums[i] > 0 && i !in matched { full := false; }
    }
    m := Mapping(x.duration, segments, x.resources, coversFirst, coversLast, full, false);
    assert m.segments == DirectMapping(x, ps).segments;
  }

  /** The pairs of one number: its k-th occurrence in the audio with its k-th in the book. */
  method PairUp(audioNums: seq<nat>, bookNums: seq<nat>, n: nat, done: set<nat>, before: seq<Pair>)
    returns (ps: seq<Pair>)
    requires PairsOf(audioNums, bookNums, done, before) && n !in done
    requires |Occurrences(audioNums, n)| == |Occurrences(bookNums, n)|
    ensures PairsOf(audioNums, bookNums, done + {n}, ps)
  {
    var oa, ob := Occurrences(audioNums, n), Occurrences(bookNums, n);
    OccurrencesIncrease(audioNums, n);
    forall p | p in before
      ensures p.a < |audioNums| && audioNums[p.a] in done
    {
      assert FromNumbers(audioNums, bookNums, done, p);
      var m, k :| m in done && 0 <= k < |Occurrences(audioNums, m)| && k < |Occurrences(bookNums, m)|
                  && p == Pair(Occurrences(audioNums, m)[k], Occurrences(bookNums, m)[k]);
      OccurrencesIncrease(audioNums, m);
    }
    ps := before;
    for k := 0 to |oa|
      invariant |ps| == |before| + k && ps[..|before|] == before
      invariant forall i | 0 <= i < k :: ps[|before| + i] == Pair(oa[i], ob[i])
    {
      ps := ps + [Pair(oa[k], ob[k])];
    }
    forall i, j | 0 <= i < j < |ps| ensures ps[i].a != ps[j].a {
      if i < |before| <= j {
        assert ps[i] == before[i] && ps[i] in before && ps[j].a == oa[j - |before|];
      } else if i >= |before| {
        assert ps[i].a == oa[i - |before|] && ps[j].a == oa[j - |before|];
      } else {
        assert ps[i] == before[i] && ps[j] == before[j];
      }
    }
    forall p
      ensures p in ps <==> FromNumbers(audioNums, bookNums, done + {n}, p)
    {
      if p in ps {
        var i :| 0 <= i < |ps| && ps[i] == p;
        if i < |before| {
          assert p == before[i] && p in before;
        } else {
          assert p == Pair(oa[i - |before|], ob[i - |before|]);
        }
      }
      if FromNumbers(audioNums, bookNums, done + {n}, p) && p !in before {
        var m, k :| m in done + {n} && 0 <= k < |Occurrences(audioNums, m)| && k < |Occurrences(bookNums, m)|
                    && p == Pair(Occurrences(audioNums, m)[k], Occurrences(bookNums, m)[k]);
        assert m == n;
        assert ps[|before| + k] == p;
      }
      if p in before {
        var i :| 0 <= i < |before| && before[i] == p;
        assert ps[i] == p;
      }
    }
  }

  /** Once every number is done, sorting leaves exactly the pairing. */
  lemma SortedIsPairing(audioNums: seq<nat>, bookNums: seq<nat>, done: set<nat>, ps: seq<Pair>)
    requires Complete(audioNums, bookNums) && PairsOf(audioNums, bookNums, done, ps)
    requires forall n: nat :: n in done <==> n > 0 && n in audioNums
    ensures SortByAudio(ps) == Pairing(audioNums, bookNums, |audioNums|)
  {
    SortSorts(ps);
    var t := Pairing(audioNums, bookNums, |audioNums|);
    PairingShape(audioNums, bookNums, |audioNums|);
    forall p ensures p in ps <==> p in t {
      PairingMembers(audioNums, bookNums, |audioNums|, p);
      if p in ps {
        var n, k :| n in done && 0 <= k < |Occurrences(audioNums, n)| && k < |Occurrences(bookNums, n)|
                    && p == Pair(Occurrences(audioNums, n)[k], Occurrences(bookNums, n)[k]);
        OccurrencesRank(audioNums, n);
        PartnerExists(audioNums, bookNums, p.a);
        assert p == Pair(p.a, Partner(audioNums, bookNums, p.a));
      }
      if p in t {
        var n := audioNums[p.a];
        OccurrencesRank(audioNums, n);
        PartnerExists(audioNums, bookNums, p.a);
        var k := |Occurrences(audioNums[..p.a], n)|;
        assert p == Pair(Occurrences(audioNums, n)[k], Occurrences(bookNums, n)[k]);
      }
    }
    OneOrder(SortByAudio(ps), t);
  }

  lemma MissingNumber(x: Input, n: nat)
    requires Matching(x) && ValidAudio(x.audio, x.duration) && n > 0 && n in x.audioNums && n !in x.bookNums
    ensures Alignment(x) == SplitMapping(x.book, x.bookNums, x.resources, x.audio, x.audioNums, x.duration)
  {
    OccursSomewhere(x.audioNums, n);
    OccursSomewhere(x.bookNums, n);
    if Mismatched(x.audioNums, x.bookNums) { MismatchRefusesSplits(x); }
  }

  lemma UnequalNumber(x: Input, n: nat)
    requires Matching(x) && n > 0 && n in x.audioNums && n in x.bookNums
    requires |Occurrences(x.audioNums, n)| != |Occurrences(x.bookNums, n)|
    ensures Alignment(x) == None
  {
  }

  /** `Align`. The numbers are visited in any order whatever, as a Go map may yield them. */
  method Align(book: seq<BookChapter>, resources: seq<Resource>, audio: seq<Chapter>, duration: real,
               number: string -> nat)
    returns (r: Option<Mapping>)
    ensures r == Alignment(InputOf(book, resources, audio, duration, number))
    ensures r.Some? ==> WellFormed(r.value)
  {
    var x := InputOf(book, resources, audio, duration, number);
    var audioNums, bookNums := x.audioNums, x.bookNums;
    AlignmentIsWellFormed(x);
    if !ValidAudio(audio, duration) {
      return None;
    }
    var audioByNum := CollectOccurrences(audioNums);
    var bookByNum := CollectOccurrences(bookNums);
    var pairs: seq<Pair> := [];
    var todo := audioByNum.Keys;
    while todo != {}
      invariant todo <= audioByNum.Keys
      invariant PairsOf(audioNums, bookNums, audioByNum.Keys - todo, pairs)
      invariant Evened(x, audioByNum.Keys - todo)
    {
      var n :| n in todo;
      if n !in bookByNum {
        r := AlignWithSplits(book, bookNums, resources, audio, audioNums, duration);
        MissingNumber(x, n);
        return;
      }
      if |audioByNum[n]| != |bookByNum[n]| {
        UnequalNumber(x, n);
        return None;
      }
      pairs := PairUp(audioNums, bookNums, n, audioByNum.Keys - todo, pairs);
      assert audioByNum.Keys - (todo - {n}) == audioByNum.Keys - todo + {n};
      todo := todo - {n};
    }
    assert audioByNum.Keys - todo == audioByNum.Keys;
    r := AlignPairs(x, audioByNum.Keys, pairs);
  }

  /** Each of these numbers occurs on both sides, as often. */
  ghost predicate Evened(x: Input, nums: set<nat>) {
    forall n | n in nums :: n in x.bookNums && |Occurrences(x.audioNums, n)| == |Occurrences(x.bookNums, n)|
  }

  lemma EvenedIsComplete(x: Input, nums: set<nat>)
    requires Evened(x, nums) && forall n: nat :: n in nums <==> n > 0 && n in x.audioNums
    ensures Complete(x.audioNums, x.bookNums) && !Mismatched(x.audioNums, x.bookNums)
  {
  }

  /** What follows the loop: the pairs in order, checked, and made into segments. */
  method AlignPairs(x: Input, ghost nums: set<nat>, unsorted: seq<Pair>) returns (r: Option<Mapping>)
    requires Matching(x) && ValidAudio(x.audio, x.duration) && PairsOf(x.audioNums, x.bookNums, nums, unsorted)
    requires Evened(x, nums) && forall n: nat :: n in nums <==> n > 0 && n in x.audioNums
    ensures r == Alignment(x)
  {
    EvenedIsComplete(x, nums);
    SortedIsPairing(x.audioNums, x.bookNums, nums, unsorted);
    PairingShape(x.audioNums, x.bookNums, |x.audioNums|);
    var pairs := SortByAudio(unsorted);
    if pairs == [] {
      return None;
    }
    var ok := CheckPairs(x, pairs);
    if !ok {
      return None;
    }
    var m := BuildMapping(x, pairs);
    return Some(m);
  }
}
