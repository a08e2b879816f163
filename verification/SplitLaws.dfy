/** What `alignWithSplits` answers, in the titles, times and places of the chapters themselves
  (internal/audiomap/audiomap.go).
*/
module SplitLaws {
  import opened Wrappers
  import opened AudioMap
  import opened SplitPlan
  import opened SplitAlign

  // ----- the segments of the mapping

  /** One track for a whole chapter. */
  ghost predicate IsChapter(b: BookChapter, bEnd: real, a: Chapter, aEnd: real, s: Segment) {
    s == Segment(a.title, b.title, a.start, aEnd, b.start, bEnd, b.href, b.fragment, b.approx)
  }

  /** Two tracks for one chapter: the book is cut so that each part is to its track as the other to the other. */
  ghost predicate IsCutChapter(b: BookChapter, bEnd: real, a1: Chapter, a2: Chapter, aEnd: real, s: Segment,
                               t: Segment) {
    && s == Segment(a1.title, b.title, a1.start, a2.start, b.start, s.bookEnd, b.href, b.fragment, true)
    && t == Segment(a2.title, b.title, a2.start, aEnd, t.bookStart, bEnd, b.href, "", true)
    && s.bookEnd == t.bookStart
    && (s.bookEnd - s.bookStart) * (t.audioEnd - t.audioStart) == (t.bookEnd - t.bookStart) * (a1.end - a1.start)
  }

  /** Chapter j's segments stand at k and, if it is cut, at k + 1: tracks and segments are numbered alike. */
  ghost predicate ChapterAt(p: Problem, j: nat, k: nat, count: int, segs: seq<Segment>)
    requires Indexed(p) && j < |p.bIdx| && k + 2 <= |p.aIdx| + 1
  {
    var last := j + 1 == |p.bIdx|;
    var b, bEnd := p.book[p.bIdx[j]], if last then p.book[p.bIdx[j]].end else p.book[p.bIdx[j + 1]].start;
    if count == 1 then
      && k < |segs| && k < |p.aIdx| && (!last ==> k + 1 < |p.aIdx|)
      && IsChapter(b, bEnd, p.audio[p.aIdx[k]],
                   if last then p.audio[p.aIdx[k]].end else p.audio[p.aIdx[k + 1]].start, segs[k])
    else
      && count == 2 && k + 1 < |segs| && k + 1 < |p.aIdx| && (!last ==> k + 2 < |p.aIdx|)
      && IsCutChapter(b, bEnd, p.audio[p.aIdx[k]], p.audio[p.aIdx[k + 1]],
                      if last then p.audio[p.aIdx[k + 1]].end else p.audio[p.aIdx[k + 2]].start, segs[k], segs[k + 1])
  }

  ghost predicate PlannedAt(p: Problem, plan: Plan, j: nat, segs: seq<Segment>)
    requires Fits(p, plan) && j < |plan|
  {
    FitsAt(p, plan, j);
    ChapterAt(p, j, Tracks(plan[..j]), plan[j], segs)
  }

  /** The segments are those of the plan, chapter by chapter, one for each track it uses. */
  ghost predicate FollowsPlan(p: Problem, plan: Plan, segs: seq<Segment>) {
    && Fits(p, plan) && |segs| == Tracks(plan)
    && forall j | 0 <= j < |plan| :: PlannedAt(p, plan, j, segs)
  }

  lemma CutIsInProportion(d1: real, d2: real, lo: real, hi: real)
    requires d1 > 0.0 && d2 > 0.0
    ensures (CutAt(d1, d2, lo, hi) - lo) * d2 == (hi - CutAt(d1, d2, lo, hi)) * d1
  {
    var q, h := d1 / (d1 + d2), hi - lo;
    assert q * (d1 + d2) == d1;
    assert (q * h) * (d1 + d2) == d1 * h;
    assert CutAt(d1, d2, lo, hi) - lo == q * h && hi - CutAt(d1, d2, lo, hi) == h - q * h;
  }

  lemma ChapterSegmentsAre(p: Problem, j: nat, ai: nat, count: int, before: seq<Segment>)
    requires Sound(p) && Indexed(p) && j < |p.bIdx| && (count == 1 || count == 2)
    requires ai + count <= |p.aIdx| && (j + 1 < |p.bIdx| ==> ai + count < |p.aIdx|) && |before| == ai
    ensures ChapterAt(p, j, ai, count, before + ChapterSegments(p, j, ai, count))
  {
    if count == 2 {
      TrackBeforeNext(p, ai);
      TrackBeforeNext(p, ai + 1);
      var a1, a2, aEnd := p.audio[p.aIdx[ai]], p.audio[p.aIdx[ai + 1]], NextAudioStart(p, j, ai + 1);
      CutIsInProportion(a1.end - a1.start, aEnd - a2.start, p.book[p.bIdx[j]].start, NextBookStart(p, j));
    }
  }

  lemma ChapterStays(p: Problem, j: nat, k: nat, count: int, segs: seq<Segment>, more: seq<Segment>)
    requires Indexed(p) && j < |p.bIdx| && k + 2 <= |p.aIdx| + 1 && ChapterAt(p, j, k, count, segs)
    ensures ChapterAt(p, j, k, count, segs + more)
  {
  }

  lemma ChapterCount(p: Problem, j: nat, ai: nat, count: int)
    requires Sound(p) && Indexed(p) && j < |p.bIdx| && (count == 1 || count == 2)
    requires ai + count <= |p.aIdx| && (j + 1 < |p.bIdx| ==> ai + count < |p.aIdx|)
    ensures |ChapterSegments(p, j, ai, count)| == count
  {
  }

  lemma RebuiltStep(p: Problem, plan: Plan, n: nat)
    requires Fits(p, plan) && 0 < n <= |plan|
    ensures var ai, count := Tracks(plan[..n - 1]), plan[n - 1];
            && 0 <= ai && (count == 1 || count == 2) && Tracks(plan[..n]) == ai + count
            && ai + count <= |p.aIdx| && (n < |p.bIdx| ==> ai + count < |p.aIdx|)
            && Rebuilt(p, plan, n) == Rebuilt(p, plan, n - 1) + ChapterSegments(p, n - 1, ai, count)
  {
    FitsAt(p, plan, n - 1);
  }

  /** One more chapter adds as many segments as it takes tracks. */
  lemma RebuiltGrows(p: Problem, plan: Plan, n: nat) returns (more: seq<Segment>)
    requires Fits(p, plan) && 0 < n <= |plan|
    ensures Rebuilt(p, plan, n) == Rebuilt(p, plan, n - 1) + more
    ensures |more| == Tracks(plan[..n]) - Tracks(plan[..n - 1])
  {
    RebuiltStep(p, plan, n);
    ChapterCount(p, n - 1, Tracks(plan[..n - 1]), plan[n - 1]);
    more := ChapterSegments(p, n - 1, Tracks(plan[..n - 1]), plan[n - 1]);
  }

  lemma {:induction false} RebuiltLength(p: Problem, plan: Plan, n: nat)
    requires Fits(p, plan) && n <= |plan|
    ensures |Rebuilt(p, plan, n)| == Tracks(plan[..n])
  {
    if n > 0 {
      RebuiltLength(p, plan, n - 1);
      var more := RebuiltGrows(p, plan, n);
    }
  }

  lemma NewestChapterAt(p: Problem, plan: Plan, j: nat)
    requires Fits(p, plan) && j < |plan|
    ensures PlannedAt(p, plan, j, Rebuilt(p, plan, j + 1))
  {
    RebuiltLength(p, plan, j);
    RebuiltStep(p, plan, j + 1);
    ChapterSegmentsAre(p, j, Tracks(plan[..j]), plan[j], Rebuilt(p, plan, j));
  }

  lemma PlannedStays(p: Problem, plan: Plan, j: nat, segs: seq<Segment>, more: seq<Segment>, all: seq<Segment>)
    requires Fits(p, plan) && j < |plan| && PlannedAt(p, plan, j, segs) && all == segs + more
    ensures PlannedAt(p, plan, j, all)
  {
    FitsAt(p, plan, j);
    ChapterStays(p, j, Tracks(plan[..j]), plan[j], segs, more);
  }

  lemma {:induction false} RebuiltPrefix(p: Problem, plan: Plan, m: nat, n: nat, part: seq<Segment>, all: seq<Segment>)
    requires Fits(p, plan) && m <= n <= |plan| && part == Rebuilt(p, plan, m) && all == Rebuilt(p, plan, n)
    ensures part <= all
    decreases n
  {
    if m < n {
      var most := Rebuilt(p, plan, n - 1);
      RebuiltPrefix(p, plan, m, n - 1, part, most);
      var more := RebuiltGrows(p, plan, n);
      assert all == most + more;
    }
  }

  lemma RebuiltAt(p: Problem, plan: Plan, n: nat, j: nat)
    requires Fits(p, plan) && j < n <= |plan|
    ensures PlannedAt(p, plan, j, Rebuilt(p, plan, n))
  {
    NewestChapterAt(p, plan, j);
    var segs, all := Rebuilt(p, plan, j + 1), Rebuilt(p, plan, n);
    RebuiltPrefix(p, plan, j + 1, n, segs, all);
    PlannedStays(p, plan, j, segs, all[|segs|..], all);
  }

  lemma RebuiltFollows(p: Problem, plan: Plan)
    requires Fits(p, plan)
    ensures FollowsPlan(p, plan, Rebuilt(p, plan, |plan|))
  {
    RebuiltLength(p, plan, |plan|);
    assert plan[..|plan|] == plan;
    forall j | 0 <= j < |plan| ensures PlannedAt(p, plan, j, Rebuilt(p, plan, |plan|)) {
      RebuiltAt(p, plan, |plan|, j);
    }
  }

  // ----- the rules a plan is chosen by

  function Gap(a: real, b: real): real { if a <= b then b - a else a - b }

  /** Both tracks well short of the chapter, and together much closer to it than either. */
  ghost predicate MayTakeTwo(a1: real, a2: real, b: real) {
    && 100.0 * a1 < 85.0 * b && 100.0 * a2 < 85.0 * b
    && 100.0 * Gap(a1 + a2, b) < 65.0 * Gap(a1, b) && 100.0 * Gap(a1 + a2, b) < 65.0 * Gap(a2, b)
  }

  lemma AllowedExactly(wa: seq<real>, wb: seq<real>, i: nat, j: nat)
    requires i + 1 < |wa| && j < |wb|
    ensures SplitAllowed(wa, wb, i, j) <==> MayTakeTwo(wa[i], wa[i + 1], wb[j])
    ensures TwoError(wa, wb, i, j) == Gap(wa[i] + wa[i + 1], wb[j])
  {
  }

  /** One more step keeps a plan feasible exactly by these rules... */
  lemma StepRules(wa: seq<real>, wb: seq<real>, plan: Plan, count: int)
    ensures Feasible(wa, wb, plan + [count]) <==>
            var i, j := Tracks(plan), |plan|;
            && Feasible(wa, wb, plan) && j < |wb| && 0 <= i
            && (|| (count == 1 && i < |wa|)
                || (count == 2 && i + 1 < |wa| && MayTakeTwo(wa[i], wa[i + 1], wb[j])))
  {
    assert (plan + [count])[..|plan|] == plan;
    var i, j := Tracks(plan), |plan|;
    if 0 <= i && i + 1 < |wa| && j < |wb| { AllowedExactly(wa, wb, i, j); }
  }

  /** ...and costs the distance between its shares. */
  lemma StepCosts(wa: seq<real>, wb: seq<real>, plan: Plan, count: int, i: nat, j: nat)
    requires Feasible(wa, wb, plan) && i == Tracks(plan) && j == |plan| < |wb|
    requires (count == 1 && i < |wa|) || (count == 2 && i + 1 < |wa| && MayTakeTwo(wa[i], wa[i + 1], wb[j]))
    ensures Feasible(wa, wb, plan + [count])
    ensures Cost(wa, wb, plan + [count]) - Cost(wa, wb, plan)
            == Gap(if count == 2 then wa[i] + wa[i + 1] else wa[i], wb[j])
  {
    if count == 2 { AllowedExactly(wa, wb, i, j); }
    Extend(wa, wb, plan, count);
  }

  /** The share at i is the length there, divided by the total. */
  lemma AudioShareAt(p: Problem, t: nat, i: nat) returns (c: real)
    requires Indexed(p) && t <= MaxExtra(p) && i < |p.aIdx| - t
    ensures c > 0.0 && c == Sum(AudioLengths(p.audio, p.aIdx[..|p.aIdx| - t]))
    ensures AudioShares(p, t)[i] == (p.audio[p.aIdx[i]].end - p.audio[p.aIdx[i]].start) / c
  {
    var lens := AudioLengths(p.audio, p.aIdx[..|p.aIdx| - t]);
    NormalizeIsShares(lens);
    c := Sum(lens);
    NormalizeAt(lens, i, p.audio[p.aIdx[i]].end - p.audio[p.aIdx[i]].start);
  }

  lemma BookShareAt(p: Problem, i: nat) returns (c: real)
    requires Indexed(p) && i < |p.bIdx|
    ensures c > 0.0 && c == Sum(BookLengths(p.book, p.bIdx))
    ensures BookShares(p)[i] == (p.book[p.bIdx[i]].end - p.book[p.bIdx[i]].start) / c
  {
    var lens := BookLengths(p.book, p.bIdx);
    NormalizeIsShares(lens);
    c := Sum(lens);
    NormalizeAt(lens, i, p.book[p.bIdx[i]].end - p.book[p.bIdx[i]].start);
  }

  lemma NormalizeAt(lens: seq<real>, i: nat, x: real)
    requires Sum(lens) > 0.0 && i < |lens| && lens[i] == x
    ensures Normalize(lens)[i] == x / Sum(lens)
  {
  }

  /** Shares are in the proportion of the lengths. */
  lemma SharesAreProportional(p: Problem, t: nat, i: nat, k: nat)
    requires Indexed(p) && t <= MaxExtra(p) && i < |p.aIdx| - t && k < |p.aIdx| - t
    ensures var a, b := p.audio[p.aIdx[i]], p.audio[p.aIdx[k]];
            AudioShares(p, t)[i] * (b.end - b.start) == AudioShares(p, t)[k] * (a.end - a.start)
  {
    var a, b := p.audio[p.aIdx[i]], p.audio[p.aIdx[k]];
    var c := AudioShareAt(p, t, i);
    var d := AudioShareAt(p, t, k);
    Proportion(a.end - a.start, b.end - b.start, c, AudioShares(p, t)[i], AudioShares(p, t)[k]);
  }

  lemma SharesMakeAWhole(p: Problem, t: nat)
    requires Indexed(p) && t <= MaxExtra(p)
    ensures |AudioShares(p, t)| == |p.aIdx| - t && Sum(AudioShares(p, t)) == 1.0
    ensures |BookShares(p)| == |p.bIdx| && Sum(BookShares(p)) == 1.0
  {
  }

  lemma BookSharesAreProportional(p: Problem, i: nat, k: nat)
    requires Indexed(p) && i < |p.bIdx| && k < |p.bIdx|
    ensures var a, b := p.book[p.bIdx[i]], p.book[p.bIdx[k]];
            BookShares(p)[i] * (b.end - b.start) == BookShares(p)[k] * (a.end - a.start)
  {
    var a, b := p.book[p.bIdx[i]], p.book[p.bIdx[k]];
    var c := BookShareAt(p, i);
    var d := BookShareAt(p, k);
    Proportion(a.end - a.start, b.end - b.start, c, BookShares(p)[i], BookShares(p)[k]);
  }

  lemma Proportion(a: real, b: real, c: real, q: real, r: real)
    requires c != 0.0 && q == a / c && r == b / c
    ensures q * b == r * a
  {
    assert q * c == a && r * c == b;
    assert q * (r * c) == r * (q * c);
  }

  /** The share of the book after the last numbered chapter. */
  function BackMatter(p: Problem): real
    requires Indexed(p)
  {
    var end := p.book[p.bIdx[|p.bIdx| - 1]].end; if end < 1.0 then 1.0 - end else 0.0
  }

  /** The time from the start of the first track left out to the end of the last. */
  function Tail(p: Problem, t: nat): real
    requires Indexed(p) && 0 < t <= |p.aIdx|
  {
    p.audio[p.aIdx[|p.aIdx| - 1]].end - p.audio[p.aIdx[|p.aIdx| - t]].start
  }

  /** How much of the whole playing time the tracks left out may take. */
  function TailAllowed(p: Problem): real
    requires Indexed(p)
  {
    if p.bIdx[|p.bIdx| - 1] + 1 >= |p.book| && 1000.0 * BackMatter(p) < 5.0 then p.duration / 40.0
    else (BackMatter(p) + 0.03) * p.duration
  }

  lemma QuotientTimes(x: real, d: real, q: real)
    requires d > 0.0 && q == x / d
    ensures q * d == x
  {
    assert x / d * d == x;
  }

  lemma TailShareTimes(p: Problem, t: nat)
    requires Indexed(p) && 0 < t <= MaxExtra(p)
    ensures TailShare(p, t) * p.duration == Tail(p, t)
  {
    QuotientTimes(Tail(p, t), p.duration, TailShare(p, t));
  }

  lemma TailIsAllowed(p: Problem, t: nat)
    requires Indexed(p) && 0 < t <= MaxExtra(p)
    ensures TailEligible(p, t) <==> Tail(p, t) <= TailAllowed(p)
  {
    TailShareTimes(p, t);
    AllowedTimes(p);
    Compared(TailShare(p, t), MaxTailShare(p), p.duration, Tail(p, t), TailAllowed(p));
  }

  lemma TailCosts(p: Problem, t: nat)
    requires Indexed(p) && 0 < t <= MaxExtra(p)
    ensures 2.0 * TailPenalty(p, t) * p.duration == Gap(Tail(p, t), BackMatter(p) * p.duration)
  {
    TailShareTimes(p, t);
    assert BackMatterShare(p) == BackMatter(p);
    PenaltyTimes(TailShare(p, t), BackMatter(p), p.duration);
  }

  /** Leaving tracks out costs half the distance between their share of the time and the book's share of back matter. */
  lemma TailRules(p: Problem, t: nat)
    requires Indexed(p) && t <= MaxExtra(p)
    ensures TailEligible(p, t) <==> t == 0 || Tail(p, t) <= TailAllowed(p)
    ensures TailPenalty(p, 0) == 0.0
    ensures t > 0 ==> 2.0 * TailPenalty(p, t) * p.duration == Gap(Tail(p, t), BackMatter(p) * p.duration)
  {
    if t > 0 {
      TailIsAllowed(p, t);
      TailCosts(p, t);
    }
  }

  lemma AllowedTimes(p: Problem)
    requires Indexed(p)
    ensures MaxTailShare(p) * p.duration == TailAllowed(p)
  {
  }

  lemma Compared(a: real, b: real, d: real, x: real, y: real)
    requires d > 0.0 && a * d == x && b * d == y
    ensures a <= b <==> x <= y
  {
    TimesDuration(a, b, d);
  }

  lemma TimesDuration(a: real, b: real, d: real)
    requires d > 0.0
    ensures a <= b <==> a * d <= b * d
  {
    if a < b { ProductIncreases(a, b, d); }
    if b < a { ProductIncreases(b, a, d); }
  }

  lemma PenaltyTimes(a: real, b: real, d: real)
    requires d > 0.0
    ensures 2.0 * (Abs(a - b) * 0.5) * d == Gap(a * d, b * d)
  {
    TimesDuration(a, b, d);
    assert (a - b) * d == a * d - b * d;
  }

  lemma QualifiesExactly(p: Problem, t: nat, plan: Plan)
    requires Indexed(p)
    ensures Qualifies(p, t, plan) <==>
            && t <= |p.aIdx| - |p.bIdx| && (t == 0 || Tail(p, t) <= TailAllowed(p))
            && |plan| == |p.bIdx| && Tracks(plan) == |p.aIdx| - t
            && Feasible(AudioShares(p, t), BookShares(p), plan)
            && 4.0 * Cost(AudioShares(p, t), BookShares(p), plan) <= 1.0
  {
    if t <= MaxExtra(p) { TailRules(p, t); }
  }

  // ----- ties

  /** Where p and q differ last, p takes two tracks. */
  ghost predicate TwosLast(p: Plan, q: Plan) {
    |p| == |q| && (p == q || exists k | 0 <= k < |p| :: p[k] == 2 && q[k] == 1 && p[k + 1..] == q[k + 1..])
  }

  lemma {:induction false} TwosLastMore(p: Plan, q: Plan, c: int)
    requires TwosLast(p, q)
    ensures TwosLast(p + [c], q + [c])
  {
    if p != q {
      var k :| 0 <= k < |p| && p[k] == 2 && q[k] == 1 && p[k + 1..] == q[k + 1..];
      assert (p + [c])[k + 1..] == p[k + 1..] + [c] && (q + [c])[k + 1..] == q[k + 1..] + [c];
      assert (p + [c])[k] == 2 && (q + [c])[k] == 1;
    }
  }

  /** The cost of a plan that ends in one step is that of its front and the step. */
  lemma LastStep(wa: seq<real>, wb: seq<real>, q: Plan, j: nat, s: nat, c: real)
    requires Attains(wa, wb, j, s, q, c) && 0 < j <= |wb|
    ensures var front := q[..j - 1];
            && (q[j - 1] == 1 || q[j - 1] == 2) && Feasible(wa, wb, front)
            && (q[j - 1] == 1 ==> j - 1 + s < |wa| && Attains(wa, wb, j - 1, s, front, Cost(wa, wb, front))
                                  && c == Cost(wa, wb, front) + OneError(wa, wb, j - 1 + s, j - 1))
            && (q[j - 1] == 2 ==> s > 0 && j - 1 + s < |wa| && SplitAllowed(wa, wb, j - 2 + s, j - 1)
                                  && Attains(wa, wb, j - 1, s - 1, front, Cost(wa, wb, front))
                                  && c == Cost(wa, wb, front) + TwoError(wa, wb, j - 2 + s, j - 1))
  {
    LowerBound(wa, wb, q[..j - 1]);
  }

  /** A cheapest plan that ends in the step read out has a cheapest front. */
  lemma FrontIsCheapest(wa: seq<real>, wb: seq<real>, j: nat, s: nat, q: Plan)
    requires 0 < j <= |wb| && Opt(wa, wb, j, s).Some? && Attains(wa, wb, j, s, q, Opt(wa, wb, j, s).value)
    ensures q[j - 1] == 1 || q[j - 1] == 2
    ensures q[j - 1] == 2 ==>
              && s > 0 && Choice(wa, wb, j, s) == 2 && Opt(wa, wb, j - 1, s - 1).Some?
              && Attains(wa, wb, j - 1, s - 1, q[..j - 1], Opt(wa, wb, j - 1, s - 1).value)
    ensures q[j - 1] == 1 && Choice(wa, wb, j, s) != 2 ==>
              Opt(wa, wb, j - 1, s).Some? && Attains(wa, wb, j - 1, s, q[..j - 1], Opt(wa, wb, j - 1, s).value)
  {
    ChoiceStep(wa, wb, j, s);
    LastStep(wa, wb, q, j, s, Opt(wa, wb, j, s).value);
    LowerBound(wa, wb, q[..j - 1]);
  }

  lemma TwoAgainstOne(p: Plan, q: Plan)
    requires |p| == |q| > 0 && p[|p| - 1] == 2 && q[|q| - 1] == 1
    ensures TwosLast(p, q)
  {
    var k := |p| - 1;
    assert p[k + 1..] == q[k + 1..];
  }

  /** Among the cheapest plans the one read out takes two tracks as late as possible. */
  lemma {:induction false} TiesGoToTwos(wa: seq<real>, wb: seq<real>, j: nat, s: nat, q: Plan)
    requires j <= |wb| && Opt(wa, wb, j, s).Some? && Attains(wa, wb, j, s, q, Opt(wa, wb, j, s).value)
    ensures TwosLast(Backtrack(wa, wb, j, s), q)
  {
    if j > 0 {
      FrontIsCheapest(wa, wb, j, s, q);
      ChoiceStep(wa, wb, j, s);
      assert q == q[..j - 1] + [q[j - 1]];
      if q[j - 1] == 2 {
        TiesGoToTwos(wa, wb, j - 1, s - 1, q[..j - 1]);
        TwosLastMore(Backtrack(wa, wb, j - 1, s - 1), q[..j - 1], 2);
      } else if Choice(wa, wb, j, s) == 2 {
        Attained(wa, wb, j, s);
        TwoAgainstOne(Backtrack(wa, wb, j, s), q);
      } else {
        TiesGoToTwos(wa, wb, j - 1, s, q[..j - 1]);
        TwosLastMore(Backtrack(wa, wb, j - 1, s), q[..j - 1], 1);
      }
    }
  }

  // ----- the shape that is asked for

  /** How many of the numbers are not zero. */
  function Positives(nums: seq<nat>): nat {
    if nums == [] then 0 else Positives(nums[..|nums| - 1]) + if nums[|nums| - 1] > 0 then 1 else 0
  }

  /** The numbers that are not zero count up from 1. */
  ghost predicate CountUp(nums: seq<nat>) {
    forall i | 0 <= i < |nums| && nums[i] > 0 :: nums[i] == Positives(nums[..i]) + 1
  }

  lemma {:induction false} NumberedCount(nums: seq<nat>)
    ensures |Numbered(nums)| == Positives(nums)
  {
    if nums != [] { NumberedCount(nums[..|nums| - 1]); }
  }

  lemma {:induction false} NumberedRank(nums: seq<nat>, k: nat)
    requires k < |Numbered(nums)|
    ensures Numbered(nums)[k] < |nums| && Positives(nums[..Numbered(nums)[k]]) == k
  {
    var n := |nums| - 1;
    if k < |Numbered(nums[..n])| {
      NumberedRank(nums[..n], k);
      assert nums[..n][..Numbered(nums)[k]] == nums[..Numbered(nums)[k]];
    } else {
      NumberedCount(nums[..n]);
    }
  }

  lemma RankOf(nums: seq<nat>, i: nat) returns (k: nat)
    requires i < |nums| && nums[i] > 0
    ensures k < |Numbered(nums)| && Numbered(nums)[k] == i && Positives(nums[..i]) == k
  {
    k :| 0 <= k < |Numbered(nums)| && Numbered(nums)[k] == i;
    NumberedRank(nums, k);
  }

  /** The listing idx is numbered one after the other. */
  ghost predicate ListedInOrder(nums: seq<nat>, idx: seq<nat>) {
    ListsNumbered(nums, idx) && forall k | 0 <= k < |idx| :: nums[idx[k]] == k + 1
  }

  lemma CountUpIsInOrder(nums: seq<nat>)
    requires CountUp(nums)
    ensures ListedInOrder(nums, Numbered(nums))
  {
    var idx := Numbered(nums);
    forall k | 0 <= k < |idx| ensures nums[idx[k]] == k + 1 { NumberedRank(nums, k); }
  }

  lemma InOrderIsCountUp(nums: seq<nat>, i: nat)
    requires ListedInOrder(nums, Numbered(nums)) && i < |nums| && nums[i] > 0
    ensures nums[i] == Positives(nums[..i]) + 1
  {
    var k := RankOf(nums, i);
  }

  /** Their listing is numbered one after the other exactly when they count up. */
  lemma CountsUpExactly(nums: seq<nat>)
    ensures CountUp(nums) <==> ListedInOrder(nums, Numbered(nums))
  {
    if CountUp(nums) { CountUpIsInOrder(nums); }
    if ListedInOrder(nums, Numbered(nums)) {
      forall i | 0 <= i < |nums| && nums[i] > 0 ensures nums[i] == Positives(nums[..i]) + 1 {
        InOrderIsCountUp(nums, i);
      }
    }
  }

  /** Nothing unnumbered stands between two of them. */
  ghost predicate Unbroken(nums: seq<nat>) {
    forall i, j | 0 <= i < |nums| && 0 <= j < |nums| && j == i + 1 && nums[j] > 1 :: nums[i] == nums[j] - 1
  }

  ghost predicate SideBySide(idx: seq<nat>) {
    forall i, j | 0 <= i < |idx| && 0 <= j < |idx| && j == i + 1 :: idx[j] == idx[i] + 1
  }

  lemma UnbrokenIsSideBySide(nums: seq<nat>, idx: seq<nat>, i: nat, j: nat)
    requires ListedInOrder(nums, idx) && Unbroken(nums) && j == i + 1 < |idx|
    ensures idx[j] == idx[i] + 1
  {
    assert idx[i] < idx[j];
    var q, r := idx[j], idx[j] - 1;
    assert nums[q] == j + 1;
    assert nums[r] == j;
    var k :| 0 <= k < |idx| && idx[k] == r;
  }

  lemma SideBySideIsUnbroken(nums: seq<nat>, idx: seq<nat>, i: nat, j: nat)
    requires ListedInOrder(nums, idx) && SideBySide(idx) && j == i + 1 < |nums| && nums[j] > 1
    ensures nums[i] == nums[j] - 1
  {
    var k :| 0 <= k < |idx| && idx[k] == j;
    assert nums[idx[k]] == k + 1 > 1;
    var l := k - 1;
    assert idx[k] == idx[l] + 1 && nums[idx[l]] == l + 1;
  }

  lemma UnbrokenExactly(nums: seq<nat>, idx: seq<nat>)
    requires ListedInOrder(nums, idx)
    ensures Unbroken(nums) <==> SideBySide(idx)
  {
    if Unbroken(nums) {
      forall i, j | 0 <= i < |idx| && 0 <= j < |idx| && j == i + 1 ensures idx[j] == idx[i] + 1 {
        UnbrokenIsSideBySide(nums, idx, i, j);
      }
    }
    if SideBySide(idx) {
      forall i, j | 0 <= i < |nums| && 0 <= j < |nums| && j == i + 1 && nums[j] > 1 ensures nums[i] == nums[j] - 1 {
        SideBySideIsUnbroken(nums, idx, i, j);
      }
    }
  }

  ghost predicate StartsIncrease(book: seq<BookChapter>, nums: seq<nat>)
    requires |book| == |nums|
  {
    forall i, j | 0 <= i < j < |book| && nums[i] > 0 && nums[j] > 0 :: book[i].start < book[j].start
  }

  lemma {:induction false} LaterStarts(book: seq<BookChapter>, idx: seq<nat>, i: nat, j: nat)
    requires i < j < |idx| && forall k | 0 <= k < |idx| :: idx[k] < |book|
    requires forall a, b | 0 <= a < |idx| && 0 <= b < |idx| && b == a + 1 :: book[idx[a]].start < book[idx[b]].start
    ensures book[idx[i]].start < book[idx[j]].start
  {
    if i + 1 < j { LaterStarts(book, idx, i, j - 1); }
  }

  ghost predicate NextStartsLater(book: seq<BookChapter>, idx: seq<nat>)
    requires forall k | 0 <= k < |idx| :: idx[k] < |book|
  {
    forall i, j | 0 <= i < |idx| && 0 <= j < |idx| && j == i + 1 :: book[idx[i]].start < book[idx[j]].start
  }

  lemma StartsIncreaseExactly(book: seq<BookChapter>, nums: seq<nat>, idx: seq<nat>)
    requires |book| == |nums| && ListsNumbered(nums, idx)
    ensures StartsIncrease(book, nums) <==> NextStartsLater(book, idx)
  {
    if NextStartsLater(book, idx) {
      forall i, j | 0 <= i < j < |book| && nums[i] > 0 && nums[j] > 0 ensures book[i].start < book[j].start {
        var k :| 0 <= k < |idx| && idx[k] == i;
        var l :| 0 <= l < |idx| && idx[l] == j;
        LaterStarts(book, idx, k, l);
      }
    }
    if StartsIncrease(book, nums) {
      forall i, j | 0 <= i < |idx| && 0 <= j < |idx| && j == i + 1
        ensures book[idx[i]].start < book[idx[j]].start
      {
        assert idx[i] < idx[j] && nums[idx[i]] > 0 && nums[idx[j]] > 0;
      }
    }
  }

  /** What is asked for: at least ten numbered chapters, up to four more numbered tracks, both counting up from 1, the
      tracks without a break, the chapters valid and in order. */
  ghost predicate RightShape(book: seq<BookChapter>, bookNums: seq<nat>, audio: seq<Chapter>, audioNums: seq<nat>)
    requires |book| == |bookNums| && |audio| == |audioNums|
  {
    && 10 <= Positives(bookNums) < Positives(audioNums) <= Positives(bookNums) + 4
    && CountUp(audioNums) && CountUp(bookNums) && Unbroken(audioNums) && StartsIncrease(book, bookNums)
    && forall i | 0 <= i < |book| && bookNums[i] > 0 :: 0.0 <= book[i].start < book[i].end <= 1.0
  }

  lemma ShapeParts(book: seq<BookChapter>, bookNums: seq<nat>, audio: seq<Chapter>, audioNums: seq<nat>)
    requires |book| == |bookNums| && |audio| == |audioNums|
    ensures var aIdx, bIdx := Numbered(audioNums), Numbered(bookNums);
            SplitShape(book, bookNums, audio, audioNums) <==>
            && 10 <= |bIdx| < |aIdx| <= |bIdx| + 4
            && ListedInOrder(audioNums, aIdx) && SideBySide(aIdx) && ListedInOrder(bookNums, bIdx)
            && (forall j | 0 <= j < |bIdx| :: ValidEntry(book[bIdx[j]]))
            && NextStartsLater(book, bIdx)
  {
  }

  lemma ShapeExactly(book: seq<BookChapter>, bookNums: seq<nat>, audio: seq<Chapter>, audioNums: seq<nat>)
    requires |book| == |bookNums| && |audio| == |audioNums|
    ensures SplitShape(book, bookNums, audio, audioNums) <==> RightShape(book, bookNums, audio, audioNums)
  {
    ShapeParts(book, bookNums, audio, audioNums);
    NumberedCount(bookNums);
    NumberedCount(audioNums);
    CountsUpExactly(bookNums);
    CountsUpExactly(audioNums);
    if CountUp(audioNums) { UnbrokenExactly(audioNums, Numbered(audioNums)); }
    StartsIncreaseExactly(book, bookNums, Numbered(bookNums));
    ValidExactly(book, bookNums, Numbered(bookNums));
  }

  lemma ValidExactly(book: seq<BookChapter>, nums: seq<nat>, idx: seq<nat>)
    requires |book| == |nums| && ListsNumbered(nums, idx)
    ensures (forall i | 0 <= i < |book| && nums[i] > 0 :: 0.0 <= book[i].start < book[i].end <= 1.0)
            <==> forall j | 0 <= j < |idx| :: ValidEntry(book[idx[j]])
  {
    if forall j | 0 <= j < |idx| :: ValidEntry(book[idx[j]]) {
      forall i | 0 <= i < |book| && nums[i] > 0 ensures 0.0 <= book[i].start < book[i].end <= 1.0 {
        var k :| 0 <= k < |idx| && idx[k] == i;
        assert ValidEntry(book[idx[k]]);
      }
    }
  }

  // ----- the answer

  /** The plan is one of those to choose from, none of them is better, and ties go to fewer tracks left out and then to
      splits as late as possible. */
  ghost predicate IsTheChoice(p: Problem, t: nat, plan: Plan)
    requires Indexed(p)
  {
    && Qualifies(p, t, plan)
    && forall u: nat, other: Plan | Qualifies(p, u, other) ::
         && Total(p, t, plan) <= Total(p, u, other)
         && (u < t ==> Total(p, t, plan) < Total(p, u, other))
         && (u == t && Total(p, t, plan) == Total(p, u, other) ==> TwosLast(plan, other))
  }

  /** How the chosen plan compares with another. */
  lemma ChosenIsNotBeaten(p: Problem, t: nat, u: nat, other: Plan)
    requires Indexed(p) && BestTrailing(p, MaxExtra(p) + 1) == Some(t) && Qualifies(p, u, other)
    requires Qualifies(p, t, ChosenPlan(p, t)) && Score(p, t).value == Total(p, t, ChosenPlan(p, t))
    ensures Total(p, t, ChosenPlan(p, t)) <= Total(p, u, other)
    ensures u < t ==> Total(p, t, ChosenPlan(p, t)) < Total(p, u, other)
    ensures u == t && Total(p, t, ChosenPlan(p, t)) == Total(p, u, other) ==> TwosLast(ChosenPlan(p, t), other)
  {
    BestTrailingIsLeast(p, MaxExtra(p) + 1);
    ScoreIsLeast(p, u, other);
    if u == t && Total(p, t, ChosenPlan(p, t)) == Total(p, u, other) {
      assert Score(p, t).value == PlanCost(p, t).value + TailPenalty(p, t);
      TiedPlans(p, t, other);
    }
  }

  lemma ChosenIsTheChoice(p: Problem, t: nat)
    requires Indexed(p) && BestTrailing(p, MaxExtra(p) + 1) == Some(t)
    ensures IsTheChoice(p, t, ChosenPlan(p, t))
  {
    var plan := ChosenPlan(p, t);
    ChosenPlanScores(p, t);
    forall u: nat, other: Plan | Qualifies(p, u, other)
      ensures Total(p, t, plan) <= Total(p, u, other)
      ensures u < t ==> Total(p, t, plan) < Total(p, u, other)
      ensures u == t && Total(p, t, plan) == Total(p, u, other) ==> TwosLast(plan, other)
    {
      ChosenIsNotBeaten(p, t, u, other);
    }
  }

  lemma TiedPlans(p: Problem, t: nat, other: Plan)
    requires Indexed(p) && t <= MaxExtra(p) && Score(p, t).Some? && Qualifies(p, t, other)
    requires Cost(AudioShares(p, t), BookShares(p), other) == PlanCost(p, t).value
    ensures TwosLast(ChosenPlan(p, t), other)
  {
    var wa, wb, j, s := AudioShares(p, t), BookShares(p), |p.bIdx|, MaxExtra(p) - t;
    Attained(wa, wb, j, s);
    TiesGoToTwos(wa, wb, j, s, other);
  }

  /** The mapping of a book against an audiobook cut more finely, in full: none unless the shape is right and some plan
      qualifies, and otherwise the chosen plan's segments, chapter by chapter. */
  lemma SplitAnswer(book: seq<BookChapter>, bookNums: seq<nat>, resources: seq<Resource>, audio: seq<Chapter>,
                    audioNums: seq<nat>, duration: real)
    requires |book| == |bookNums| && |audio| == |audioNums| && ValidAudio(audio, duration)
    ensures var r := SplitMapping(book, bookNums, resources, audio, audioNums, duration);
            var p := ProblemOf(book, bookNums, audio, audioNums, duration);
            if !SplitShape(book, bookNums, audio, audioNums) then r == None
            else
              && Indexed(p)
              && (r.None? ==> forall t: nat, plan: Plan :: !Qualifies(p, t, plan))
              && (r.Some? ==>
                    && r.value == Mapping(duration, r.value.segments, resources, true, true, true, false)
                    && exists t: nat, plan: Plan :: IsTheChoice(p, t, plan) && FollowsPlan(p, plan, r.value.segments))
  {
    if SplitShape(book, bookNums, audio, audioNums) {
      ShapeIsSound(book, bookNums, audio, audioNums, duration);
      var p := ProblemOf(book, bookNums, audio, audioNums, duration);
      ChosenPlanIsOptimal(p);
      var best := BestTrailing(p, MaxExtra(p) + 1);
      if best.Some? {
        var plan := ChosenPlan(p, best.value);
        ChosenPlanFits(p, best.value);
        ChosenIsTheChoice(p, best.value);
        RebuiltFollows(p, plan);
      }
    }
  }

  /** What the problem holds: the numbered chapters and tracks in order. */
  lemma ProblemIs(book: seq<BookChapter>, bookNums: seq<nat>, audio: seq<Chapter>, audioNums: seq<nat>, duration: real)
    requires |book| == |bookNums| && |audio| == |audioNums|
    ensures var p := ProblemOf(book, bookNums, audio, audioNums, duration);
            && p.book == book && p.audio == audio && p.duration == duration
            && (forall i: nat :: i in p.bIdx <==> i < |book| && bookNums[i] > 0)
            && (forall i: nat :: i in p.aIdx <==> i < |audio| && audioNums[i] > 0)
            && (forall j, k | 0 <= j < k < |p.bIdx| :: p.bIdx[j] < p.bIdx[k])
            && (forall j, k | 0 <= j < k < |p.aIdx| :: p.aIdx[j] < p.aIdx[k])
  {
  }
}
