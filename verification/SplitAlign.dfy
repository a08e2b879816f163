/** `alignWithSplits` (internal/audiomap/audiomap.go): a book numbered 1..N against an audiobook numbered 1..M, M > N,
  whose long chapters were cut over two tracks and whose last tracks may be back matter.
*/
module SplitAlign {
  import opened Wrappers
  import opened AudioMap
  import opened SplitPlan

  datatype Chapter = Chapter(title: string, start: real, end: real)

  datatype BookChapter = BookChapter(
    title: string, href: string, fragment: string, start: real, end: real, approx: bool)

  predicate ValidAudio(audio: seq<Chapter>, duration: real) {
    && duration > 0.0
    && (forall i | 0 <= i < |audio| :: 0.0 <= audio[i].start < audio[i].end <= duration + 1.0)
    && (forall i, j | 0 <= i < |audio| && 0 <= j < |audio| && j == i + 1 :: audio[i].end <= audio[j].start)
  }

  predicate ValidEntry(b: BookChapter) { 0.0 <= b.start < b.end <= 1.0 }

  lemma {:induction false} AudioOrdered(audio: seq<Chapter>, duration: real, i: nat, j: nat)
    requires ValidAudio(audio, duration) && i < j < |audio|
    ensures audio[i].end <= audio[j].start
  {
    if i < j - 1 { AudioOrdered(audio, duration, i, j - 1); }
  }

  /** The indices of the numbered entries, in order. */
  function Numbered(nums: seq<nat>): (r: seq<nat>)
    ensures ListsNumbered(nums, r)
  {
    if nums == [] then []
    else
      var n := |nums| - 1;
      var before := Numbered(nums[..n]);
      OneMoreNumber(nums, before);
      before + if nums[n] > 0 then [n] else []
  }

  ghost predicate ListsNumbered(nums: seq<nat>, r: seq<nat>) {
    && (forall k | 0 <= k < |r| :: r[k] < |nums| && nums[r[k]] > 0)
    && (forall i | 0 <= i < |nums| && nums[i] > 0 :: i in r)
    && (forall i, k | 0 <= i < k < |r| :: r[i] < r[k])
  }

  lemma OneMoreNumber(nums: seq<nat>, before: seq<nat>)
    requires nums != [] && ListsNumbered(nums[..|nums| - 1], before)
    ensures ListsNumbered(nums, before + if nums[|nums| - 1] > 0 then [|nums| - 1] else [])
  {
    var n := |nums| - 1;
    var r := before + if nums[n] > 0 then [n] else [];
    forall k | 0 <= k < |r| ensures r[k] < |nums| && nums[r[k]] > 0 {
      if k < |before| { assert before[k] < n && nums[..n][before[k]] > 0; }
    }
    forall i | 0 <= i < |nums| && nums[i] > 0 ensures i in r {
      if i < n { assert nums[..n][i] > 0; }
    }
  }

  /** Everything the code looks at before it starts planning. */
  predicate SplitShape(book: seq<BookChapter>, bookNums: seq<nat>, audio: seq<Chapter>, audioNums: seq<nat>)
    requires |book| == |bookNums| && |audio| == |audioNums|
  {
    var aIdx, bIdx := Numbered(audioNums), Numbered(bookNums);
    && |bIdx| >= 10 && |bIdx| < |aIdx| <= |bIdx| + 4
    && (forall i | 0 <= i < |aIdx| :: audioNums[aIdx[i]] == i + 1)
    && (forall i, j | 0 <= i < |aIdx| && 0 <= j < |aIdx| && j == i + 1 :: aIdx[j] == aIdx[i] + 1)
    && (forall j | 0 <= j < |bIdx| :: bookNums[bIdx[j]] == j + 1 && ValidEntry(book[bIdx[j]]))
    && (forall i, j | 0 <= i < |bIdx| && 0 <= j < |bIdx| && j == i + 1 :: book[bIdx[i]].start < book[bIdx[j]].start)
  }

  /** Each entry's part of the total. */
  function Normalize(lens: seq<real>): seq<real>
    requires Sum(lens) > 0.0
  {
    seq(|lens|, i requires 0 <= i < |lens| => lens[i] / Sum(lens))
  }

  function AudioLengths(audio: seq<Chapter>, idx: seq<nat>): (w: seq<real>)
    requires forall k | 0 <= k < |idx| :: idx[k] < |audio|
  {
    seq(|idx|, k requires 0 <= k < |idx| => audio[idx[k]].end - audio[idx[k]].start)
  }

  function BookLengths(book: seq<BookChapter>, idx: seq<nat>): (w: seq<real>)
    requires forall k | 0 <= k < |idx| :: idx[k] < |book|
  {
    seq(|idx|, k requires 0 <= k < |idx| => book[idx[k]].end - book[idx[k]].start)
  }

  lemma {:induction false} SumPositive(w: seq<real>)
    requires w != [] && forall i | 0 <= i < |w| :: w[i] > 0.0
    ensures Sum(w) > 0.0
  {
    if |w| > 1 { SumPositive(w[..|w| - 1]); } else { assert w[..0] == []; }
  }

  lemma {:induction false} SumScaled(w: seq<real>, v: seq<real>, c: real)
    requires c > 0.0 && |v| == |w| && forall i | 0 <= i < |w| :: v[i] == w[i] / c
    ensures Sum(v) == Sum(w) / c
  {
    if w != [] {
      SumScaled(w[..|w| - 1], v[..|v| - 1], c);
    }
  }

  lemma NormalizeIsShares(w: seq<real>)
    requires w != [] && forall i | 0 <= i < |w| :: w[i] > 0.0
    ensures Sum(w) > 0.0 && Shares(Normalize(w))
  {
    SumPositive(w);
    ScaledIsShares(w, Normalize(w), Sum(w));
  }

  lemma ScaledIsShares(w: seq<real>, v: seq<real>, c: real)
    requires c > 0.0 && c == Sum(w) && |v| == |w|
    requires forall i | 0 <= i < |w| :: w[i] > 0.0 && v[i] == w[i] / c
    ensures Shares(v)
  {
    SumScaled(w, v, c);
    Quotients(c, c);
    forall i | 0 <= i < |v|
      ensures v[i] >= 0.0
    {
      Quotients(w[i], c);
    }
  }

  lemma Quotients(a: real, b: real)
    requires a > 0.0 && b > 0.0
    ensures a / b > 0.0 && (a == b ==> a / b == 1.0)
  {
  }

  // ----- choosing how many last tracks are back matter

  /** One aligned problem: the inputs `alignWithSplits` works on once their shape is accepted. */
  datatype Problem = Problem(
    book: seq<BookChapter>, bIdx: seq<nat>, audio: seq<Chapter>, aIdx: seq<nat>, duration: real)

  ghost predicate Sound(p: Problem) {
    && ValidAudio(p.audio, p.duration)
    && 10 <= |p.bIdx| < |p.aIdx| <= |p.bIdx| + 4
    && (forall i | 0 <= i < |p.aIdx| :: p.aIdx[i] < |p.audio|)
    && (forall i, j | 0 <= i < |p.aIdx| && 0 <= j < |p.aIdx| && j == i + 1 :: p.aIdx[j] == p.aIdx[i] + 1)
    && (forall j | 0 <= j < |p.bIdx| :: p.bIdx[j] < |p.book| && ValidEntry(p.book[p.bIdx[j]]))
    && (forall i, j | 0 <= i < |p.bIdx| && 0 <= j < |p.bIdx| && j == i + 1 ::
         p.book[p.bIdx[i]].start < p.book[p.bIdx[j]].start)
  }

  /** The parts of Sound the total functions below need in order to be defined at all. */
  predicate Indexed(p: Problem) {
    && 0 < |p.bIdx| < |p.aIdx| && p.duration > 0.0
    && (forall i | 0 <= i < |p.aIdx| :: p.aIdx[i] < |p.audio| && p.audio[p.aIdx[i]].start < p.audio[p.aIdx[i]].end)
    && (forall j | 0 <= j < |p.bIdx| :: p.bIdx[j] < |p.book| && p.book[p.bIdx[j]].start < p.book[p.bIdx[j]].end)
  }

  function MaxExtra(p: Problem): int { |p.aIdx| - |p.bIdx| }

  function BackMatterShare(p: Problem): real
    requires Indexed(p)
  {
    Max(0.0, 1.0 - p.book[p.bIdx[|p.bIdx| - 1]].end)
  }

  function TailShare(p: Problem, trailing: nat): real
    requires Indexed(p) && 0 < trailing <= MaxExtra(p)
  {
    (p.audio[p.aIdx[|p.aIdx| - 1]].end - p.audio[p.aIdx[|p.aIdx| - trailing]].start) / p.duration
  }

  function MaxTailShare(p: Problem): real
    requires Indexed(p)
  {
    if p.bIdx[|p.bIdx| - 1] >= |p.book| - 1 && BackMatterShare(p) < 0.005 then 0.025 else BackMatterShare(p) + 0.03
  }

  predicate TailEligible(p: Problem, trailing: nat)
    requires Indexed(p) && trailing <= MaxExtra(p)
  {
    trailing == 0 || TailShare(p, trailing) <= MaxTailShare(p)
  }

  function TailPenalty(p: Problem, trailing: nat): real
    requires Indexed(p) && trailing <= MaxExtra(p)
  {
    if trailing == 0 then 0.0 else Abs(TailShare(p, trailing) - BackMatterShare(p)) * 0.5
  }

  function AudioShares(p: Problem, trailing: nat): (wa: seq<real>)
    requires Indexed(p) && trailing <= MaxExtra(p)
    ensures |wa| == |p.aIdx| - trailing && Shares(wa)
  {
    var lens := AudioLengths(p.audio, p.aIdx[..|p.aIdx| - trailing]);
    NormalizeIsShares(lens);
    Normalize(lens)
  }

  function BookShares(p: Problem): (wb: seq<real>)
    requires Indexed(p)
    ensures |wb| == |p.bIdx| && Shares(wb)
  {
    NormalizeIsShares(BookLengths(p.book, p.bIdx));
    Normalize(BookLengths(p.book, p.bIdx))
  }

  /** The cheapest plan's cost when the last `trailing` tracks are left out. */
  function PlanCost(p: Problem, trailing: nat): Option<real>
    requires Indexed(p) && trailing <= MaxExtra(p)
  {
    Opt(AudioShares(p, trailing), BookShares(p), |p.bIdx|, MaxExtra(p) - trailing)
  }

  const COST_LIMIT: real := 0.25

  function Score(p: Problem, trailing: nat): Option<real>
    requires Indexed(p) && trailing <= MaxExtra(p)
  {
    if !TailEligible(p, trailing) then None
    else
      match PlanCost(p, trailing)
      case None => None
      case Some(c) => if c > COST_LIMIT then None else Some(c + TailPenalty(p, trailing))
  }

  /** The first of the numbers below n with the least score. */
  function FirstLeast(score: nat -> Option<real>, n: nat): (r: Option<nat>)
    ensures r.Some? ==> r.value < n && score(r.value).Some?
  {
    if n == 0 then None
    else
      var best := FirstLeast(score, n - 1);
      if score(n - 1).Some? && (best.None? || score(n - 1).value < score(best.value).value) then Some(n - 1) else best
  }

  lemma {:induction false} FirstLeastIsLeast(score: nat -> Option<real>, n: nat)
    ensures var r := FirstLeast(score, n);
            && (r.None? ==> forall t: nat | t < n :: score(t).None?)
            && (r.Some? ==> forall t: nat | t < n && score(t).Some? ::
                  score(r.value).value <= score(t).value && (t < r.value ==> score(r.value).value < score(t).value))
  {
    if n > 0 { FirstLeastIsLeast(score, n - 1); }
  }

  /** Score, for any number whatever. */
  function Scoring(p: Problem): nat -> Option<real> {
    (t: nat) => if Indexed(p) && t <= MaxExtra(p) then Score(p, t) else None
  }

  /** The first of the trailing counts below n with the least score. */
  function BestTrailing(p: Problem, n: nat): (r: Option<nat>)
    requires Indexed(p) && n <= MaxExtra(p) + 1
    ensures r.Some? ==> r.value < n && Score(p, r.value).Some?
  {
    FirstLeast(Scoring(p), n)
  }

  lemma BestTrailingIsLeast(p: Problem, n: nat)
    requires Indexed(p) && n <= MaxExtra(p) + 1
    ensures var r := BestTrailing(p, n);
            && (r.None? ==> forall t: nat | t < n :: Score(p, t).None?)
            && (r.Some? ==> forall t: nat | t < n && Score(p, t).Some? ::
                  Score(p, r.value).value <= Score(p, t).value
                  && (t < r.value ==> Score(p, r.value).value < Score(p, t).value))
  {
    FirstLeastIsLeast(Scoring(p), n);
    assert forall t: nat | t < n :: Scoring(p)(t) == Score(p, t);
  }

  function ChosenPlan(p: Problem, trailing: nat): (plan: Plan)
    requires Indexed(p) && trailing <= MaxExtra(p) && PlanCost(p, trailing).Some?
  {
    Backtrack(AudioShares(p, trailing), BookShares(p), |p.bIdx|, MaxExtra(p) - trailing)
  }

  ghost predicate FeasiblePlan(p: Problem, trailing: nat, plan: Plan)
    requires Indexed(p) && trailing <= MaxExtra(p)
  {
    && |plan| == |p.bIdx| && Tracks(plan) == |p.aIdx| - trailing
    && Feasible(AudioShares(p, trailing), BookShares(p), plan)
  }

  /** A plan the code may take: an eligible trailing count, a feasible plan for it, a cost within the limit. */
  ghost predicate Qualifies(p: Problem, t: nat, plan: Plan)
    requires Indexed(p)
  {
    && t <= MaxExtra(p) && TailEligible(p, t) && FeasiblePlan(p, t, plan)
    && Cost(AudioShares(p, t), BookShares(p), plan) <= COST_LIMIT
  }

  /** What is minimised: cost plus tail penalty. */
  ghost function Total(p: Problem, t: nat, plan: Plan): real
    requires Indexed(p) && t <= MaxExtra(p) && FeasiblePlan(p, t, plan)
  {
    Cost(AudioShares(p, t), BookShares(p), plan) + TailPenalty(p, t)
  }

  /** The plan taken qualifies, and no plan that qualifies has a smaller total; one is taken whenever some plan
      qualifies. */
  lemma ChosenPlanIsOptimal(p: Problem)
    requires Indexed(p)
    ensures var r := BestTrailing(p, MaxExtra(p) + 1);
            && (r.Some? ==> Qualifies(p, r.value, ChosenPlan(p, r.value)))
            && forall t, plan | Qualifies(p, t, plan) ::
                 r.Some? && Total(p, r.value, ChosenPlan(p, r.value)) <= Total(p, t, plan)
  {
    var r := BestTrailing(p, MaxExtra(p) + 1);
    if r.Some? { ChosenPlanScores(p, r.value); }
    forall t, plan | Qualifies(p, t, plan) ensures r.Some? && Score(p, r.value).value <= Total(p, t, plan) {
      ChosenIsNoWorse(p, t, plan);
    }
  }

  lemma ChosenIsNoWorse(p: Problem, t: nat, plan: Plan)
    requires Indexed(p) && Qualifies(p, t, plan)
    ensures var r := BestTrailing(p, MaxExtra(p) + 1); r.Some? && Score(p, r.value).value <= Total(p, t, plan)
  {
    BestTrailingIsLeast(p, MaxExtra(p) + 1);
    ScoreIsLeast(p, t, plan);
  }

  lemma ChosenPlanScores(p: Problem, t: nat)
    requires Indexed(p) && t <= MaxExtra(p) && Score(p, t).Some?
    ensures Qualifies(p, t, ChosenPlan(p, t)) && Score(p, t).value == Total(p, t, ChosenPlan(p, t))
  {
    Attained(AudioShares(p, t), BookShares(p), |p.bIdx|, MaxExtra(p) - t);
  }

  lemma ScoreIsLeast(p: Problem, t: nat, plan: Plan)
    requires Indexed(p) && Qualifies(p, t, plan)
    ensures Score(p, t).Some? && Score(p, t).value <= Total(p, t, plan)
  {
    LowerBound(AudioShares(p, t), BookShares(p), plan);
  }

  // ----- turning a plan into segments

  ghost predicate Steps(plan: Plan) { forall j | 0 <= j < |plan| :: plan[j] == 1 || plan[j] == 2 }

  lemma {:induction false} FeasibleSteps(wa: seq<real>, wb: seq<real>, plan: Plan)
    requires Feasible(wa, wb, plan)
    ensures Steps(plan)
  {
    if plan != [] { FeasibleSteps(wa, wb, plan[..|plan| - 1]); }
  }

  /** Later chapters still have at least one track each. */
  lemma {:induction false} TracksGrow(plan: Plan, j: nat, k: nat)
    requires Steps(plan) && j <= k <= |plan|
    ensures 0 <= Tracks(plan[..j]) && Tracks(plan[..j]) + (k - j) <= Tracks(plan[..k])
    decreases k
  {
    if k > 0 {
      assert plan[..k][..k - 1] == plan[..k - 1];
      if j < k { TracksGrow(plan, j, k - 1); } else { TracksGrow(plan, k - 1, k - 1); }
    }
  }

  /** Where chapter j's stretch of the book ends. */
  function NextBookStart(p: Problem, j: nat): real
    requires Indexed(p) && j < |p.bIdx|
  {
    if j + 1 < |p.bIdx| then p.book[p.bIdx[j + 1]].start else p.book[p.bIdx[j]].end
  }

  /** Where chapter j's audio ends, its last track being number `last` among the numbered ones. */
  function NextAudioStart(p: Problem, j: nat, last: nat): real
    requires Indexed(p) && j < |p.bIdx| && last < |p.aIdx|
    requires j + 1 < |p.bIdx| ==> last + 1 < |p.aIdx|
  {
    if j + 1 < |p.bIdx| then p.audio[p.aIdx[last + 1]].start else p.audio[p.aIdx[last]].end
  }

  /** The one or two segments of chapter j, its first track being number `ai`. */
  function ChapterSegments(p: Problem, j: nat, ai: nat, count: int): seq<Segment>
    requires Sound(p) && Indexed(p) && j < |p.bIdx|
    requires count == 1 || count == 2
    requires ai + count <= |p.aIdx| && (j + 1 < |p.bIdx| ==> ai + count < |p.aIdx|)
  {
    var b, bEnd := p.book[p.bIdx[j]], NextBookStart(p, j);
    if count == 1 then
      var a := p.audio[p.aIdx[ai]];
      [Segment(a.title, b.title, a.start, NextAudioStart(p, j, ai), b.start, bEnd, b.href, b.fragment, b.approx)]
    else
      var a1, a2, aEnd := p.audio[p.aIdx[ai]], p.audio[p.aIdx[ai + 1]], NextAudioStart(p, j, ai + 1);
      TrackBeforeNext(p, ai);
      TrackBeforeNext(p, ai + 1);
      CutChapter(b, bEnd, a1, a2, aEnd, CutAt(a1.end - a1.start, aEnd - a2.start, b.start, bEnd))
  }

  /** Where the book is cut between two tracks: in proportion to their lengths. */
  function CutAt(d1: real, d2: real, lo: real, hi: real): real
    requires d1 > 0.0 && d2 > 0.0
  {
    lo + (d1 / (d1 + d2)) * (hi - lo)
  }

  /** The two segments of a chapter cut at `mid`. */
  function CutChapter(b: BookChapter, bEnd: real, a1: Chapter, a2: Chapter, aEnd: real, mid: real): seq<Segment> {
    [ Segment(a1.title, b.title, a1.start, a2.start, b.start, mid, b.href, b.fragment, true),
      Segment(a2.title, b.title, a2.start, aEnd, mid, bEnd, b.href, "", true) ]
  }

  /** A plan whose steps fit the tracks: what makes every index of the rebuilding loop safe. */
  ghost predicate Fits(p: Problem, plan: Plan) {
    Sound(p) && Indexed(p) && Steps(plan) && |plan| == |p.bIdx| && Tracks(plan) <= |p.aIdx|
  }

  lemma FitsAt(p: Problem, plan: Plan, j: nat)
    requires Fits(p, plan) && j < |plan|
    ensures var ai := Tracks(plan[..j]);
            && 0 <= ai && Tracks(plan[..j + 1]) == ai + plan[j]
            && ai + plan[j] <= |p.aIdx| && (j + 1 < |p.bIdx| ==> ai + plan[j] < |p.aIdx|)
  {
    assert plan[..j + 1][..j] == plan[..j] && plan[..|plan|] == plan;
    TracksGrow(plan, j, j);
    TracksGrow(plan, j + 1, |plan|);
  }

  /** The segments of the first j chapters. */
  ghost function Rebuilt(p: Problem, plan: Plan, j: nat): seq<Segment>
    requires Fits(p, plan) && j <= |plan|
  {
    if j == 0 then []
    else
      FitsAt(p, plan, j - 1);
      Rebuilt(p, plan, j - 1) + ChapterSegments(p, j - 1, Tracks(plan[..j - 1]), plan[j - 1])
  }

  /** The reconstruction loop, with its cursor over the numbered tracks. */
  method Rebuild(p: Problem, plan: Plan) returns (segments: seq<Segment>)
    requires Fits(p, plan)
    ensures segments == Rebuilt(p, plan, |plan|)
  {
    segments := [];
    var ai := 0;
    for j := 0 to |plan|
      invariant ai == Tracks(plan[..j])
      invariant segments == Rebuilt(p, plan, j)
    {
      FitsAt(p, plan, j);
      segments := segments + ChapterSegments(p, j, ai, plan[j]);
      ai := ai + plan[j];
    }
  }

  /** Positive width on both axes, each segment ending exactly where the next begins. */
  ghost predicate Chain(segs: seq<Segment>) {
    && (forall x: Axis, i | 0 <= i < |segs| :: Lo(segs[i], x) < Hi(segs[i], x))
    && (forall x: Axis, i, j | 0 <= i < j < |segs| && j == i + 1 :: Hi(segs[i], x) == Lo(segs[j], x))
  }

  lemma ChainJoins(s: seq<Segment>, t: seq<Segment>)
    requires Chain(s) && Chain(t)
    requires s != [] && t != [] ==> forall x: Axis :: Hi(s[|s| - 1], x) == Lo(t[0], x)
    ensures Chain(s + t)
  {
    var u := s + t;
    forall x: Axis, i | 0 <= i < |u| - 1
      ensures Hi(u[i], x) == Lo(u[i + 1], x)
    {
      if i + 1 < |s| {
        assert Hi(s[i], x) == Lo(s[i + 1], x);
      } else if i >= |s| {
        assert Hi(t[i - |s|], x) == Lo(t[i - |s| + 1], x);
      }
    }
  }

  /** One chapter's segments run from its own start to the next chapter's, cut strictly inside when there are two. */
  lemma ChapterChain(p: Problem, j: nat, ai: nat, count: int)
    requires Sound(p) && Indexed(p) && j < |p.bIdx|
    requires count == 1 || count == 2
    requires ai + count <= |p.aIdx| && (j + 1 < |p.bIdx| ==> ai + count < |p.aIdx|)
    ensures var c := ChapterSegments(p, j, ai, count);
            && Chain(c) && c != []
            && c[0].audioStart == p.audio[p.aIdx[ai]].start && c[0].bookStart == p.book[p.bIdx[j]].start
            && c[|c| - 1].audioEnd == NextAudioStart(p, j, ai + count - 1)
            && c[|c| - 1].bookEnd == NextBookStart(p, j)
  {
    EntryBeforeNext(p, j);
    TrackBeforeNext(p, ai);
    if count == 2 { TwoTrackChain(p, j, ai); }
  }

  lemma EntryBeforeNext(p: Problem, j: nat)
    requires Sound(p) && j < |p.bIdx|
    ensures p.book[p.bIdx[j]].start < NextBookStart(p, j)
  {
  }

  lemma TwoTrackChain(p: Problem, j: nat, ai: nat)
    requires Sound(p) && Indexed(p) && j < |p.bIdx|
    requires ai + 2 <= |p.aIdx| && (j + 1 < |p.bIdx| ==> ai + 2 < |p.aIdx|)
    ensures Chain(ChapterSegments(p, j, ai, 2))
  {
    EntryBeforeNext(p, j);
    TrackBeforeNext(p, ai);
    TrackBeforeNext(p, ai + 1);
    var b, bEnd := p.book[p.bIdx[j]], NextBookStart(p, j);
    var a1, a2, aEnd := p.audio[p.aIdx[ai]], p.audio[p.aIdx[ai + 1]], NextAudioStart(p, j, ai + 1);
    InsideCut(a1.end - a1.start, aEnd - a2.start, b.start, bEnd);
    CutIsChain(b, bEnd, a1, a2, aEnd, CutAt(a1.end - a1.start, aEnd - a2.start, b.start, bEnd));
  }

  lemma CutIsChain(b: BookChapter, bEnd: real, a1: Chapter, a2: Chapter, aEnd: real, mid: real)
    requires a1.start < a2.start < aEnd && b.start < mid < bEnd
    ensures Chain(CutChapter(b, bEnd, a1, a2, aEnd, mid))
  {
  }

  lemma TrackBeforeNext(p: Problem, k: nat)
    requires Sound(p) && k < |p.aIdx|
    ensures p.audio[p.aIdx[k]].start < p.audio[p.aIdx[k]].end
    ensures k + 1 < |p.aIdx| ==> p.audio[p.aIdx[k]].end <= p.audio[p.aIdx[k + 1]].start
  {
    if k + 1 < |p.aIdx| {
      assert p.aIdx[k + 1] == p.aIdx[k] + 1;
      AudioOrdered(p.audio, p.duration, p.aIdx[k], p.aIdx[k + 1]);
    }
  }

  lemma InsideCut(d1: real, d2: real, lo: real, hi: real)
    requires d1 > 0.0 && d2 > 0.0 && lo < hi
    ensures lo < CutAt(d1, d2, lo, hi) < hi
  {
    var q := d1 / (d1 + d2);
    assert 0.0 < q;
    assert q * (d1 + d2) == d1;
    assert q < 1.0;
    assert 0.0 < q * (hi - lo);
    assert 0.0 < (1.0 - q) * (hi - lo);
  }

  /** What holds of the segments s of the first j chapters. */
  ghost predicate ReachesChapter(p: Problem, plan: Plan, j: nat, s: seq<Segment>)
    requires Fits(p, plan) && 0 < j <= |plan|
  {
    var used := Tracks(plan[..j]);
    && Chain(s) && s != []
    && 0 < used <= |p.aIdx| && (j < |p.bIdx| ==> used < |p.aIdx|)
    && s[0].audioStart == p.audio[p.aIdx[0]].start && s[0].bookStart == p.book[p.bIdx[0]].start
    && s[|s| - 1].audioEnd == NextAudioStart(p, j - 1, used - 1)
    && s[|s| - 1].bookEnd == NextBookStart(p, j - 1)
  }

  lemma NextChapter(p: Problem, plan: Plan, j: nat, s: seq<Segment>)
    requires Fits(p, plan) && 0 < j < |plan| && ReachesChapter(p, plan, j, s)
    ensures 0 <= Tracks(plan[..j]) && Tracks(plan[..j]) + plan[j] <= |p.aIdx|
    ensures j + 1 < |p.bIdx| ==> Tracks(plan[..j]) + plan[j] < |p.aIdx|
    ensures ReachesChapter(p, plan, j + 1, s + ChapterSegments(p, j, Tracks(plan[..j]), plan[j]))
  {
    FitsAt(p, plan, j);
    var ai := Tracks(plan[..j]);
    ChapterChain(p, j, ai, plan[j]);
    var c := ChapterSegments(p, j, ai, plan[j]);
    forall x: Axis ensures Hi(s[|s| - 1], x) == Lo(c[0], x) {
      assert x.Audio? || x.Book?;
    }
    ChainJoins(s, c);
  }

  lemma FirstChapter(p: Problem, plan: Plan)
    requires Fits(p, plan) && |plan| > 0
    ensures ReachesChapter(p, plan, 1, Rebuilt(p, plan, 1))
  {
    FitsAt(p, plan, 0);
    assert plan[..0] == [];
    ChapterChain(p, 0, 0, plan[0]);
    assert Rebuilt(p, plan, 1) == ChapterSegments(p, 0, 0, plan[0]);
  }

  lemma {:induction false} RebuiltChain(p: Problem, plan: Plan, j: nat)
    requires Fits(p, plan) && 0 < j <= |plan|
    ensures ReachesChapter(p, plan, j, Rebuilt(p, plan, j))
  {
    if j == 1 {
      FirstChapter(p, plan);
    } else {
      RebuiltChain(p, plan, j - 1);
      NextChapter(p, plan, j - 1, Rebuilt(p, plan, j - 1));
    }
  }

  /** The mapping a plan is turned into. */
  ghost function PlanMapping(p: Problem, resources: seq<Resource>, plan: Plan): Mapping
    requires Fits(p, plan)
  {
    Mapping(p.duration, Rebuilt(p, plan, |plan|), resources, true, true, true, false)
  }

  lemma PlanMappingIsWellFormed(p: Problem, resources: seq<Resource>, plan: Plan)
    requires Fits(p, plan)
    ensures WellFormed(PlanMapping(p, resources, plan))
  {
    RebuiltChain(p, plan, |plan|);
    var k := Tracks(plan[..|plan|]) - 1;
    assert p.aIdx[0] < |p.audio| && p.aIdx[k] < |p.audio|;
    assert ValidEntry(p.book[p.bIdx[0]]) && ValidEntry(p.book[p.bIdx[|p.bIdx| - 1]]);
  }

  // ----- the whole function

  function ProblemOf(book: seq<BookChapter>, bookNums: seq<nat>, audio: seq<Chapter>, audioNums: seq<nat>,
                     duration: real): Problem {
    Problem(book, Numbered(bookNums), audio, Numbered(audioNums), duration)
  }

  lemma ShapeIsSound(book: seq<BookChapter>, bookNums: seq<nat>, audio: seq<Chapter>, audioNums: seq<nat>,
                     duration: real)
    requires |book| == |bookNums| && |audio| == |audioNums| && ValidAudio(audio, duration)
    requires SplitShape(book, bookNums, audio, audioNums)
    ensures var p := ProblemOf(book, bookNums, audio, audioNums, duration); Sound(p) && Indexed(p)
  {
  }

  lemma ChosenPlanFits(p: Problem, trailing: nat)
    requires Sound(p) && Indexed(p) && trailing <= MaxExtra(p) && PlanCost(p, trailing).Some?
    ensures Fits(p, ChosenPlan(p, trailing))
  {
    var wa, wb := AudioShares(p, trailing), BookShares(p);
    Attained(wa, wb, |p.bIdx|, MaxExtra(p) - trailing);
    FeasibleSteps(wa, wb, ChosenPlan(p, trailing));
  }

  ghost function SplitMapping(book: seq<BookChapter>, bookNums: seq<nat>, resources: seq<Resource>,
                              audio: seq<Chapter>, audioNums: seq<nat>, duration: real): Option<Mapping>
    requires |book| == |bookNums| && |audio| == |audioNums| && ValidAudio(audio, duration)
  {
    if !SplitShape(book, bookNums, audio, audioNums) then None
    else
      ShapeIsSound(book, bookNums, audio, audioNums, duration);
      var p := ProblemOf(book, bookNums, audio, audioNums, duration);
      match BestTrailing(p, MaxExtra(p) + 1)
      case None => None
      case Some(t) => ChosenPlanFits(p, t); Some(PlanMapping(p, resources, ChosenPlan(p, t)))
  }

  lemma SplitMappingIsWellFormed(book: seq<BookChapter>, bookNums: seq<nat>, resources: seq<Resource>,
                                 audio: seq<Chapter>, audioNums: seq<nat>, duration: real)
    requires |book| == |bookNums| && |audio| == |audioNums| && ValidAudio(audio, duration)
    ensures var r := SplitMapping(book, bookNums, resources, audio, audioNums, duration);
            r.Some? ==> WellFormed(r.value) && r.value.fullNarrative && r.value.coversFirst && r.value.coversLast
  {
    if SplitShape(book, bookNums, audio, audioNums) {
      ShapeIsSound(book, bookNums, audio, audioNums, duration);
      var p := ProblemOf(book, bookNums, audio, audioNums, duration);
      var t := BestTrailing(p, MaxExtra(p) + 1);
      if t.Some? {
        ChosenPlanFits(p, t.value);
        PlanMappingIsWellFormed(p, resources, ChosenPlan(p, t.value));
      }
    }
  }

  /** The two loops that turn lengths into shares of their total. */
  method ComputeShares(lens: seq<real>) returns (w: seq<real>)
    requires lens != [] && forall i | 0 <= i < |lens| :: lens[i] > 0.0
    ensures Sum(lens) > 0.0 && w == Normalize(lens)
  {
    NormalizeIsShares(lens);
    var total := 0.0;
    for i := 0 to |lens|
      invariant total == Sum(lens[..i])
    {
      assert lens[..i + 1][..i] == lens[..i];
      total := total + lens[i];
    }
    assert lens[..|lens|] == lens;
    w := [];
    for i := 0 to |lens|
      invariant |w| == i && forall k | 0 <= k < i :: w[k] == lens[k] / Sum(lens)
    {
      w := w + [lens[i] / total];
    }
  }

  method AlignWithSplits(book: seq<BookChapter>, bookNums: seq<nat>, resources: seq<Resource>,
                         audio: seq<Chapter>, audioNums: seq<nat>, duration: real) returns (r: Option<Mapping>)
    requires |book| == |bookNums| && |audio| == |audioNums| && ValidAudio(audio, duration)
    ensures r == SplitMapping(book, bookNums, resources, audio, audioNums, duration)
  {
    if !SplitShape(book, bookNums, audio, audioNums) {
      return None;
    }
    ShapeIsSound(book, bookNums, audio, audioNums, duration);
    var p := ProblemOf(book, bookNums, audio, audioNums, duration);
    var best := ChooseTrailing(p);
    if best.None? {
      return None;
    }
    ChosenPlanFits(p, best.value.1);
    var segments := Rebuild(p, best.value.0);
    r := Some(Mapping(duration, segments, resources, true, true, true, false));
  }

  /** One round of the loop over trailing counts: its score when it qualifies, and its plan. */
  method ScoreTrailing(p: Problem, wb: seq<real>, trailing: nat) returns (score: Option<real>, plan: Plan)
    requires Sound(p) && Indexed(p) && trailing <= MaxExtra(p) && wb == BookShares(p)
    ensures score == Score(p, trailing)
    ensures score.Some? ==> plan == ChosenPlan(p, trailing)
  {
    plan := [];
    if !TailEligible(p, trailing) {
      return None, plan;
    }
    var wa := TrackShares(p, trailing);
    var cost;
    cost, plan := PlanFor(p, wa, wb, trailing);
    if cost >= INF || cost > COST_LIMIT {
      return None, plan;
    }
    score := Some(cost + TailPenalty(p, trailing));
  }

  method TrackShares(p: Problem, trailing: nat) returns (wa: seq<real>)
    requires Indexed(p) && trailing <= MaxExtra(p)
    ensures wa == AudioShares(p, trailing)
  {
    wa := ComputeShares(AudioLengths(p.audio, p.aIdx[..|p.aIdx| - trailing]));
  }

  method PlanFor(p: Problem, wa: seq<real>, wb: seq<real>, trailing: nat) returns (cost: real, plan: Plan)
    requires Indexed(p) && trailing <= MaxExtra(p) && wa == AudioShares(p, trailing) && wb == BookShares(p)
    ensures cost == Encoded(PlanCost(p, trailing)) && (cost < INF <==> PlanCost(p, trailing).Some?)
    ensures cost < INF ==> plan == ChosenPlan(p, trailing)
  {
    cost, plan := BestPlan(wa, wb);
  }

  /** The loop over trailing counts: keeps the first plan with the least score. */
  method ChooseTrailing(p: Problem) returns (best: Option<(Plan, nat)>)
    requires Sound(p) && Indexed(p)
    ensures best.Some? <==> BestTrailing(p, MaxExtra(p) + 1).Some?
    ensures best.Some? ==> BestTrailing(p, MaxExtra(p) + 1) == Some(best.value.1)
    ensures best.Some? ==> best.value.0 == ChosenPlan(p, best.value.1)
  {
    best := None;
    var bestScore := 0.0;
    var wb := ComputeShares(BookLengths(p.book, p.bIdx));
    for trailing := 0 to MaxExtra(p) + 1
      invariant best.Some? <==> BestTrailing(p, trailing).Some?
      invariant best.Some? ==> BestTrailing(p, trailing) == Some(best.value.1)
      invariant best.Some? ==> best.value.0 == ChosenPlan(p, best.value.1) && bestScore == Score(p, best.value.1).value
    {
      var score, plan := ScoreTrailing(p, wb, trailing);
      if score.Some? && (best.None? || score.value < bestScore) {
        bestScore := score.value;
        best := Some((plan, trailing));
      }
    }
  }
}
