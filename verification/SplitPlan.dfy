/** The dynamic program of `alignWithSplits` (internal/audiomap/audiomap.go): how many audio tracks,
  one or two, each book chapter takes, given each track's share of the audio and each chapter's share of the book.
*/
module SplitPlan {
  import opened Wrappers
  import opened AudioMap

  // ----- what is being minimised

  /** One entry per book chapter: the number of tracks it takes. */
  type Plan = seq<int>

  function Sum(w: seq<real>): real {
    if w == [] then 0.0 else Sum(w[..|w| - 1]) + w[|w| - 1]
  }

  function Tracks(plan: Plan): int {
    if plan == [] then 0 else Tracks(plan[..|plan| - 1]) + plan[|plan| - 1]
  }

  function OneError(wa: seq<real>, wb: seq<real>, i: nat, j: nat): real
    requires i < |wa| && j < |wb|
  {
    Abs(wa[i] - wb[j])
  }

  function TwoError(wa: seq<real>, wb: seq<real>, i: nat, j: nat): real
    requires i + 1 < |wa| && j < |wb|
  {
    Abs(wa[i] + wa[i + 1] - wb[j])
  }

  /** A chapter may take two tracks only when both are clearly short of it and together fit much better. */
  predicate SplitAllowed(wa: seq<real>, wb: seq<real>, i: nat, j: nat)
    requires i + 1 < |wa| && j < |wb|
  {
    && wa[i] < 0.85 * wb[j] && wa[i + 1] < 0.85 * wb[j]
    && TwoError(wa, wb, i, j) < Abs(wa[i] - wb[j]) * 0.65
    && TwoError(wa, wb, i, j) < Abs(wa[i + 1] - wb[j]) * 0.65
  }

  /** A plan for the first |plan| chapters that stays inside the tracks and splits only where allowed. */
  ghost predicate Feasible(wa: seq<real>, wb: seq<real>, plan: Plan) {
    plan != [] ==>
      var j := |plan| - 1;
      var i := Tracks(plan[..j]);
      && Feasible(wa, wb, plan[..j])
      && j < |wb| && 0 <= i
      && (|| (plan[j] == 1 && i < |wa|)
          || (plan[j] == 2 && i + 1 < |wa| && SplitAllowed(wa, wb, i, j)))
  }

  ghost function Cost(wa: seq<real>, wb: seq<real>, plan: Plan): real
    requires Feasible(wa, wb, plan)
  {
    if plan == [] then 0.0
    else
      var j := |plan| - 1;
      var i := Tracks(plan[..j]);
      Cost(wa, wb, plan[..j]) + if plan[j] == 1 then OneError(wa, wb, i, j) else TwoError(wa, wb, i, j)
  }

  // ----- the recurrence the tables hold: j chapters using j + s tracks

  function Opt(wa: seq<real>, wb: seq<real>, j: nat, s: nat): Option<real>
    requires j <= |wb|
    decreases j, 1
  {
    if j == 0 then (if s == 0 then Some(0.0) else None)
    else Better(ByTwo(wa, wb, j - 1, s), ByOne(wa, wb, j - 1, s))
  }

  /** Reaching (j + 1, s) by giving chapter j one track. */
  function ByOne(wa: seq<real>, wb: seq<real>, j: nat, s: nat): Option<real>
    requires j < |wb|
    decreases j, 2
  {
    var before := Opt(wa, wb, j, s);
    if before.Some? && j + s < |wa| then Some(before.value + OneError(wa, wb, j + s, j)) else None
  }

  /** Reaching (j + 1, s) by giving chapter j two tracks. */
  function ByTwo(wa: seq<real>, wb: seq<real>, j: nat, s: nat): Option<real>
    requires j < |wb|
    decreases j, 2
  {
    if s == 0 then None
    else
      var before := Opt(wa, wb, j, s - 1);
      if before.Some? && j + s < |wa| && SplitAllowed(wa, wb, j + s - 1, j)
      then Some(before.value + TwoError(wa, wb, j + s - 1, j)) else None
  }

  /** A one-track step replaces a two-track step only when it is strictly cheaper. */
  function Better(two: Option<real>, one: Option<real>): Option<real> {
    if one.Some? && (two.None? || one.value < two.value) then one else two
  }

  /** The step count remembered for (j, s); 0 where nothing reached it. */
  function Choice(wa: seq<real>, wb: seq<real>, j: nat, s: nat): int
    requires j <= |wb|
  {
    if j == 0 then 0
    else
      var two, one := ByTwo(wa, wb, j - 1, s), ByOne(wa, wb, j - 1, s);
      if one.Some? && (two.None? || one.value < two.value) then 1 else if two.Some? then 2 else 0
  }

  /** The plan read backwards out of the choices. */
  function Backtrack(wa: seq<real>, wb: seq<real>, j: nat, s: nat): Plan
    requires j <= |wb| && Opt(wa, wb, j, s).Some?
  {
    if j == 0 then []
    else if Choice(wa, wb, j, s) == 2 then Backtrack(wa, wb, j - 1, s - 1) + [2]
    else Backtrack(wa, wb, j - 1, s) + [1]
  }

  lemma Extend(wa: seq<real>, wb: seq<real>, p: Plan, cnt: int)
    requires Feasible(wa, wb, p) && |p| < |wb| && 0 <= Tracks(p)
    requires cnt == 1 || cnt == 2
    requires Tracks(p) + cnt <= |wa|
    requires cnt == 2 ==> SplitAllowed(wa, wb, Tracks(p), |p|)
    ensures Tracks(p + [cnt]) == Tracks(p) + cnt && Feasible(wa, wb, p + [cnt])
    ensures Cost(wa, wb, p + [cnt]) == Cost(wa, wb, p) +
            if cnt == 1 then OneError(wa, wb, Tracks(p), |p|) else TwoError(wa, wb, Tracks(p), |p|)
  {
    var q := p + [cnt];
    assert q[..|q| - 1] == p && q[|q| - 1] == cnt;
    assert Tracks(q) == Tracks(p) + cnt;
    assert Feasible(wa, wb, q);
  }

  /** p gives j chapters j + s tracks at cost c. */
  ghost predicate Attains(wa: seq<real>, wb: seq<real>, j: nat, s: nat, p: Plan, c: real) {
    |p| == j && Tracks(p) == j + s && Feasible(wa, wb, p) && Cost(wa, wb, p) == c
  }

  /** The backtracked plan exists, has the promised shape, and costs exactly the optimum. */
  lemma {:induction false} Attained(wa: seq<real>, wb: seq<real>, j: nat, s: nat)
    requires j <= |wb| && Opt(wa, wb, j, s).Some?
    ensures Attains(wa, wb, j, s, Backtrack(wa, wb, j, s), Opt(wa, wb, j, s).value)
  {
    if j > 0 {
      ChoiceStep(wa, wb, j, s);
      if Choice(wa, wb, j, s) == 2 {
        Attained(wa, wb, j - 1, s - 1);
        AttainedByTwo(wa, wb, j, s);
      } else {
        Attained(wa, wb, j - 1, s);
        AttainedByOne(wa, wb, j, s);
      }
    }
  }

  lemma AttainedByTwo(wa: seq<real>, wb: seq<real>, j: nat, s: nat)
    requires 0 < j <= |wb| && 0 < s && Opt(wa, wb, j, s).Some? && Choice(wa, wb, j, s) == 2
             && Opt(wa, wb, j - 1, s - 1).Some?
    requires Attains(wa, wb, j - 1, s - 1, Backtrack(wa, wb, j - 1, s - 1), Opt(wa, wb, j - 1, s - 1).value)
    ensures Attains(wa, wb, j, s, Backtrack(wa, wb, j, s), Opt(wa, wb, j, s).value)
  {
    ChoiceStep(wa, wb, j, s);
    AttainsTwo(wa, wb, j, s, Backtrack(wa, wb, j - 1, s - 1), Opt(wa, wb, j - 1, s - 1).value);
  }

  lemma AttainedByOne(wa: seq<real>, wb: seq<real>, j: nat, s: nat)
    requires 0 < j <= |wb| && Opt(wa, wb, j, s).Some? && Choice(wa, wb, j, s) != 2 && Opt(wa, wb, j - 1, s).Some?
    requires Attains(wa, wb, j - 1, s, Backtrack(wa, wb, j - 1, s), Opt(wa, wb, j - 1, s).value)
    ensures Attains(wa, wb, j, s, Backtrack(wa, wb, j, s), Opt(wa, wb, j, s).value)
  {
    ChoiceStep(wa, wb, j, s);
    AttainsOne(wa, wb, j, s, Backtrack(wa, wb, j - 1, s), Opt(wa, wb, j - 1, s).value);
  }

  lemma AttainsOne(wa: seq<real>, wb: seq<real>, j: nat, s: nat, p: Plan, c: real)
    requires 0 < j <= |wb| && j + s <= |wa| && Attains(wa, wb, j - 1, s, p, c)
    ensures Attains(wa, wb, j, s, p + [1], c + OneError(wa, wb, j - 1 + s, j - 1))
  {
    Extend(wa, wb, p, 1);
  }

  lemma AttainsTwo(wa: seq<real>, wb: seq<real>, j: nat, s: nat, p: Plan, c: real)
    requires 0 < j <= |wb| && 0 < s && j + s <= |wa| && Attains(wa, wb, j - 1, s - 1, p, c)
    requires SplitAllowed(wa, wb, j + s - 2, j - 1)
    ensures Attains(wa, wb, j, s, p + [2], c + TwoError(wa, wb, j + s - 2, j - 1))
  {
    Extend(wa, wb, p, 2);
  }

  /** What the remembered choice says about the entry it was remembered for. */
  lemma ChoiceStep(wa: seq<real>, wb: seq<real>, j: nat, s: nat)
    requires 0 < j <= |wb| && Opt(wa, wb, j, s).Some?
    ensures Choice(wa, wb, j, s) == 2 ==>
              && s > 0 && Opt(wa, wb, j - 1, s - 1).Some? && j + s <= |wa| && SplitAllowed(wa, wb, j + s - 2, j - 1)
              && Opt(wa, wb, j, s).value == Opt(wa, wb, j - 1, s - 1).value + TwoError(wa, wb, j + s - 2, j - 1)
              && Backtrack(wa, wb, j, s) == Backtrack(wa, wb, j - 1, s - 1) + [2]
    ensures Choice(wa, wb, j, s) != 2 ==>
              && Opt(wa, wb, j - 1, s).Some? && j + s <= |wa|
              && Opt(wa, wb, j, s).value == Opt(wa, wb, j - 1, s).value + OneError(wa, wb, j - 1 + s, j - 1)
              && Backtrack(wa, wb, j, s) == Backtrack(wa, wb, j - 1, s) + [1]
  {
  }

  /** No feasible plan is cheaper than the table entry for its chapters and tracks. */
  lemma {:induction false} LowerBound(wa: seq<real>, wb: seq<real>, plan: Plan)
    requires Feasible(wa, wb, plan)
    ensures |plan| <= |wb| && |plan| <= Tracks(plan)
    ensures var best := Opt(wa, wb, |plan|, Tracks(plan) - |plan|);
            best.Some? && best.value <= Cost(wa, wb, plan)
  {
    if plan != [] {
      LowerBound(wa, wb, plan[..|plan| - 1]);
    }
  }

  // ----- the sentinel

  const INF: real := 1000000000.0

  function Encoded(c: Option<real>): real { if c.Some? then c.value else INF }

  ghost predicate Shares(w: seq<real>) {
    (forall i | 0 <= i < |w| :: w[i] >= 0.0) && Sum(w) == 1.0
  }

  lemma {:induction false} PrefixSum(w: seq<real>, k: nat)
    requires (forall i | 0 <= i < |w| :: w[i] >= 0.0) && k <= |w|
    ensures 0.0 <= Sum(w[..k]) <= Sum(w)
    ensures k < |w| ==> Sum(w[..k + 1]) == Sum(w[..k]) + w[k]
    decreases |w|
  {
    if k < |w| {
      assert w[..k + 1][..k] == w[..k];
      var w' := w[..|w| - 1];
      PrefixSum(w', k);
      assert w'[..k] == w[..k];
    } else {
      assert w[..k] == w;
      if k > 0 { PrefixSum(w[..k - 1], k - 1); assert w[..k - 1][..k - 1] == w[..k - 1]; }
    }
  }

  /** One step from (j, ·) to (j + 1, s) spends no more than the shares it consumes. */
  lemma OneMoreStep(wa: seq<real>, wb: seq<real>, j: nat, s: nat)
    requires Shares(wa) && Shares(wb) && j < |wb|
    requires var c := Opt(wa, wb, j, s);
             c.Some? ==> j + s <= |wa| && 0.0 <= c.value <= Sum(wa[..j + s]) + Sum(wb[..j])
    requires s > 0 ==> var c := Opt(wa, wb, j, s - 1);
             c.Some? ==> j + s - 1 <= |wa| && 0.0 <= c.value <= Sum(wa[..j + s - 1]) + Sum(wb[..j])
    ensures var c := ByOne(wa, wb, j, s);
            c.Some? ==> j + s + 1 <= |wa| && 0.0 <= c.value <= Sum(wa[..j + s + 1]) + Sum(wb[..j + 1])
    ensures var c := ByTwo(wa, wb, j, s);
            c.Some? ==> j + s + 1 <= |wa| && 0.0 <= c.value <= Sum(wa[..j + s + 1]) + Sum(wb[..j + 1])
  {
    PrefixSum(wb, j);
    if j + s < |wa| {
      PrefixSum(wa, j + s);
      if s > 0 { PrefixSum(wa, j + s - 1); }
    }
  }

  lemma {:induction false} CostWithinShares(wa: seq<real>, wb: seq<real>, j: nat, s: nat)
    requires Shares(wa) && Shares(wb) && j <= |wb|
    ensures var c := Opt(wa, wb, j, s);
            c.Some? ==> j + s <= |wa| && 0.0 <= c.value <= Sum(wa[..j + s]) + Sum(wb[..j])
  {
    if j > 0 {
      CostWithinShares(wa, wb, j - 1, s);
      if s > 0 { CostWithinShares(wa, wb, j - 1, s - 1); }
      OneMoreStep(wa, wb, j - 1, s);
    }
  }

  /** Every cost that reaches a cell is at most 2, so the sentinel can never be mistaken for one. */
  lemma CostsAreSmall(wa: seq<real>, wb: seq<real>, j: nat, s: nat)
    requires Shares(wa) && Shares(wb) && j <= |wb|
    ensures Opt(wa, wb, j, s).Some? ==> j + s <= |wa| && 0.0 <= Opt(wa, wb, j, s).value <= 2.0
    ensures j < |wb| && ByOne(wa, wb, j, s).Some? ==> ByOne(wa, wb, j, s).value <= 2.0
    ensures j < |wb| && ByTwo(wa, wb, j, s).Some? ==> ByTwo(wa, wb, j, s).value <= 2.0
  {
    CostWithinShares(wa, wb, j, s);
    if j + s <= |wa| { PrefixSum(wa, j + s); }
    PrefixSum(wb, j);
    if j < |wb| { CandidatesAreSmall(wa, wb, j, s); }
  }

  lemma CandidatesAreSmall(wa: seq<real>, wb: seq<real>, j: nat, s: nat)
    requires Shares(wa) && Shares(wb) && j < |wb|
    ensures ByOne(wa, wb, j, s).Some? ==> ByOne(wa, wb, j, s).value <= 2.0
    ensures ByTwo(wa, wb, j, s).Some? ==> ByTwo(wa, wb, j, s).value <= 2.0
  {
    CostWithinShares(wa, wb, j, s);
    if s > 0 { CostWithinShares(wa, wb, j, s - 1); }
    OneMoreStep(wa, wb, j, s);
    if j + s + 1 <= |wa| { PrefixSum(wa, j + s + 1); }
    PrefixSum(wb, j + 1);
  }

  // ----- the tables as the code fills them

  /** Cell (r, c) of both tables holds its final value. */
  ghost predicate Settled(wa: seq<real>, wb: seq<real>, dp: array2<real>, from: array2<int>, r: nat, c: nat)
    requires dp.Length0 == from.Length0 == |wb| + 1 && dp.Length1 == from.Length1
    requires r <= |wb| && c < dp.Length1
    reads dp, from
  {
    dp[r, c] == Encoded(Opt(wa, wb, r, c)) && from[r, c] == Choice(wa, wb, r, c)
  }

  /** Cell (j + 1, s) has seen its two-track candidate and not yet its one-track candidate. */
  ghost predicate HalfDone(wa: seq<real>, wb: seq<real>, dp: array2<real>, from: array2<int>, j: nat, s: nat)
    requires dp.Length0 == from.Length0 == |wb| + 1 && dp.Length1 == from.Length1
    requires j < |wb| && s < dp.Length1
    reads dp, from
  {
    dp[j + 1, s] == Encoded(ByTwo(wa, wb, j, s)) && from[j + 1, s] == if ByTwo(wa, wb, j, s).Some? then 2 else 0
  }

  /** The body of the double loop: cell (j, s) offers its cost to the two cells below it. */
  method Relax(wa: seq<real>, wb: seq<real>, j: nat, s: nat, dp: array2<real>, from: array2<int>)
    requires dp.Length0 == from.Length0 == |wb| + 1 && dp.Length1 == from.Length1 && |wa| >= |wb|
    requires j < |wb| && s < dp.Length1 == |wa| - |wb| + 1 && Shares(wa) && Shares(wb)
    requires Settled(wa, wb, dp, from, j, s) && HalfDone(wa, wb, dp, from, j, s)
    requires s + 1 < dp.Length1 ==> dp[j + 1, s + 1] == INF && from[j + 1, s + 1] == 0
    modifies dp, from
    ensures Settled(wa, wb, dp, from, j + 1, s)
    ensures s + 1 < dp.Length1 ==> HalfDone(wa, wb, dp, from, j, s + 1)
    ensures forall r, c | 0 <= r < dp.Length0 && 0 <= c < dp.Length1 && (r != j + 1 || (c != s && c != s + 1)) ::
              dp[r, c] == old(dp[r, c]) && from[r, c] == old(from[r, c])
  {
    CostsAreSmall(wa, wb, j, s);
    CostsAreSmall(wa, wb, j, s + 1);
    if dp[j, s] >= INF {
      return;
    }
    var i := j + s;
    if i >= |wa| {
      return;
    }
    var v := dp[j, s] + OneError(wa, wb, i, j);
    if v < dp[j + 1, s] {
      dp[j + 1, s] := v;
      from[j + 1, s] := 1;
    }
    if s + 1 < dp.Length1 && i + 1 < |wa| && SplitAllowed(wa, wb, i, j) {
      var v2 := dp[j, s] + TwoError(wa, wb, i, j);
      if v2 < dp[j + 1, s + 1] {
        dp[j + 1, s + 1] := v2;
        from[j + 1, s + 1] := 2;
      }
    }
  }

  /** Rows 0..j hold their final values. */
  ghost predicate RowsSettled(wa: seq<real>, wb: seq<real>, dp: array2<real>, from: array2<int>, j: nat)
    requires dp.Length0 == from.Length0 == |wb| + 1 && dp.Length1 == from.Length1 && j <= |wb|
    reads dp, from
  {
    forall r, c | 0 <= r <= j && 0 <= c < dp.Length1 :: Settled(wa, wb, dp, from, r, c)
  }

  /** Rows j and later are as they were made. */
  ghost predicate RowsFresh(wa: seq<real>, wb: seq<real>, dp: array2<real>, from: array2<int>, j: nat)
    requires dp.Length0 == from.Length0 == |wb| + 1 && dp.Length1 == from.Length1
    reads dp, from
  {
    forall r, c | j <= r <= |wb| && 0 <= c < dp.Length1 :: dp[r, c] == INF && from[r, c] == 0
  }

  /** The inner loop: row j offers its costs to row j + 1. */
  method FillRow(wa: seq<real>, wb: seq<real>, j: nat, dp: array2<real>, from: array2<int>)
    requires dp.Length0 == from.Length0 == |wb| + 1 && dp.Length1 == from.Length1 && |wa| >= |wb|
    requires j < |wb| && dp.Length1 == |wa| - |wb| + 1 && Shares(wa) && Shares(wb)
    requires RowsSettled(wa, wb, dp, from, j) && RowsFresh(wa, wb, dp, from, j + 1)
    modifies dp, from
    ensures RowsSettled(wa, wb, dp, from, j + 1) && RowsFresh(wa, wb, dp, from, j + 2)
  {
    ghost var next := j + 1;
    for s := 0 to dp.Length1
      invariant RowsSettled(wa, wb, dp, from, j) && RowsFresh(wa, wb, dp, from, j + 2)
      invariant forall c | 0 <= c < s :: Settled(wa, wb, dp, from, next, c)
      invariant s < dp.Length1 ==> HalfDone(wa, wb, dp, from, j, s)
      invariant forall c | s < c < dp.Length1 :: dp[next, c] == INF && from[next, c] == 0
    {
      label Before:
      Relax(wa, wb, j, s, dp, from);
      forall r, c | 0 <= r <= next && 0 <= c < dp.Length1 && (r <= j || c < s) ensures Settled(wa, wb, dp, from, r, c) {
        assert old@Before(Settled(wa, wb, dp, from, r, c));
      }
    }
  }

  method BestPlan(wa: seq<real>, wb: seq<real>) returns (score: real, plan: Plan)
    requires |wb| <= |wa| && Shares(wa) && Shares(wb)
    ensures score == Encoded(Opt(wa, wb, |wb|, |wa| - |wb|))
    ensures score < INF <==> Opt(wa, wb, |wb|, |wa| - |wb|).Some?
    ensures score < INF ==> plan == Backtrack(wa, wb, |wb|, |wa| - |wb|)
  {
    var nBook, splits := |wb|, |wa| - |wb|;
    var dp := new real[nBook + 1, splits + 1]((j, s) => INF);
    var from := new int[nBook + 1, splits + 1]((j, s) => 0);
    dp[0, 0] := 0.0;
    for j := 0 to nBook
      invariant RowsSettled(wa, wb, dp, from, j) && RowsFresh(wa, wb, dp, from, j + 1)
    {
      FillRow(wa, wb, j, dp, from);
    }
    CostsAreSmall(wa, wb, nBook, splits);
    assert Settled(wa, wb, dp, from, nBook, splits);
    score := dp[nBook, splits];
    plan := [];
    if score < INF {
      plan := ReadChoices(wa, wb, dp, from);
    }
  }

  /** The backward walk over `from`. */
  method ReadChoices(wa: seq<real>, wb: seq<real>, dp: array2<real>, from: array2<int>) returns (plan: Plan)
    requires dp.Length0 == from.Length0 == |wb| + 1 && dp.Length1 == from.Length1 >= 1
    requires forall r, c | 0 <= r <= |wb| && 0 <= c < dp.Length1 :: Settled(wa, wb, dp, from, r, c)
    requires Opt(wa, wb, |wb|, dp.Length1 - 1).Some?
    ensures plan == Backtrack(wa, wb, |wb|, dp.Length1 - 1)
  {
    plan := [];
    var s := dp.Length1 - 1;
    for j := |wb| downto 0
      invariant 0 <= s < dp.Length1
      invariant Opt(wa, wb, j, s).Some?
      invariant Backtrack(wa, wb, j, s) + plan == Backtrack(wa, wb, |wb|, dp.Length1 - 1)
    {
      assert Settled(wa, wb, dp, from, j + 1, s);
      var cnt := from[j + 1, s];
      plan := [cnt] + plan;
      if cnt == 2 {
        s := s - 1;
      }
    }
  }

  /** The table's answer is the minimum over all feasible plans with exactly |wa| tracks, and is attained. */
  lemma BestPlanIsOptimal(wa: seq<real>, wb: seq<real>)
    requires |wb| <= |wa|
    ensures var best := Opt(wa, wb, |wb|, |wa| - |wb|);
            && (best.Some? <==> exists p :: |p| == |wb| && Tracks(p) == |wa| && Feasible(wa, wb, p))
            && (best.Some? ==>
                  var p := Backtrack(wa, wb, |wb|, |wa| - |wb|);
                  |p| == |wb| && Tracks(p) == |wa| && Feasible(wa, wb, p) && Cost(wa, wb, p) == best.value)
            && (forall p | |p| == |wb| && Tracks(p) == |wa| && Feasible(wa, wb, p) ::
                 best.Some? && best.value <= Cost(wa, wb, p))
  {
    forall p | |p| == |wb| && Tracks(p) == |wa| && Feasible(wa, wb, p)
      ensures var best := Opt(wa, wb, |wb|, |wa| - |wb|); best.Some? && best.value <= Cost(wa, wb, p)
    {
      LowerBound(wa, wb, p);
    }
    if Opt(wa, wb, |wb|, |wa| - |wb|).Some? {
      Attained(wa, wb, |wb|, |wa| - |wb|);
    }
  }
}
