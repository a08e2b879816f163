/** What the rate limiter keeps over whole runs of calls (internal/auth/middleware.go, `RateLimiter.allowAt`). */
module RateLimiterRuns {
  import opened RateLimiter

  ghost predicate NonDecreasing(calls: seq<Call>) { forall i, j | 0 <= i < j < |calls| :: calls[i].now <= calls[j].now }

  /** `NewRateLimiter`. */
  function New(limit: int, window: nat): (t: Table)
    ensures Valid(t)
  {
    Table(limit, window, map[], [], ZERO_TIME)
  }

  lemma {:induction false} RunKeepsSettings(t: Table, calls: seq<Call>)
    requires Valid(t)
    ensures Run(t, calls).0.limit == t.limit && Run(t, calls).0.window == t.window
  {
    if calls != [] { RunKeepsSettings(t, calls[..|calls| - 1]); }
  }

  // ----- the victim is the least recently used key

  /** The position of the last call with this key, -1 if there is none. */
  function LastUse(calls: seq<Call>, key: string): int {
    if calls == [] then -1
    else if calls[|calls| - 1].key == key then |calls| - 1
    else LastUse(calls[..|calls| - 1], key)
  }

  /** The key at i was used after the one at j. */
  ghost predicate Later(s: seq<string>, calls: seq<Call>, i: nat, j: nat)
    requires i < j < |s|
  {
    LastUse(calls, s[i]) > LastUse(calls, s[j])
  }

  ghost predicate LatestFirst(s: seq<string>, calls: seq<Call>) {
    forall i, j | 0 <= i < j < |s| :: Later(s, calls, i, j)
  }

  /** A key used after every key of a list in order goes before them. */
  lemma LatestFirstCons(k: string, s: seq<string>, calls: seq<Call>)
    requires LatestFirst(s, calls) && forall k' | k' in s :: LastUse(calls, k) > LastUse(calls, k')
    ensures LatestFirst([k] + s, calls)
  {
    forall i, j | 0 <= i < j < |[k] + s| ensures Later([k] + s, calls, i, j) {
      if i > 0 { assert Later(s, calls, i - 1, j - 1); }
    }
  }

  lemma LatestFirstTail(s: seq<string>, calls: seq<Call>)
    requires LatestFirst(s, calls) && s != []
    ensures LatestFirst(s[1..], calls) && forall k | k in s[1..] :: LastUse(calls, s[0]) > LastUse(calls, k)
  {
    forall i, j | 0 <= i < j < |s[1..]| ensures Later(s[1..], calls, i, j) { assert Later(s, calls, i + 1, j + 1); }
    forall k | k in s[1..] ensures LastUse(calls, s[0]) > LastUse(calls, k) {
      var i :| 0 <= i < |s[1..]| && s[1..][i] == k;
      assert Later(s, calls, 0, i + 1);
    }
  }

  lemma LatestFirstFront(s: seq<string>, calls: seq<Call>)
    requires LatestFirst(s, calls) && s != []
    ensures LatestFirst(s[..|s| - 1], calls)
  {
    var front := s[..|s| - 1];
    forall i, j | 0 <= i < j < |front| ensures Later(front, calls, i, j) { assert Later(s, calls, i, j); }
  }

  lemma {:induction false} LastUseBound(calls: seq<Call>, key: string)
    ensures -1 <= LastUse(calls, key) < |calls|
  {
    if calls != [] { LastUseBound(calls[..|calls| - 1], key); }
  }

  lemma {:induction false} KeptLatestFirst(s: seq<string>, m: map<string, Bucket>, calls: seq<Call>)
    requires LatestFirst(s, calls) && NoDup(s)
    ensures LatestFirst(Kept(s, m), calls)
  {
    if s != [] {
      LatestFirstTail(s, calls);
      KeptLatestFirst(s[1..], m, calls);
      KeptMembers(s[1..], m);
      LatestFirstCons(s[0], Kept(s[1..], m), calls);
    }
  }

  lemma {:induction false} RemoveLatestFirst(s: seq<string>, key: string, calls: seq<Call>)
    requires LatestFirst(s, calls) && NoDup(s)
    ensures LatestFirst(Remove(s, key), calls)
  {
    if s != [] {
      LatestFirstTail(s, calls);
      if s[0] != key {
        RemoveLatestFirst(s[1..], key, calls);
        forall k | k in Remove(s[1..], key) ensures LastUse(calls, s[0]) > LastUse(calls, k) {
          RemoveMember(s[1..], key, k);
        }
        LatestFirstCons(s[0], Remove(s[1..], key), calls);
      }
    }
  }

  lemma OtherKeysStay(s: seq<string>, calls: seq<Call>, c: Call)
    requires LatestFirst(s, calls) && c.key !in s
    ensures LatestFirst(s, calls + [c])
    ensures forall k | k in s :: LastUse(calls + [c], c.key) > LastUse(calls + [c], k)
  {
    var after := calls + [c];
    assert after[..|after| - 1] == calls;
    forall k | k in s ensures LastUse(after, k) == LastUse(calls, k) < |calls| {
      LastUseBound(calls, k);
    }
    forall i, j | 0 <= i < j < |s| ensures Later(s, after, i, j) { assert Later(s, calls, i, j); }
  }

  /** Moving the key of the newest call to the front keeps the list in order. */
  lemma FrontIsLatest(s: seq<string>, calls: seq<Call>, c: Call)
    requires LatestFirst(s, calls) && c.key !in s
    ensures LatestFirst([c.key] + s, calls + [c])
  {
    OtherKeysStay(s, calls, c);
    LatestFirstCons(c.key, s, calls + [c]);
  }

  lemma {:induction false} RecencyIsLatestFirst(limit: int, window: nat, calls: seq<Call>)
    ensures LatestFirst(Run(New(limit, window), calls).0.recent, calls)
  {
    if calls != [] {
      var earlier, c := calls[..|calls| - 1], calls[|calls| - 1];
      RecencyIsLatestFirst(limit, window, earlier);
      assert earlier + [c] == calls;
      AllowLatestFirst(Run(New(limit, window), earlier).0, earlier, c);
      RunIsAllow(New(limit, window), calls);
    }
  }

  lemma RunIsAllow(t: Table, calls: seq<Call>)
    requires Valid(t) && calls != []
    ensures Run(t, calls).0 == Allow(Run(t, calls[..|calls| - 1]).0, calls[|calls| - 1]).0
  {
  }

  lemma AllowLatestFirst(t: Table, calls: seq<Call>, c: Call)
    requires Valid(t) && LatestFirst(t.recent, calls)
    ensures LatestFirst(Allow(t, c).0.recent, calls + [c])
  {
    SweptLatestFirst(t, calls, c.now);
    SpentLatestFirst(Swept(t, c.now), calls, c);
  }

  lemma SweptLatestFirst(t: Table, calls: seq<Call>, now: int)
    requires Valid(t) && LatestFirst(t.recent, calls)
    ensures Valid(Swept(t, now)) && LatestFirst(Swept(t, now).recent, calls)
  {
    SweepKeepsValid(t, now);
    KeptLatestFirst(t.recent, Sweeping(t.buckets, {}, now), calls);
  }

  lemma TouchedLatestFirst(recent: seq<string>, calls: seq<Call>, c: Call)
    requires NoDup(recent) && LatestFirst(recent, calls)
    ensures LatestFirst([c.key] + Remove(recent, c.key), calls + [c])
  {
    RemoveLatestFirst(recent, c.key, calls);
    RemoveMember(recent, c.key, c.key);
    FrontIsLatest(Remove(recent, c.key), calls, c);
  }

  lemma EvictedLatestFirst(s: Table, calls: seq<Call>, c: Call)
    requires Valid(s) && LatestFirst(s.recent, calls) && s.recent != [] && c.key !in s.buckets
    ensures LatestFirst([c.key] + Evicted(s).recent, calls + [c])
  {
    LatestFirstFront(s.recent, calls);
    FrontIsLatest(Evicted(s).recent, calls, c);
  }

  lemma SpentLatestFirst(s: Table, calls: seq<Call>, c: Call)
    requires Valid(s) && LatestFirst(s.recent, calls)
    ensures LatestFirst(Spent(s, c).0.recent, calls + [c])
  {
    if c.key in s.buckets {
      TouchedLatestFirst(s.recent, calls, c);
    } else if |s.buckets| >= MAX_BUCKETS {
      FullHasVictim(s);
      EvictedLatestFirst(s, calls, c);
    } else {
      FrontIsLatest(s.recent, calls, c);
    }
  }

  /** Whenever a key is evicted, every other key in the table was used after it. */
  lemma VictimIsLeastRecent(limit: int, window: nat, calls: seq<Call>, c: Call)
    requires Evicts(Run(New(limit, window), calls).0, c)
    ensures var s := Swept(Run(New(limit, window), calls).0, c.now);
            s.recent != [] && Victim(s) in s.buckets
            && forall k | k in s.buckets && k != Victim(s) :: LastUse(calls, Victim(s)) < LastUse(calls, k)
  {
    var t := Run(New(limit, window), calls).0;
    RecencyIsLatestFirst(limit, window, calls);
    SweptLatestFirst(t, calls, c.now);
    LastIsLeastRecent(Swept(t, c.now), calls);
  }

  lemma LastIsLeastRecent(s: Table, calls: seq<Call>)
    requires Valid(s) && LatestFirst(s.recent, calls) && |s.buckets| > 0
    ensures s.recent != [] && Victim(s) in s.buckets
    ensures forall k | k in s.buckets && k != Victim(s) :: LastUse(calls, Victim(s)) < LastUse(calls, k)
  {
    FullHasVictim(s);
    assert Victim(s) in s.recent;
    forall k | k in s.buckets && k != Victim(s) ensures LastUse(calls, Victim(s)) < LastUse(calls, k) {
      var i :| 0 <= i < |s.recent| && s.recent[i] == k;
      assert Later(s.recent, calls, i, |s.recent| - 1);
    }
  }

  // ----- the same answers as a limiter that never forgets

  /** The plain limiter: one bucket per key, kept for good. */
  function PlainStep(m: map<string, Bucket>, limit: int, window: nat, c: Call): (map<string, Bucket>, bool) {
    var b := if c.key in m then m[c.key] else Bucket(0, c.now);
    var (b', ok) := Consume(b, limit, window, c.now);
    (m[c.key := b'], ok)
  }

  function PlainRun(limit: int, window: nat, calls: seq<Call>): (r: (map<string, Bucket>, seq<bool>))
    ensures |r.1| == |calls|
  {
    if calls == [] then (map[], [])
    else
      var (m, answers) := PlainRun(limit, window, calls[..|calls| - 1]);
      var (m', ok) := PlainStep(m, limit, window, calls[|calls| - 1]);
      (m', answers + [ok])
  }

  /** No call of the run met a full table. */
  ghost predicate NeverFull(t: Table, calls: seq<Call>)
    requires Valid(t)
  {
    calls != [] ==>
      var earlier := calls[..|calls| - 1];
      NeverFull(t, earlier) && !Evicts(Run(t, earlier).0, calls[|calls| - 1])
  }

  /** The table holds what the plain limiter holds, except buckets that have run out. */
  ghost predicate Forgets(t: Table, m: map<string, Bucket>, now: int) {
    && (forall k | k in t.buckets :: k in m && m[k] == t.buckets[k])
    && (forall k | k in m && k !in t.buckets :: m[k].resetAt <= now)
  }

  lemma ForgetsStep(t: Table, m: map<string, Bucket>, c: Call, before: int)
    requires Valid(t) && Forgets(t, m, before) && before <= c.now && !Evicts(t, c)
    ensures var (t', ok) := Allow(t, c);
            var (m', ok') := PlainStep(m, t.limit, t.window, c);
            ok == ok' && Forgets(t', m', c.now)
  {
    SweepKeepsValid(t, c.now);
    var s := Swept(t, c.now);
    assert Forgets(s, m, c.now);
  }

  /** Until the table is full the sweep and the recency list cannot be noticed: the answers are the plain limiter's. */
  lemma {:induction false} AnswersArePlain(limit: int, window: nat, calls: seq<Call>)
    requires NonDecreasing(calls) && NeverFull(New(limit, window), calls)
    ensures Run(New(limit, window), calls).1 == PlainRun(limit, window, calls).1
    ensures Forgets(Run(New(limit, window), calls).0, PlainRun(limit, window, calls).0,
                    if calls == [] then ZERO_TIME else calls[|calls| - 1].now)
  {
    if calls != [] {
      var earlier, c := calls[..|calls| - 1], calls[|calls| - 1];
      AnswersArePlain(limit, window, earlier);
      RunKeepsSettings(New(limit, window), earlier);
      var t, m := Run(New(limit, window), earlier).0, PlainRun(limit, window, earlier).0;
      ForgetsStep(t, m, c, if earlier == [] then c.now else earlier[|earlier| - 1].now);
    }
  }

  /** The keys a run used. */
  function KeysOf(calls: seq<Call>): set<string> { set c | c in calls :: c.key }

  /** A run over no more keys than the cap never meets a full table. */
  lemma {:induction false} FewKeysNeverFull(limit: int, window: nat, calls: seq<Call>)
    requires |KeysOf(calls)| <= MAX_BUCKETS
    ensures NeverFull(New(limit, window), calls)
    ensures Run(New(limit, window), calls).0.buckets.Keys <= KeysOf(calls)
  {
    if calls != [] {
      var earlier, c := calls[..|calls| - 1], calls[|calls| - 1];
      assert calls == earlier + [c];
      assert KeysOf(calls) == KeysOf(earlier) + {c.key};
      Subset(KeysOf(earlier), KeysOf(calls));
      FewKeysNeverFull(limit, window, earlier);
      NewKeyFits(Run(New(limit, window), earlier).0, c, KeysOf(calls));
    }
  }

  lemma NewKeyFits(t: Table, c: Call, keys: set<string>)
    requires Valid(t) && t.buckets.Keys <= keys && c.key in keys && |keys| <= MAX_BUCKETS
    ensures !Evicts(t, c) && Allow(t, c).0.buckets.Keys <= keys
  {
    var s := Swept(t, c.now);
    assert s.buckets.Keys <= keys;
    if c.key !in s.buckets { Subset(s.buckets.Keys + {c.key}, keys); }
  }

  // ----- how much a key gets

  /** How many of the calls with this key in [from, to) were allowed. */
  function Grants(calls: seq<Call>, answers: seq<bool>, key: string, from: int, to: int): nat
    requires |answers| == |calls|
  {
    if calls == [] then 0
    else
      var n := |calls| - 1;
      Grants(calls[..n], answers[..n], key, from, to)
      + if answers[n] && calls[n].key == key && from <= calls[n].now < to then 1 else 0
  }

  function Max(a: int, b: int): int { if a >= b then a else b }

  /** A fresh bucket always grants its first call, so even a limit of 0 grants one. */
  function Budget(limit: int): int { Max(limit, 1) }

  /** How a key's bucket bounds the grants counted since `from`, all calls so far being before from + window. */
  ghost predicate Bounded(m: map<string, Bucket>, limit: int, window: nat, key: string, from: int, last: int,
                          grants: nat)
  {
    && grants <= 2 * Budget(limit)
    && (last < from ==> grants == 0)
    && (key in m ==> 0 <= m[key].count <= Budget(limit))
    && (last < from + window ==>
          && (key !in m ==> grants == 0)
          && (key in m && m[key].resetAt < from + window ==> grants <= m[key].count)
          && (key in m && m[key].resetAt >= from + window ==> grants <= Budget(limit) + m[key].count))
  }

  lemma {:induction false} PlainIsBounded(limit: int, window: nat, calls: seq<Call>, key: string, from: int)
    requires NonDecreasing(calls) && calls != []
    ensures var (m, answers) := PlainRun(limit, window, calls);
            Bounded(m, limit, window, key, from, calls[|calls| - 1].now,
              Grants(calls, answers, key, from, from + window))
  {
    var earlier, c := calls[..|calls| - 1], calls[|calls| - 1];
    var (m, answers) := PlainRun(limit, window, earlier);
    var (m', ok) := PlainStep(m, limit, window, c);
    var g := Grants(earlier, answers, key, from, from + window);
    assert (answers + [ok])[..|earlier|] == answers;
    if earlier != [] {
      PlainIsBounded(limit, window, earlier, key, from);
    }
  }

  /** No matter where an interval of one window starts, a key is granted at most twice its budget in it, as long as the
      table is never full. */
  lemma WindowGuarantee(limit: int, window: nat, calls: seq<Call>, key: string, from: int)
    requires NonDecreasing(calls) && NeverFull(New(limit, window), calls)
    ensures Grants(calls, Run(New(limit, window), calls).1, key, from, from + window) <= 2 * Budget(limit)
  {
    if calls != [] {
      AnswersArePlain(limit, window, calls);
      PlainIsBounded(limit, window, calls, key, from);
    }
  }
}
