/** Which calls the rate limiter grants, counted from the calls alone (internal/auth/middleware.go,
  `RateLimiter.allowAt`).
*/
module RateLimiterLaws {
  import opened RateLimiter
  import opened RateLimiterRuns

  // ----- one key's windows

  /** The call that opened the key's present window: the first of the key, and then each that comes a whole window or
      more after the last that did. -1 if there was none. */
  function Opening(calls: seq<Call>, window: nat, key: string): (j: int)
    ensures -1 <= j < |calls|
    ensures j >= 0 ==> calls[j].key == key
  {
    if calls == [] then -1
    else
      var n := |calls| - 1;
      var j := Opening(calls[..n], window, key);
      if calls[n].key == key && (j >= 0 ==> calls[n].now - calls[j].now >= window) then n else j
  }

  /** How many of the key's calls from number j on were granted. */
  function GrantedSince(calls: seq<Call>, answers: seq<bool>, key: string, j: nat): nat
    requires |answers| == |calls|
  {
    if |calls| <= j then 0
    else
      var n := |calls| - 1;
      GrantedSince(calls[..n], answers[..n], key, j) + if calls[n].key == key && answers[n] then 1 else 0
  }

  /** A call is granted when it opens a window, or when fewer than the limit were granted since the opening. */
  ghost predicate Due(calls: seq<Call>, answers: seq<bool>, limit: int, window: nat, c: Call)
    requires |answers| == |calls|
  {
    var j := Opening(calls, window, c.key);
    j < 0 || c.now - calls[j].now >= window || GrantedSince(calls, answers, c.key, j) < limit
  }

  /** The key's bucket counts what was granted since its opening. */
  ghost predicate Tracks(calls: seq<Call>, answers: seq<bool>, window: nat, m: map<string, Bucket>, key: string)
    requires |answers| == |calls|
  {
    var j := Opening(calls, window, key);
    && (key in m <==> j >= 0)
    && (j >= 0 ==> m[key] == Bucket(GrantedSince(calls, answers, key, j), calls[j].now + window))
  }

  lemma TracksOn(calls: seq<Call>, answers: seq<bool>, limit: int, window: nat, m: map<string, Bucket>, c: Call,
                 key: string)
    requires |answers| == |calls| && Tracks(calls, answers, window, m, key) && Tracks(calls, answers, window, m, c.key)
    ensures var (m', ok) := PlainStep(m, limit, window, c);
            (ok <==> Due(calls, answers, limit, window, c)) && Tracks(calls + [c], answers + [ok], window, m', key)
  {
    var (m', ok) := PlainStep(m, limit, window, c);
    var calls', answers' := calls + [c], answers + [ok];
    assert calls'[..|calls|] == calls && answers'[..|calls|] == answers;
    var j := Opening(calls, window, key);
    if j >= 0 { assert calls'[j] == calls[j]; }
    if key == c.key && Opening(calls', window, key) == |calls| {
      assert GrantedSince(calls, answers, key, |calls|) == 0;
    }
  }

  lemma {:induction false} PlainTracks(limit: int, window: nat, calls: seq<Call>, key: string)
    ensures var (m, answers) := PlainRun(limit, window, calls); Tracks(calls, answers, window, m, key)
  {
    if calls != [] {
      var n := |calls| - 1;
      var (m, answers) := PlainRun(limit, window, calls[..n]);
      PlainTracks(limit, window, calls[..n], key);
      PlainTracks(limit, window, calls[..n], calls[n].key);
      TracksOn(calls[..n], answers, limit, window, m, calls[n], key);
      assert calls == calls[..n] + [calls[n]];
    }
  }

  /** As long as the table is never full, a call is granted exactly when it is due: none is refused before the limit is
      spent, and none granted after. */
  lemma GrantedExactly(limit: int, window: nat, calls: seq<Call>, c: Call)
    requires NonDecreasing(calls + [c]) && NeverFull(New(limit, window), calls + [c])
    ensures var answers := Run(New(limit, window), calls).1;
            Run(New(limit, window), calls + [c]).1 == answers + [Due(calls, answers, limit, window, c)]
  {
    var all := calls + [c];
    assert all[..|calls|] == calls && all[|calls|] == c;
    assert NonDecreasing(calls) by {
      forall i, j | 0 <= i < j < |calls| ensures calls[i].now <= calls[j].now {
        assert all[i] == calls[i] && all[j] == calls[j];
      }
    }
    AnswersArePlain(limit, window, all);
    AnswersArePlain(limit, window, calls);
    PlainTracks(limit, window, calls, c.key);
    var (m, answers) := PlainRun(limit, window, calls);
    TracksOn(calls, answers, limit, window, m, c, c.key);
  }

  // ----- the table

  /** The table is never full before ten thousand keys... */
  lemma TenThousandKeysFit(limit: int, window: nat, calls: seq<Call>)
    requires |KeysOf(calls)| <= 10000
    ensures NeverFull(New(limit, window), calls)
  {
    FewKeysNeverFull(limit, window, calls);
  }

  /** ...and never holds more; then a new key, once the buckets run out are gone, takes the place of the one least
      recently used. */
  lemma TenThousandIsFull(t: Table, c: Call)
    requires Valid(t) && c.key !in t.buckets && |t.buckets| == 10000 && t.recent != [] && c.now < t.nextSweep
    ensures var t' := Allow(t, c).0;
            && |t'.buckets| == 10000
            && t'.buckets.Keys == t.buckets.Keys - {t.recent[|t.recent| - 1]} + {c.key}
            && t'.recent == [c.key] + t.recent[..|t.recent| - 1]
  {
    EvictKeepsValid(t);
    var room := Evicted(t).buckets;
    assert Swept(t, c.now) == t;
    assert room.Keys == t.buckets.Keys - {t.recent[|t.recent| - 1]};
    OneMoreKey(room, c.key, Bucket(1, c.now + t.window));
  }

  lemma OneMoreKey(m: map<string, Bucket>, key: string, b: Bucket)
    requires key !in m
    ensures m[key := b].Keys == m.Keys + {key} && |m[key := b]| == |m| + 1
  {
    assert m[key := b].Keys == m.Keys + {key};
  }

  /** Once the time has come, the buckets that have run out go, and a whole window passes before the next time. */
  lemma SweepIs(t: Table, now: int)
    requires Valid(t)
    ensures now < t.nextSweep ==> Swept(t, now) == t
    ensures now >= t.nextSweep ==>
              var s := Swept(t, now);
              && s.nextSweep - now == t.window && s.limit == t.limit && s.window == t.window
              && (forall k :: k in s.buckets <==> k in t.buckets && t.buckets[k].resetAt > now)
              && (forall k | k in s.buckets :: s.buckets[k] == t.buckets[k])
              && (forall k :: k in s.recent <==> k in s.buckets)
  {
    SweepKeepsValid(t, now);
  }
}
