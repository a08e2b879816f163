/** The per-key fixed-window rate limiter (internal/auth/middleware.go, `RateLimiter`). */
module RateLimiter {

  /** The table is full at this many keys; a new one then replaces the least recently used. */
  const MAX_BUCKETS: nat := 10000

  /** The zero time, long before any call. */
  const ZERO_TIME: int := -62135596800000000000

  datatype Bucket = Bucket(count: int, resetAt: int)

  /** The state: buckets by key, the recency list with the latest key first, and when to sweep next. */
  datatype Table = Table(limit: int, window: nat, buckets: map<string, Bucket>, recent: seq<string>, nextSweep: int)

  datatype Call = Call(key: string, now: int)

  /** Every key occurs once. */
  ghost predicate NoDup(s: seq<string>) { s == [] || (s[0] !in s[1..] && NoDup(s[1..])) }

  lemma NoDupCons(key: string, s: seq<string>)
    requires NoDup(s) && key !in s
    ensures NoDup([key] + s)
  {
    assert ([key] + s)[1..] == s;
  }

  lemma {:induction false} NoDupFront(s: seq<string>, front: seq<string>, key: string)
    requires NoDup(s) && s == front + [key]
    ensures NoDup(front) && key !in front
  {
    if front != [] {
      assert s[1..] == front[1..] + [key];
      NoDupFront(s[1..], front[1..], key);
      assert forall k | k in front[1..] :: k in s[1..];
      assert key in s[1..];
    }
  }

  /** Map and list hold the same keys, each once, and never more than the cap. */
  ghost predicate Valid(t: Table) {
    && NoDup(t.recent) && (forall k :: k in t.recent <==> k in t.buckets)
    && |t.buckets| <= MAX_BUCKETS
  }

  /** `list.Remove` of the element holding the key. */
  function Remove(s: seq<string>, key: string): seq<string> {
    if s == [] then [] else if s[0] == key then s[1..] else [s[0]] + Remove(s[1..], key)
  }

  /** The keys of s that are in the map, in order. */
  function Kept(s: seq<string>, m: map<string, Bucket>): seq<string> {
    if s == [] then [] else if s[0] in m then [s[0]] + Kept(s[1..], m) else Kept(s[1..], m)
  }

  /** The buckets still there while those in `todo` are waiting to be looked at. */
  function Sweeping(m: map<string, Bucket>, todo: set<string>, now: int): map<string, Bucket> {
    map k | k in m && (k in todo || now < m[k].resetAt) :: m[k]
  }

  /** The table once expired buckets are gone, if it is time to look for them. */
  function Swept(t: Table, now: int): Table {
    if now < t.nextSweep then t
    else
      var live := Sweeping(t.buckets, {}, now);
      t.(buckets := live, recent := Kept(t.recent, live), nextSweep := now + t.window)
  }

  /** The key that would be evicted: the last of the recency list. */
  function Victim(t: Table): string
    requires t.recent != []
  {
    t.recent[|t.recent| - 1]
  }

  function Evicted(t: Table): Table
    requires t.recent != []
  {
    t.(buckets := t.buckets - {Victim(t)}, recent := t.recent[..|t.recent| - 1])
  }

  /** A key that has no bucket gets a new one, at the front of the list. */
  function Added(t: Table, key: string, b: Bucket): Table {
    t.(buckets := t.buckets[key := b], recent := [key] + t.recent)
  }

  /** A key that has a bucket moves to the front of the list. */
  function Touched(t: Table, key: string, b: Bucket): Table {
    t.(buckets := t.buckets[key := b], recent := [key] + Remove(t.recent, key))
  }

  predicate Evicts(t: Table, c: Call) {
    c.key !in Swept(t, c.now).buckets && |Swept(t, c.now).buckets| >= MAX_BUCKETS
  }

  /** What one bucket answers, and becomes: the fixed-window rule. */
  function Consume(b: Bucket, limit: int, window: nat, now: int): (Bucket, bool) {
    if now >= b.resetAt then (Bucket(1, now + window), true)
    else if b.count >= limit then (b, false)
    else (b.(count := b.count + 1), true)
  }

  /** What a call does to a table already swept. */
  function Spent(s: Table, c: Call): (Table, bool)
    requires Valid(s)
  {
    if c.key in s.buckets then
      var (b, ok) := Consume(s.buckets[c.key], s.limit, s.window, c.now);
      (Touched(s, c.key, b), ok)
    else
      var room := if |s.buckets| >= MAX_BUCKETS then (FullHasVictim(s); Evicted(s)) else s;
      (Added(room, c.key, Bucket(1, c.now + s.window)), true)
  }

  /** `allowAt` as one step from table to table. */
  function Allow(t: Table, c: Call): (Table, bool)
    requires Valid(t)
  {
    SweepKeepsValid(t, c.now);
    Spent(Swept(t, c.now), c)
  }

  lemma FullHasVictim(t: Table)
    requires Valid(t) && |t.buckets| > 0
    ensures t.recent != []
  {
    var k :| k in t.buckets;
  }

  lemma {:induction false} KeptMembers(s: seq<string>, m: map<string, Bucket>)
    requires NoDup(s)
    ensures NoDup(Kept(s, m)) && forall k :: k in Kept(s, m) <==> k in s && k in m
  {
    if s != [] {
      KeptMembers(s[1..], m);
      assert forall k :: k in s <==> k == s[0] || k in s[1..];
      if s[0] in m { NoDupCons(s[0], Kept(s[1..], m)); }
    }
  }

  lemma {:induction false} RemoveMember(s: seq<string>, key: string, k: string)
    requires NoDup(s)
    ensures k in Remove(s, key) <==> k in s && k != key
  {
    if s != [] {
      RemoveMember(s[1..], key, k);
      assert k in s <==> k == s[0] || k in s[1..];
    }
  }

  lemma {:induction false} RemoveNoDup(s: seq<string>, key: string)
    requires NoDup(s)
    ensures NoDup(Remove(s, key))
  {
    if s != [] && s[0] != key {
      RemoveNoDup(s[1..], key);
      RemoveMember(s[1..], key, s[0]);
      NoDupCons(s[0], Remove(s[1..], key));
    }
  }

  lemma SweepKeepsValid(t: Table, now: int)
    requires Valid(t)
    ensures Valid(Swept(t, now))
  {
    var s := Swept(t, now);
    KeptMembers(t.recent, s.buckets);
    Subset(s.buckets.Keys, t.buckets.Keys);
  }

  lemma Subset<T>(a: set<T>, b: set<T>)
    requires a <= b
    ensures |a| <= |b|
  {
    assert b == a + (b - a);
  }

  lemma FrontMembers(s: seq<string>, front: seq<string>, key: string)
    requires NoDup(s) && s == front + [key]
    ensures forall k :: k in front <==> k in s && k != key
  {
    NoDupFront(s, front, key);
  }

  lemma EvictKeepsValid(t: Table)
    requires Valid(t) && t.recent != []
    ensures Valid(Evicted(t)) && |Evicted(t).buckets| == |t.buckets| - 1
    ensures forall k :: k in Evicted(t).buckets <==> k in t.buckets && k != Victim(t)
  {
    var front, victim := t.recent[..|t.recent| - 1], Victim(t);
    assert t.recent == front + [victim];
    NoDupFront(t.recent, front, victim);
    FrontMembers(t.recent, front, victim);
    assert victim in t.recent;
    assert (t.buckets - {victim}).Keys == t.buckets.Keys - {victim};
  }

  lemma AddKeepsValid(t: Table, key: string, b: Bucket)
    requires Valid(t) && key !in t.buckets && |t.buckets| < MAX_BUCKETS
    ensures Valid(Added(t, key, b))
  {
    NoDupCons(key, t.recent);
    assert t.buckets[key := b].Keys == t.buckets.Keys + {key};
  }

  lemma TouchKeepsValid(t: Table, key: string, b: Bucket)
    requires Valid(t) && key in t.buckets
    ensures Valid(Touched(t, key, b))
  {
    RemoveNoDup(t.recent, key);
    forall k ensures k in Remove(t.recent, key) <==> k in t.recent && k != key { RemoveMember(t.recent, key, k); }
    NoDupCons(key, Remove(t.recent, key));
    assert t.buckets[key := b].Keys == t.buckets.Keys;
  }

  lemma SpendKeepsValid(s: Table, c: Call)
    requires Valid(s)
    ensures Valid(Spent(s, c).0)
  {
    if c.key in s.buckets {
      TouchKeepsValid(s, c.key, Consume(s.buckets[c.key], s.limit, s.window, c.now).0);
    } else if |s.buckets| >= MAX_BUCKETS {
      FullHasVictim(s);
      EvictKeepsValid(s);
      AddKeepsValid(Evicted(s), c.key, Bucket(1, c.now + s.window));
    } else {
      AddKeepsValid(s, c.key, Bucket(1, c.now + s.window));
    }
  }

  /** Every call leaves map and list in step and within the cap. */
  lemma AllowKeepsValid(t: Table, c: Call)
    requires Valid(t)
    ensures Valid(Allow(t, c).0)
  {
    SweepKeepsValid(t, c.now);
    SpendKeepsValid(Swept(t, c.now), c);
  }

  lemma SweepOne(m: map<string, Bucket>, todo: set<string>, now: int, k: string)
    requires k in todo && k in m
    ensures Sweeping(m, todo - {k}, now) ==
            if now >= m[k].resetAt then Sweeping(m, todo, now) - {k} else Sweeping(m, todo, now)
  {
  }

  class Limiter {
    const limit: int
    const window: nat
    var buckets: map<string, Bucket>
    var nextSweep: int
    var recent: seq<string>

    function Contents(): Table
      reads this
    {
      Table(limit, window, buckets, recent, nextSweep)
    }

    constructor (limit: int, window: nat)
      ensures Contents() == Table(limit, window, map[], [], ZERO_TIME) && Valid(Contents())
    {
      this.limit, this.window := limit, window;
      buckets, recent, nextSweep := map[], [], ZERO_TIME;
    }

    /** The sweep visits the buckets in any order whatever, as a Go map may yield them. */
    method Sweep(now: int)
      requires Valid(Contents()) && now >= nextSweep
      modifies this
      ensures Contents() == Swept(old(Contents()), now)
    {
      ghost var m, r := buckets, recent;
      var todo := buckets.Keys;
      KeptAll(recent, buckets);
      assert Sweeping(m, todo, now) == m;
      while todo != {}
        invariant todo <= m.Keys && nextSweep == old(nextSweep)
        invariant buckets == Sweeping(m, todo, now) && recent == Kept(r, buckets)
      {
        var k :| k in todo;
        SweepOne(m, todo, now, k);
        todo := todo - {k};
        if now >= buckets[k].resetAt {
          KeptMinus(r, buckets, k);
          buckets := buckets - {k};
          recent := Remove(recent, k);
        }
      }
      nextSweep := now + window;
    }

    /** The rest of `allowAt`, once the table is swept. */
    method Spend(key: string, now: int) returns (allowed: bool)
      requires Valid(Contents())
      modifies this
      ensures (Contents(), allowed) == Spent(old(Contents()), Call(key, now))
    {
      var ok := key in buckets;
      if !ok {
        if |buckets| >= MAX_BUCKETS {
          FullHasVictim(Contents());
          var oldest := recent[|recent| - 1];
          buckets := buckets - {oldest};
          recent := recent[..|recent| - 1];
        }
        recent := [key] + recent;
      } else {
        recent := [key] + Remove(recent, key);
      }
      if !ok || now >= buckets[key].resetAt {
        buckets := buckets[key := Bucket(1, now + window)];
        return true;
      }
      if buckets[key].count >= limit {
        assert buckets[key := buckets[key]] == buckets;
        return false;
      }
      buckets := buckets[key := buckets[key].(count := buckets[key].count + 1)];
      return true;
    }

    /** `allowAt`. */
    method AllowAt(key: string, now: int) returns (allowed: bool)
      requires Valid(Contents())
      modifies this
      ensures Valid(Contents()) && (Contents(), allowed) == Allow(old(Contents()), Call(key, now))
    {
      SweepKeepsValid(Contents(), now);
      AllowKeepsValid(Contents(), Call(key, now));
      if now >= nextSweep {
        Sweep(now);
      }
      allowed := Spend(key, now);
    }
  }

  lemma {:induction false} KeptAll(s: seq<string>, m: map<string, Bucket>)
    requires forall k | k in s :: k in m
    ensures Kept(s, m) == s
  {
    if s != [] { KeptAll(s[1..], m); }
  }

  lemma {:induction false} KeptMinus(s: seq<string>, m: map<string, Bucket>, key: string)
    requires NoDup(s) && key in m
    ensures Kept(s, m - {key}) == Remove(Kept(s, m), key)
  {
    if s != [] {
      KeptMinus(s[1..], m, key);
      if s[0] == key {
        KeptMembers(s[1..], m);
        RemoveAbsent(Kept(s[1..], m), key);
        assert ([key] + Kept(s[1..], m))[1..] == Kept(s[1..], m);
      } else if s[0] in m {
        assert Kept(s, m)[0] == s[0] && Kept(s, m)[1..] == Kept(s[1..], m);
        assert Kept(s, m - {key}) == [s[0]] + Kept(s[1..], m - {key});
      }
    }
  }

  lemma {:induction false} RemoveAbsent(s: seq<string>, key: string)
    requires key !in s
    ensures Remove(s, key) == s
  {
    if s != [] { RemoveAbsent(s[1..], key); }
  }

  // ----- runs

  /** The table after a run of calls, and the answers given. */
  function Run(t: Table, calls: seq<Call>): (r: (Table, seq<bool>))
    requires Valid(t)
    ensures Valid(r.0) && |r.1| == |calls|
  {
    if calls == [] then (t, [])
    else
      var (before, answers) := Run(t, calls[..|calls| - 1]);
      AllowKeepsValid(before, calls[|calls| - 1]);
      var (after, ok) := Allow(before, calls[|calls| - 1]);
      (after, answers + [ok])
  }
}
