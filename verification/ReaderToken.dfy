/** The browser reader's credentials (internal/auth/service.go, `MintReaderToken`, `IsReaderToken`,
  `RevokeReaderTokens`), for one account. Times are whole nanoseconds.
*/
module ReaderToken {
  import opened Wrappers

  const SECOND := 1_000_000_000
  const READER_TOKEN_TTL := 3600 * SECOND
  const LIFETIME_SLACK := 60 * SECOND
  const READER_TOKEN_NAME := "Web reader"

  datatype Scope = ScopeSync | ScopeReadInsights | ScopeLibraryRead | ScopeLibraryManage | ScopeAdmin

  const READER_SCOPES := [ScopeSync, ScopeLibraryRead]

  datatype Token = Token(
    id: string, deviceId: string, name: string, scopes: seq<Scope>, createdAt: int, expiresAt: Option<int>,
    revoked: bool)

  /** The account's tokens by id. */
  type Tokens = map<string, Token>

  ghost predicate Keyed(ts: Tokens) { forall id <- ts :: ts[id].id == id && id != "" }

  predicate IsReaderNamed(t: Token) { t.name == READER_TOKEN_NAME }

  /** The strict shape: what spares a token must be what the mint writes. */
  predicate IsReaderToken(t: Token) {
    && IsReaderNamed(t) && t.deviceId != "" && t.expiresAt.Some? && |t.scopes| == |READER_SCOPES|
    && (forall s <- READER_SCOPES :: s in t.scopes)
    && READER_TOKEN_TTL - LIFETIME_SLACK <= t.expiresAt.value - t.createdAt <= READER_TOKEN_TTL
  }

  predicate Dead(t: Token, now: int) { t.revoked || (t.expiresAt.Some? && now > t.expiresAt.value) }

  /** The device ids the reader-shaped tokens carry. */
  ghost function Devices(ts: Tokens): set<string> {
    set id | id in ts && IsReaderToken(ts[id]) :: ts[id].deviceId
  }

  // ----- what one mint does

  /** `newest` holds, for each device a reader-shaped token carries, one that no other of that device is
      younger than. */
  ghost predicate IsNewest(ts: Tokens, newest: map<string, Token>) {
    && newest.Keys == Devices(ts)
    && (forall d <- newest :: var t := newest[d];
          t.id in ts && ts[t.id] == t && IsReaderToken(t) && t.deviceId == d)
    && (forall d <- newest, id <- ts :: IsReaderToken(ts[id]) && ts[id].deviceId == d ==>
         ts[id].createdAt <= newest[d].createdAt)
  }

  /** The device the mint inherits: that of a youngest reader-shaped token, whatever its state; a new one if there is
      none. */
  ghost predicate Inherits(ts: Tokens, newest: map<string, Token>, device: string) {
    && device != ""
    && (newest.Keys != {} ==> device in newest && forall d <- newest :: newest[d].createdAt <= newest[device].createdAt)
  }

  function IdOf(newest: map<string, Token>, device: string): string {
    if device in newest then newest[device].id else ""
  }

  /** The reaping rule: named for the reader, dead, and not what another device's identity hangs on. */
  predicate Reaped(t: Token, newest: map<string, Token>, device: string, now: int) {
    IsReaderNamed(t) && !(t.deviceId != device && t.id == IdOf(newest, t.deviceId)) && Dead(t, now)
  }

  function Mintable(id: string, device: string, now: int, created: int): Token {
    Token(id, device, READER_TOKEN_NAME, READER_SCOPES, created, Some(now + READER_TOKEN_TTL), false)
  }

  /** One mint, from `a` to `b`: the account clock read `now` at the start and `created` when the token was written;
      `stuck` are the tokens the store failed to delete. */
  ghost predicate Minting(a: Tokens, b: Tokens, now: int, created: int, stuck: set<string>, newest: map<string, Token>,
                          minted: Token)
  {
    && IsNewest(a, newest) && Inherits(a, newest, minted.deviceId)
    && minted.id !in a && minted.id != "" && minted == Mintable(minted.id, minted.deviceId, now, created)
    && b.Keys == (set id | id in a && (id in stuck || !Reaped(a[id], newest, minted.deviceId, now))) + {minted.id}
    && (forall id | id in a && id in b :: b[id] == a[id])
    && b[minted.id] == minted
  }

  /** A sign-out that got as far as some set of tokens: nothing but marks. */
  ghost predicate Revoking(a: Tokens, b: Tokens) {
    && b.Keys == a.Keys
    && forall id <- a :: b[id] == a[id] || (IsReaderNamed(a[id]) && b[id] == a[id].(revoked := true))
  }

  // ----- the service

  class Service {
    var tokens: Tokens

    constructor ()
      ensures tokens == map[]
    {
      tokens := map[];
    }

    /** The store lists in an order of its own. */
    method ListTokens() returns (list: seq<Token>)
      requires Keyed(tokens)
      ensures forall id <- tokens :: tokens[id] in list
      ensures forall t <- list :: t.id in tokens && tokens[t.id] == t
    {
      list := [];
      var todo := tokens.Keys;
      while todo != {}
        invariant todo <= tokens.Keys
        invariant forall id | id in tokens && id !in todo :: tokens[id] in list
        invariant forall t <- list :: t.id in tokens && tokens[t.id] == t
        decreases todo
      {
        var id :| id in todo;
        list := list + [tokens[id]];
        todo := todo - {id};
      }
    }

    /** `newestPerDevice`. */
    method NewestPerDevice(list: seq<Token>) returns (newest: map<string, Token>)
      requires Keyed(tokens)
      requires forall id <- tokens :: tokens[id] in list
      requires forall t <- list :: t.id in tokens && tokens[t.id] == t
      ensures IsNewest(tokens, newest)
    {
      newest := map[];
      for i := 0 to |list|
        invariant forall d <- newest :: newest[d] in list && IsReaderToken(newest[d]) && newest[d].deviceId == d
        invariant forall k | 0 <= k < i && IsReaderToken(list[k]) ::
          list[k].deviceId in newest && list[k].createdAt <= newest[list[k].deviceId].createdAt
      {
        var t := list[i];
        if IsReaderToken(t) {
          if t.deviceId !in newest || t.createdAt > newest[t.deviceId].createdAt {
            newest := newest[t.deviceId := t];
          }
        }
      }
      forall d | d in newest ensures d in Devices(tokens) {
        assert newest[d].id in tokens;
      }
      forall id | id in tokens && IsReaderToken(tokens[id])
        ensures tokens[id].deviceId in newest && tokens[id].createdAt <= newest[tokens[id].deviceId].createdAt
      {
        var k :| 0 <= k < |list| && list[k] == tokens[id];
      }
    }

    /** The device to inherit, reading the map in whatever order it comes; "" when there is none. */
    method InheritedDevice(newest: map<string, Token>) returns (device: string)
      requires "" !in newest
      ensures if newest.Keys == {} then device == ""
              else device in newest && forall d <- newest :: newest[d].createdAt <= newest[device].createdAt
    {
      device := "";
      var latest := 0;
      var todo := newest.Keys;
      while todo != {}
        invariant todo <= newest.Keys
        invariant device == "" <==> todo == newest.Keys
        invariant device != "" ==> device in newest && latest == newest[device].createdAt
        invariant device != "" ==> forall d | d in newest && d !in todo :: newest[d].createdAt <= latest
        decreases todo
      {
        var d :| d in todo;
        if device == "" || newest[d].createdAt > latest {
          device, latest := d, newest[d].createdAt;
        }
        todo := todo - {d};
      }
    }

    /** The reaping loop; `stuck` are the ids whose deletion fails, which the mint ignores. */
    method Reap(list: seq<Token>, newest: map<string, Token>, device: string, now: int, stuck: set<string>)
      requires forall t <- list :: t.id in tokens && tokens[t.id] == t
      modifies this
      ensures tokens.Keys ==
        set id | id in old(tokens)
          && !(old(tokens)[id] in list && id !in stuck && Reaped(old(tokens)[id], newest, device, now)
               && old(tokens)[id].id == id)
      ensures forall id <- tokens :: tokens[id] == old(tokens)[id]
    {
      for i := 0 to |list|
        invariant tokens.Keys <= old(tokens).Keys
        invariant forall id <- tokens :: tokens[id] == old(tokens)[id]
        invariant forall id <- old(tokens) :: id !in tokens <==>
          exists k :: 0 <= k < i && list[k].id == id && id !in stuck && Reaped(list[k], newest, device, now)
      {
        var t := list[i];
        if Reaped(t, newest, device, now) && t.id !in stuck {
          tokens := tokens - {t.id};
        }
      }
    }

    /** `MintReaderToken`. `listed`, `written` say whether the store's list and create calls succeed. */
    method MintReaderToken(now: int, created: int, listed: bool, written: bool, stuck: set<string>)
      returns (r: Option<Token>, ghost newest: map<string, Token>)
      requires Keyed(tokens)
      modifies this
      ensures Keyed(tokens)
      ensures r.Some? <==> listed && written
      ensures r.None? ==> tokens == old(tokens)
      ensures r.Some? ==> Minting(old(tokens), tokens, now, created, stuck, newest, r.value)
    {
      newest := map[];
      if !listed { return None, newest; }
      var existing := ListTokens();
      var young := NewestPerDevice(existing);
      newest := young;
      assert "" !in young;
      var device := InheritedDevice(young);
      if !written { return None, newest; }
      if device == "" { device := NewSecret({""}); }
      var id := NewSecret(tokens.Keys + {""});
      var minted := Mintable(id, device, now, created);
      ghost var before := tokens;
      Reap(existing, young, device, now, stuck);
      tokens := tokens[id := minted];
      r := Some(minted);
      assert tokens.Keys == (set id | id in before && (id in stuck || !Reaped(before[id], young, device, now))) + {id};
    }

    /** `RevokeReaderTokens`: it stops at the first token the store cannot mark. */
    method RevokeReaderTokens(listed: bool, stuck: set<string>) returns (ok: bool)
      requires Keyed(tokens)
      modifies this
      ensures Keyed(tokens) && Revoking(old(tokens), tokens)
      ensures ok ==> forall id <- tokens :: IsReaderNamed(tokens[id]) ==> tokens[id].revoked
      ensures ok <==> listed && forall id <- old(tokens) ::
                IsReaderNamed(old(tokens)[id]) && !old(tokens)[id].revoked ==> id !in stuck
    {
      if !listed { return false; }
      var list := ListTokens();
      for i := 0 to |list|
        invariant Keyed(tokens) && Revoking(old(tokens), tokens)
        invariant forall k | 0 <= k < i :: IsReaderNamed(list[k]) ==> tokens[list[k].id].revoked
        invariant forall k | 0 <= k < i :: IsReaderNamed(list[k]) && !list[k].revoked ==> list[k].id !in stuck
      {
        var t := list[i];
        if IsReaderNamed(t) && !t.revoked {
          if t.id in stuck { return false; }
          tokens := tokens[t.id := tokens[t.id].(revoked := true)];
        }
      }
      return true;
    }
  }

  lemma {:induction false} SecretExists(taken: set<string>, s: string)
    ensures exists t: string :: t !in taken && |t| >= |s|
    decreases taken
  {
    if s in taken {
      SecretExists(taken - {s}, s + "x");
      var t: string :| t !in taken - {s} && |t| >= |s + "x"|;
      assert t !in taken && |t| >= |s|;
    }
  }

  /** `NewSecret`, as far as it matters here: a string not yet in use. */
  method NewSecret(taken: set<string>) returns (s: string)
    ensures s !in taken
  {
    SecretExists(taken, "");
    s :| s !in taken;
  }

  // ----- what mints keep

  /** The mint wrote its token within a minute of reading the clock, so what it wrote has the reader's shape. */
  predicate Timely(now: int, created: int) { now <= created <= now + LIFETIME_SLACK }

  lemma MintedShape(id: string, device: string, now: int, created: int)
    requires device != ""
    ensures IsReaderToken(Mintable(id, device, now, created)) <==> Timely(now, created)
  {
    assert forall s <- READER_SCOPES :: s in READER_SCOPES;
  }

  /** A reader-shaped token of the minted device that the mint does not take away. */
  ghost predicate SurvivorOf(a: Tokens, device: string, now: int, stuck: set<string>) {
    exists id :: id in a && IsReaderToken(a[id]) && a[id].deviceId == device && (id in stuck || !Dead(a[id], now))
  }

  lemma OthersKeepTheirDevice(
    a: Tokens, b: Tokens, now: int, created: int, stuck: set<string>, newest: map<string, Token>, minted: Token,
    d: string)
    requires Keyed(a) && Minting(a, b, now, created, stuck, newest, minted)
    requires d in Devices(a) && d != minted.deviceId
    ensures d in Devices(b)
  {
    var t := newest[d];
    assert t.id in b && b[t.id] == t;
  }

  /** No device is forgotten, exactly when the mint is timely or something of the device it inherited remains. */
  lemma DevicesKept(
    a: Tokens, b: Tokens, now: int, created: int, stuck: set<string>, newest: map<string, Token>, minted: Token)
    requires Keyed(a) && Minting(a, b, now, created, stuck, newest, minted)
    ensures Devices(a) <= Devices(b) <==>
              Timely(now, created) || Devices(a) == {} || SurvivorOf(a, minted.deviceId, now, stuck)
  {
    MintedShape(minted.id, minted.deviceId, now, created);
    var d := minted.deviceId;
    forall o | o in Devices(a) && o != d ensures o in Devices(b) {
      OthersKeepTheirDevice(a, b, now, created, stuck, newest, minted, o);
    }
    if Timely(now, created) {
      assert b[minted.id] == minted && d in Devices(b);
    } else if Devices(a) != {} {
      assert d in Devices(a);
      if SurvivorOf(a, d, now, stuck) {
        var id :| id in a && IsReaderToken(a[id]) && a[id].deviceId == d && (id in stuck || !Dead(a[id], now));
        assert id in b && b[id] == a[id];
      }
      if d in Devices(b) {
        var id :| id in b && IsReaderToken(b[id]) && b[id].deviceId == d;
        assert id != minted.id && b[id] == a[id];
        assert SurvivorOf(a, d, now, stuck);
      }
    }
  }

  /** A mint that takes two minutes between its clock readings, after yesterday's token died: the identity is gone. */
  lemma LateMintForgets()
    ensures
      var before := Token("t", "browser", READER_TOKEN_NAME, READER_SCOPES, 0, Some(READER_TOKEN_TTL), false);
      var now := 24 * READER_TOKEN_TTL;
      var minted := Mintable("u", "browser", now, now + 2 * LIFETIME_SLACK);
      var a, b := map["t" := before], map["u" := minted];
      && Minting(a, b, now, now + 2 * LIFETIME_SLACK, {}, map["browser" := before], minted)
      && Devices(a) == {"browser"} && Devices(b) == {}
  {
    var before := Token("t", "browser", READER_TOKEN_NAME, READER_SCOPES, 0, Some(READER_TOKEN_TTL), false);
    var a := map["t" := before];
    MintedShape("t", "browser", 0, 0);
    MintedShape("u", "browser", 24 * READER_TOKEN_TTL, 24 * READER_TOKEN_TTL + 2 * LIFETIME_SLACK);
    assert "t" in a && IsReaderToken(a["t"]);
    assert Devices(a) == {"browser"};
  }

  /** A timely mint adds no identity but the first. */
  lemma TimelyMint(
    a: Tokens, b: Tokens, now: int, created: int, stuck: set<string>, newest: map<string, Token>, minted: Token)
    requires Keyed(a) && Minting(a, b, now, created, stuck, newest, minted) && Timely(now, created)
    ensures Devices(b) == if Devices(a) == {} then {minted.deviceId} else Devices(a)
  {
    MintedShape(minted.id, minted.deviceId, now, created);
    DevicesKept(a, b, now, created, stuck, newest, minted);
    assert b[minted.id] == minted;
    forall d | d in Devices(b) ensures d == minted.deviceId || d in Devices(a) {
      var id :| id in b && IsReaderToken(b[id]) && b[id].deviceId == d;
      assert id != minted.id ==> b[id] == a[id];
    }
  }

  /** A live token is never taken, the reader's or anybody's, and what stays is unchanged. */
  lemma NothingAliveIsDeleted(
    a: Tokens, b: Tokens, now: int, created: int, stuck: set<string>, newest: map<string, Token>, minted: Token,
    id: string)
    requires Keyed(a) && Minting(a, b, now, created, stuck, newest, minted)
    requires id in a && (!Dead(a[id], now) || !IsReaderNamed(a[id]))
    ensures id in b && b[id] == a[id]
  {
  }

  /** After a mint whose deletions worked, a dead reader token is the newest of another device, and so the only one of
      it. */
  lemma DeadOnesAreReaped(
    a: Tokens, b: Tokens, now: int, created: int, newest: map<string, Token>, minted: Token, id: string, id': string)
    requires Keyed(a) && Minting(a, b, now, created, {}, newest, minted)
    requires id in b && IsReaderNamed(b[id]) && Dead(b[id], now)
    ensures b[id].deviceId != minted.deviceId && IsReaderToken(b[id])
    ensures forall other | other in a && IsReaderToken(a[other]) && a[other].deviceId == b[id].deviceId ::
              a[other].createdAt <= b[id].createdAt
    ensures id' in b && IsReaderNamed(b[id']) && Dead(b[id'], now) && b[id'].deviceId == b[id].deviceId ==> id' == id
  {
    assert id != minted.id && b[id] == a[id];
    assert b[id].id == IdOf(newest, b[id].deviceId);
  }

  // ----- runs

  datatype Event =
    | Mint(now: int, created: int, stuck: set<string>, newest: map<string, Token>, minted: Token)
    | SignOut

  ghost predicate Happens(a: Tokens, e: Event, b: Tokens) {
    match e
    case Mint(now, created, stuck, newest, minted) =>
      Timely(now, created) && Minting(a, b, now, created, stuck, newest, minted)
    case SignOut => Revoking(a, b)
  }

  ghost predicate IsRun(states: seq<Tokens>, events: seq<Event>) {
    && |states| == |events| + 1
    && forall i | 0 <= i < |events| :: Happens(states[i], events[i], states[i + 1])
  }

  lemma SignOutKeepsDevices(a: Tokens, b: Tokens)
    requires Revoking(a, b)
    ensures Devices(b) == Devices(a)
    ensures Keyed(a) ==> Keyed(b)
  {
    forall id | id in a ensures IsReaderToken(a[id]) == IsReaderToken(b[id]) && a[id].deviceId == b[id].deviceId {}
    forall d | d in Devices(a) ensures d in Devices(b) {
      var id :| id in a && IsReaderToken(a[id]) && a[id].deviceId == d;
      assert id in b && IsReaderToken(b[id]) && b[id].deviceId == d;
    }
    forall d | d in Devices(b) ensures d in Devices(a) {
      var id :| id in b && IsReaderToken(b[id]) && b[id].deviceId == d;
      assert id in a && IsReaderToken(a[id]) && a[id].deviceId == d;
    }
  }

  lemma {:induction false} IdentityLasts(states: seq<Tokens>, events: seq<Event>)
    requires IsRun(states, events) && Keyed(states[0])
    ensures var last := states[|events|];
            && Keyed(last) && Devices(states[0]) <= Devices(last)
            && (Devices(states[0]) != {} ==> Devices(last) == Devices(states[0]))
    decreases |events|
  {
    var n := |events|;
    if n > 0 {
      IdentityLasts(states[..n], events[..n - 1]);
      var a, b := states[n - 1], states[n];
      assert Happens(a, events[n - 1], b);
      match events[n - 1] {
        case Mint(now, created, stuck, newest, minted) => TimelyMint(a, b, now, created, stuck, newest, minted);
        case SignOut => SignOutKeepsDevices(a, b);
      }
    }
  }

  /** An account whose browser never had an identity gets one at the first mint and keeps that one, through every later
      mint and sign-out. */
  lemma OneIdentity(states: seq<Tokens>, events: seq<Event>)
    requires IsRun(states, events) && Keyed(states[0]) && Devices(states[0]) == {}
    requires |events| > 0 && events[0].Mint?
    ensures Devices(states[|events|]) == {events[0].minted.deviceId}
  {
    var e := events[0];
    assert Happens(states[0], e, states[1]);
    TimelyMint(states[0], states[1], e.now, e.created, e.stuck, e.newest, e.minted);
    assert Keyed(states[1]);
    assert IsRun(states[1..], events[1..]) by {
      forall i | 0 <= i < |events[1..]| ensures Happens(states[1..][i], events[1..][i], states[1..][i + 1]) {
        assert Happens(states[i + 1], events[i + 1], states[i + 2]);
      }
    }
    IdentityLasts(states[1..], events[1..]);
  }
}
