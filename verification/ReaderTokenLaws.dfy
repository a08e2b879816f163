/** The browser reader's credentials spelled out: their name, scopes, times and devices (internal/auth/service.go). */
module ReaderTokenLaws {
  import opened Wrappers
  import opened ReaderToken

  /** A token the reader minted: its name, a device, the two scopes and no third, and a life of an hour, or up to a
      minute less. Times are nanoseconds. */
  predicate OfTheReader(t: Token) {
    && t.name == "Web reader" && t.deviceId != ""
    && |t.scopes| == 2 && ScopeSync in t.scopes && ScopeLibraryRead in t.scopes
    && t.expiresAt.Some?
    && t.createdAt + 3_540_000_000_000 <= t.expiresAt.value <= t.createdAt + 3_600_000_000_000
  }

  lemma OfTheReaderIs(t: Token)
    ensures OfTheReader(t) <==> IsReaderToken(t)
  {
    assert forall s :: s in READER_SCOPES <==> s == ScopeSync || s == ScopeLibraryRead;
  }

  /** Signed out, or past its hour. */
  predicate Over(t: Token, now: int) { t.revoked || (t.expiresAt.Some? && t.expiresAt.value < now) }

  /** What a mint writes: an hour from the first clock reading on, for the device of a youngest of the reader's tokens
      if there is one, whatever has become of it. */
  lemma MintedIs(a: Tokens, b: Tokens, now: int, created: int, stuck: set<string>, newest: map<string, Token>,
                 minted: Token)
    requires Minting(a, b, now, created, stuck, newest, minted)
    ensures minted.id !in a && minted.id in b && b[minted.id] == minted
    ensures minted == Token(minted.id, minted.deviceId, "Web reader", [ScopeSync, ScopeLibraryRead], created,
                            Some(now + 3_600_000_000_000), false)
    ensures (exists id :: id in a && OfTheReader(a[id])) ==>
              exists id :: id in a && OfTheReader(a[id]) && a[id].deviceId == minted.deviceId
                           && forall other | other in a && OfTheReader(a[other]) ::
                                a[other].createdAt <= a[id].createdAt
  {
    forall id | id in a ensures OfTheReader(a[id]) <==> IsReaderToken(a[id]) { OfTheReaderIs(a[id]); }
    if some :| some in a && OfTheReader(a[some]) {
      assert a[some].deviceId in newest;
      var t := newest[minted.deviceId];
      forall other | other in a && OfTheReader(a[other]) ensures a[other].createdAt <= t.createdAt {
        assert a[other].createdAt <= newest[a[other].deviceId].createdAt;
      }
      assert t.id in a && OfTheReader(a[t.id]);
    }
  }

  /** What a mint takes away: tokens of the reader's name that are over, but for one of the youngest of each other
      device. Whatever is left is as it was. */
  lemma TakenExactly(a: Tokens, b: Tokens, now: int, created: int, stuck: set<string>, newest: map<string, Token>,
                     minted: Token, id: string)
    requires Keyed(a) && Minting(a, b, now, created, stuck, newest, minted) && id in a
    ensures id !in b <==>
              && a[id].name == "Web reader" && Over(a[id], now) && id !in stuck
              && (a[id].deviceId == minted.deviceId || a[id].deviceId !in newest || newest[a[id].deviceId] != a[id])
    ensures id in b ==> b[id] == a[id]
  {
    assert a[id].deviceId in newest ==> newest[a[id].deviceId].id in a;
  }

  /** ...where `newest` holds one of the youngest of the reader's tokens for each device that has any. */
  lemma NewestAre(a: Tokens, newest: map<string, Token>, d: string)
    requires Keyed(a) && IsNewest(a, newest)
    ensures d in newest <==> exists id :: id in a && OfTheReader(a[id]) && a[id].deviceId == d
    ensures d in newest ==>
              && newest[d].id in a && a[newest[d].id] == newest[d] && OfTheReader(newest[d]) && newest[d].deviceId == d
              && forall id | id in a && OfTheReader(a[id]) && a[id].deviceId == d ::
                   a[id].createdAt <= newest[d].createdAt
  {
    forall id | id in a ensures OfTheReader(a[id]) <==> IsReaderToken(a[id]) { OfTheReaderIs(a[id]); }
    assert d in newest <==> d in Devices(a);
  }

  /** So a live token stays, and so does every one of another name, unchanged. */
  lemma AliveStays(a: Tokens, b: Tokens, now: int, created: int, stuck: set<string>, newest: map<string, Token>,
                   minted: Token, id: string)
    requires Keyed(a) && Minting(a, b, now, created, stuck, newest, minted) && id in a
    requires a[id].name != "Web reader" || (!a[id].revoked && (a[id].expiresAt.Some? ==> now <= a[id].expiresAt.value))
    ensures id in b && b[id] == a[id]
  {
    TakenExactly(a, b, now, created, stuck, newest, minted, id);
  }

  /** A sign-out marks the tokens of the reader's name, all of them when it succeeds, and touches nothing else. */
  lemma SignedOut(a: Tokens, b: Tokens, id: string)
    requires Revoking(a, b)
    ensures id in b <==> id in a
    ensures id in a && a[id].name != "Web reader" ==> b[id] == a[id]
    ensures id in a ==> b[id] == a[id] || b[id] == a[id].(revoked := true)
  {
  }

  /** The minted token is one of the reader's exactly when it was written within the minute. */
  lemma WrittenInTime(a: Tokens, b: Tokens, now: int, created: int, stuck: set<string>, newest: map<string, Token>,
                      minted: Token)
    requires Minting(a, b, now, created, stuck, newest, minted)
    ensures OfTheReader(minted) <==> now <= created <= now + 60_000_000_000
  {
    MintedShape(minted.id, minted.deviceId, now, created);
    OfTheReaderIs(minted);
  }
}
