/** Logging out: the token's ID goes on a blacklist until the token would expire anyway, and the
    verifier checks both.  The `exp` and `nbf` checks are those of sections 4.1.4 and 4.1.5 of
    RFC 7519. */
module TokenBlacklist {

  /** The claims of a correctly signed token. */
  datatype Token = Token(id: string, notBefore: int, expiresAt: int, isActive: bool)

  /** Blacklisted IDs, each with the time at which Redis drops the entry. */
  type Blacklist = map<string, int>

  /** `Logout` at time `now`; the entry, with the remaining lifetime of the token, reaches Redis
      at time `setAt`. */
  function Logout(b: Blacklist, token: Token, now: int, setAt: int): Blacklist {
    var ttl := token.expiresAt - now;
    if ttl <= 0 then b else b[token.id := setAt + ttl]
  }

  /** An empty ID is never looked up. */
  predicate IsBlacklisted(b: Blacklist, id: string, now: int) {
    id != "" && id in b && now < b[id]
  }

  /** `VerifyToken` accepts the token. */
  predicate Verify(b: Blacklist, token: Token, now: int) {
    token.notBefore <= now < token.expiresAt && token.isActive && !IsBlacklisted(b, token.id, now)
  }

  /** The token would be accepted at some time from `now` on, were it not for the blacklist. */
  ghost predicate Usable(token: Token, now: int) {
    token.isActive && exists t :: now <= t && InLifetime(token, t)
  }

  predicate InLifetime(token: Token, t: int) {
    token.notBefore <= t < token.expiresAt
  }

  /** The token is refused from `now` on. */
  ghost predicate LockedOut(b: Blacklist, token: Token, now: int) {
    forall t :: now <= t ==> !Verify(b, token, t)
  }

  /** Exactly the usable tokens without an ID survive their own logout. */
  lemma LogoutLocksOut(b: Blacklist, token: Token, now: int, setAt: int)
    requires now <= setAt
    ensures LockedOut(Logout(b, token, now, setAt), token, now) <==> token.id != "" || !Usable(token, now)
  {
    var b' := Logout(b, token, now, setAt);
    if token.id == "" && Usable(token, now) {
      var t :| now <= t && InLifetime(token, t);
      assert Verify(b', token, t);
    }
    forall t | now <= t && (token.id != "" || !Usable(token, now)) ensures !Verify(b', token, t) {
      assert Verify(b', token, t) ==> InLifetime(token, t);
    }
  }

  /** Another logout overwrites the entry of the same ID.  The token stays locked out exactly
      when the other logout writes nothing for this ID, or an entry that lasts long enough, or
      the token has no time left that is not covered. */
  lemma OtherLogoutExactly(b: Blacklist, token: Token, other: Token, now: int, setAt: int)
    requires LockedOut(b, token, now) && now <= setAt
    ensures LockedOut(Logout(b, other, now, setAt), token, now) <==>
            || other.id != token.id || other.expiresAt <= now
            || !Usable(token, if token.id == "" then now else Later(now, setAt + (other.expiresAt - now)))
  {
    var b' := Logout(b, other, now, setAt);
    if other.id == token.id && other.expiresAt > now {
      var from := if token.id == "" then now else Later(now, setAt + (other.expiresAt - now));
      if Usable(token, from) {
        var t :| from <= t && InLifetime(token, t);
        assert Verify(b', token, t);
      } else {
        forall t | now <= t ensures !Verify(b', token, t) {
          assert from <= t && InLifetime(token, t) ==> !token.isActive;
        }
      }
    } else {
      forall t | now <= t ensures !Verify(b', token, t) {
        assert !Verify(b, token, t);
      }
    }
  }

  function Later(a: int, b: int): int {
    if a < b then b else a
  }

  // ---------------------------------------------------------------------------
  // Runs
  // ---------------------------------------------------------------------------

  datatype Event =
    | LogsOut(token: Token, now: int, setAt: int)
    | Verifies(token: Token, now: int)

  function Next(b: Blacklist, e: Event): Blacklist {
    match e
    case LogsOut(token, now, setAt) => Logout(b, token, now, setAt)
    case Verifies(_, _) => b
  }

  function Run(b: Blacklist, es: seq<Event>): Blacklist
    decreases |es|
  {
    if es == [] then b else Run(Next(b, es[0]), es[1..])
  }

  /** Later logouts under the same ID are of tokens that live at least as long. */
  ghost predicate KeepsEntry(e: Event, token: Token) {
    e.LogsOut? ==> e.now <= e.setAt && (e.token.id == token.id ==> e.token.expiresAt >= token.expiresAt)
  }

  lemma {:induction false} EntryLasts(b: Blacklist, token: Token, es: seq<Event>)
    requires token.id in b && b[token.id] >= token.expiresAt
    requires forall i :: 0 <= i < |es| ==> KeepsEntry(es[i], token)
    ensures token.id in Run(b, es) && Run(b, es)[token.id] >= token.expiresAt
    decreases |es|
  {
    if es != [] {
      assert KeepsEntry(es[0], token);
      EntryLasts(Next(b, es[0]), token, es[1..]);
    }
  }

  /** After a logout, whatever happens next, the token is never accepted again: before its
      expiry it is blacklisted, and from then on it has expired. */
  lemma LogoutIsFinal(b: Blacklist, token: Token, now: int, setAt: int, es: seq<Event>, t: int)
    requires token.id != "" && now <= setAt && now <= t
    requires forall i :: 0 <= i < |es| ==> KeepsEntry(es[i], token)
    ensures !Verify(Run(Logout(b, token, now, setAt), es), token, t)
  {
    if token.expiresAt > now {
      EntryLasts(Logout(b, token, now, setAt), token, es);
    }
  }

  /** Without that proviso it can come back: a second token with the same ID, issued to expire a
      second earlier, shortens the entry of the first. */
  lemma ShorterTokenUnlocks(id: string, issued: int, lifetime: int, now: int)
    requires id != "" && issued <= now < issued + lifetime - 1
    ensures var a := Token(id, issued, issued + lifetime, true);
            var b := a.(expiresAt := a.expiresAt - 1);
            Verify(Run(map[], [LogsOut(a, now, now), LogsOut(b, now, now)]), a, b.expiresAt)
  {
    var a := Token(id, issued, issued + lifetime, true);
    var b := a.(expiresAt := a.expiresAt - 1);
    var es := [LogsOut(a, now, now), LogsOut(b, now, now)];
    assert es[1..] == [es[1]] && [es[1]][1..] == [];
    assert Run(Next(map[], es[0]), [es[1]]) == Next(Next(map[], es[0]), es[1]);
  }

  /** The store, updated in place. */
  class TokenStore {
    var blacklist: Blacklist

    /** From now on the token is refused, if it has an ID; the verdict on tokens with other IDs
        does not change. */
    method AddTokenToBlacklist(token: Token, now: int, setAt: int)
      modifies this
      ensures blacklist == Logout(old(blacklist), token, now, setAt)
      ensures now <= setAt && token.id != "" ==> LockedOut(blacklist, token, now)
      ensures forall other: Token, t :: other.id != token.id ==> (Verify(blacklist, other, t) <==> Verify(old(blacklist), other, t))
    {
      if now <= setAt {
        LogoutLocksOut(blacklist, token, now, setAt);
      }
      var ttl := token.expiresAt - now;
      if ttl <= 0 {
        return;
      }
      blacklist := blacklist[token.id := setAt + ttl];
    }

    method VerifyToken(token: Token, now: int) returns (accepted: bool)
      ensures accepted == Verify(blacklist, token, now)
      ensures accepted <==> token.notBefore <= now < token.expiresAt && token.isActive &&
                            (token.id == "" || token.id !in blacklist || blacklist[token.id] <= now)
    {
      if now < token.notBefore || token.expiresAt <= now || !token.isActive {
        return false;
      }
      if token.id == "" {
        return true;
      }
      return !(token.id in blacklist && now < blacklist[token.id]);
    }
  }
}
