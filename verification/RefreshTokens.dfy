/** Refresh tokens and session cutoffs: the statements of internal/db/generated/token.sql.go and
user.sql.go, and the handlers of internal/handler/auth.go that use them.

Times are nanoseconds. Tokens stand for their hashes, and new ones are fresh.
*/
module RefreshTokens {
  import opened Durations
  import opened Outcomes

  const REFRESH_TOKEN_TTL: int := 30 * DAY

  type UserId = nat
  type Hash = nat

  /** `family` is the sign-in a token descends from, named by the token issued then. */
  datatype Row = Row(userId: UserId, revokedAt: Option<int>, expiresAt: int, family: Hash)

  type Rows = map<Hash, Row>

  predicate Claimable(rows: Rows, token: Hash, now: int) {
    token in rows && rows[token].revokedAt.None? && rows[token].expiresAt > now
  }

  function Revoked(rows: Rows, token: Hash, now: int): Rows
    requires token in rows
  {
    rows[token := rows[token].(revokedAt := Some(now))]
  }

  /** CreateRefreshToken. */
  function WithToken(rows: Rows, token: Hash, userId: UserId, family: Hash, now: int): Rows {
    rows[token := Row(userId, None, now + REFRESH_TOKEN_TTL, family)]
  }

  function OfUser(rows: Rows, userId: UserId): set<Hash> {
    set h | h in rows && rows[h].userId == userId
  }

  /** The claim and the replacement are one transaction. */
  function Rotated(rows: Rows, token: Hash, replacement: Hash, now: int): Rows
    requires token in rows
  {
    WithToken(Revoked(rows, token, now), replacement, rows[token].userId, rows[token].family, now)
  }

  /** A JWT numeric date: whole seconds (section 2 of RFC 7519). */
  function NumericDate(t: int): int {
    t - t % SECOND
  }

  predicate SessionIsCurrent(issuedAt: int, validFrom: int) {
    !(issuedAt < NumericDate(validFrom))
  }

  /** A token survives a cutoff exactly when it was issued in the cutoff's second or later. None issued
      from the cutoff on is lost, and one from before it outlives it only by less than a second. */
  lemma SurvivesTheCutoff(issuedAt: int, validFrom: int)
    ensures SessionIsCurrent(NumericDate(issuedAt), validFrom) <==> issuedAt / SECOND >= validFrom / SECOND
    ensures issuedAt >= validFrom ==> SessionIsCurrent(NumericDate(issuedAt), validFrom)
    ensures issuedAt < validFrom && SessionIsCurrent(NumericDate(issuedAt), validFrom) ==> validFrom - issuedAt < SECOND
  {
  }

  datatype Refresh = Issued(userId: UserId) | InvalidToken | SessionExpired

  class AuthStore {
    var rows: Rows
    var sessionsValidFrom: map<UserId, int>

    constructor ()
      ensures rows == map[] && sessionsValidFrom == map[]
    {
      rows, sessionsValidFrom := map[], map[];
    }

    /** UPDATE … WHERE revoked_at IS NULL AND expires_at > NOW() RETURNING user_id. */
    method ClaimRefreshToken(token: Hash, now: int) returns (userId: Option<UserId>)
      modifies this`rows
      ensures userId == if Claimable(old(rows), token, now) then Some(old(rows)[token].userId) else None
      ensures rows == if userId.Some? then Revoked(old(rows), token, now) else old(rows)
    {
      if token !in rows || rows[token].revokedAt.Some? || rows[token].expiresAt <= now {
        return None;
      }
      rows := rows[token := rows[token].(revokedAt := Some(now))];
      return Some(rows[token].userId);
    }

    /** The same without the expiry test. */
    method RevokeToken(token: Hash, now: int) returns (userId: Option<UserId>)
      modifies this`rows
      ensures userId == if token in old(rows) && old(rows)[token].revokedAt.None?
                        then Some(old(rows)[token].userId) else None
      ensures rows == if userId.Some? then Revoked(old(rows), token, now) else old(rows)
    {
      if token !in rows || rows[token].revokedAt.Some? {
        return None;
      }
      rows := rows[token := rows[token].(revokedAt := Some(now))];
      return Some(rows[token].userId);
    }

    method DeleteAllRefreshTokensForUser(userId: UserId)
      modifies this`rows
      ensures rows == old(rows) - OfUser(old(rows), userId)
    {
      rows := map h | h in rows && rows[h].userId != userId :: rows[h];
    }

    method InvalidateUserSessions(userId: UserId, now: int)
      modifies this`sessionsValidFrom
      ensures sessionsValidFrom == old(sessionsValidFrom)[userId := now]
    {
      sessionsValidFrom := sessionsValidFrom[userId := now];
    }

    method RotateRefreshToken(token: Hash, replacement: Hash, now: int) returns (userId: Option<UserId>)
      modifies this`rows
      ensures userId.Some? <==> Claimable(old(rows), token, now)
      ensures userId.Some? ==> userId.value == old(rows)[token].userId
      ensures rows == if userId.Some? then Rotated(old(rows), token, replacement, now) else old(rows)
    {
      userId := ClaimRefreshToken(token, now);
      if userId.None? {
        return;
      }
      rows := rows[replacement := Row(userId.value, None, now + REFRESH_TOKEN_TTL, rows[token].family)];
    }

    /** A stored token that was already revoked takes everything of its user's with it. */
    method RejectUnclaimableToken(token: Hash, now: int) returns (answer: Refresh)
      modifies this
      ensures answer == if token in old(rows) then SessionExpired else InvalidToken
      ensures
        var reuse := token in old(rows) && old(rows)[token].revokedAt.Some?;
        && rows == (if reuse then old(rows) - OfUser(old(rows), old(rows)[token].userId) else old(rows))
        && sessionsValidFrom
           == (if reuse then old(sessionsValidFrom)[old(rows)[token].userId := now] else old(sessionsValidFrom))
    {
      if token !in rows {
        return InvalidToken;
      }
      if rows[token].revokedAt.None? {
        return SessionExpired;
      }
      var userId := rows[token].userId;
      DeleteAllRefreshTokensForUser(userId);
      InvalidateUserSessions(userId, now);
      return SessionExpired;
    }

    method HandleTokenRefresh(token: Hash, replacement: Hash, now: int) returns (answer: Refresh)
      modifies this
      ensures answer.Issued? <==> Claimable(old(rows), token, now)
      ensures answer.Issued? ==>
        && rows == Rotated(old(rows), token, replacement, now)
        && sessionsValidFrom == old(sessionsValidFrom)
      ensures token in old(rows) && old(rows)[token].revokedAt.Some? ==>
        && rows == old(rows) - OfUser(old(rows), old(rows)[token].userId)
        && sessionsValidFrom == old(sessionsValidFrom)[old(rows)[token].userId := now]
    {
      var userId := RotateRefreshToken(token, replacement, now);
      if userId.Some? {
        return Issued(userId.value);
      }
      answer := RejectUnclaimableToken(token, now);
    }

    /** `None` is a request without a token, which is a bad one. */
    method HandleRevokeToken(token: Option<Hash>, now: int) returns (ok: bool)
      modifies this
      ensures ok <==> token.Some?
      ensures
        var active := token.Some? && token.value in old(rows) && old(rows)[token.value].revokedAt.None?;
        && rows == (if active then Revoked(old(rows), token.value, now) else old(rows))
        && sessionsValidFrom
           == (if active then old(sessionsValidFrom)[old(rows)[token.value].userId := now] else old(sessionsValidFrom))
    {
      if token.None? {
        return false;
      }
      var userId := RevokeToken(token.value, now);
      if userId.Some? {
        InvalidateUserSessions(userId.value, now);
      }
      return true;
    }
  }
}
