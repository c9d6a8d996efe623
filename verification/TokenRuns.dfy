/** Refresh tokens under all interleavings.

Transactions and single statements are the steps. A request whose claim failed goes on to look the
token up, then deletes, then invalidates, with other requests in between.
*/
module TokenRuns {
  import opened Durations
  import opened RefreshTokens

  /** A request that is not done: its claim failed, it found reuse, it deleted, or it signed out. In
      `seen` and `gone` are the user's tokens it has met, in `kin` those of the reused token's family. */
  datatype Request =
    | Unclaimable(token: Hash)
    | Reused(userId: UserId, seen: set<Hash>, family: Hash, kin: set<Hash>)
    | Deleted(userId: UserId, gone: set<Hash>, kin: set<Hash>)
    | SignedOut(userId: UserId)

  datatype Access = Access(userId: UserId, at: int)

  /** A reuse that was dealt with: whose, which refresh tokens it found, of the user and of the family, and when
      it cut sessions off. */
  datatype Reuse = Reuse(userId: UserId, gone: set<Hash>, kin: set<Hash>, cutoff: int)

  datatype State = State(
    now: int,
    rows: Rows,
    sessionsValidFrom: map<UserId, int>,
    requests: map<nat, Request>,
    issued: set<Hash>,
    signIns: map<Hash, UserId>,
    access: seq<Access>,
    claims: seq<Hash>,
    reuses: seq<Reuse>)

  datatype Event =
    | Wait(till: int)
    | SignIn(userId: UserId, token: Hash)
    | Rotate(id: nat, token: Hash, replacement: Hash)
    | Lookup(id: nat)
    | DeleteAll(id: nat)
    | Invalidate(id: nat)
    | SignOut(id: nat, token: Hash)
    | ChangePassword(userId: UserId)
    | Drop(id: nat)

  function OfFamily(rows: Rows, family: Hash): set<Hash> {
    set h | h in rows && rows[h].family == family
  }

  predicate Enabled(s: State, e: Event) {
    match e
    case Wait(till) => s.now <= till
    case SignIn(_, token) => token !in s.issued
    case Rotate(id, _, replacement) => id !in s.requests && replacement !in s.issued
    case Lookup(id) => id in s.requests && s.requests[id].Unclaimable?
    case DeleteAll(id) => id in s.requests && s.requests[id].Reused?
    case Invalidate(id) => id in s.requests && (s.requests[id].Deleted? || s.requests[id].SignedOut?)
    case SignOut(id, _) => id !in s.requests
    case ChangePassword(_) => true
    case Drop(id) => id in s.requests
  }

  function Step(s: State, e: Event): State
    requires Enabled(s, e)
  {
    match e
    case Wait(till) => s.(now := till)
    case SignIn(userId, token) =>
      s.(rows := WithToken(s.rows, token, userId, token, s.now),
         issued := s.issued + {token},
         signIns := s.signIns[token := userId],
         access := s.access + [Access(userId, s.now)])
    case Rotate(id, token, replacement) =>
      if Claimable(s.rows, token, s.now) then
        s.(rows := Rotated(s.rows, token, replacement, s.now),
           issued := s.issued + {replacement},
           access := s.access + [Access(s.rows[token].userId, s.now)],
           claims := s.claims + [token])
      else s.(requests := s.requests[id := Unclaimable(token)])
    case Lookup(id) =>
      var token := s.requests[id].token;
      if token in s.rows && s.rows[token].revokedAt.Some? then
        var userId := s.rows[token].userId;
        var family := s.rows[token].family;
        s.(requests := s.requests[id := Reused(userId, OfUser(s.rows, userId), family, OfFamily(s.rows, family))])
      else s.(requests := s.requests - {id})
    case DeleteAll(id) =>
      var r := s.requests[id];
      s.(rows := s.rows - OfUser(s.rows, r.userId),
         requests := s.requests[id := Deleted(r.userId, r.seen + OfUser(s.rows, r.userId),
                                              r.kin + OfFamily(s.rows, r.family))])
    case Invalidate(id) =>
      var r := s.requests[id];
      s.(sessionsValidFrom := s.sessionsValidFrom[r.userId := s.now],
         reuses := if r.Deleted? then s.reuses + [Reuse(r.userId, r.gone, r.kin, s.now)] else s.reuses,
         requests := s.requests - {id})
    case SignOut(id, token) =>
      if token in s.rows && s.rows[token].revokedAt.None? then
        s.(rows := Revoked(s.rows, token, s.now), requests := s.requests[id := SignedOut(s.rows[token].userId)])
      else s
    case ChangePassword(userId) =>
      s.(rows := s.rows - OfUser(s.rows, userId), sessionsValidFrom := s.sessionsValidFrom[userId := s.now])
    case Drop(id) => s.(requests := s.requests - {id})
  }

  predicate Unrevoked(rows: Rows, h: Hash) {
    h in rows && rows[h].revokedAt.None?
  }

  /** Each sign-in has at most one token that still works. */
  ghost predicate OneLivePerFamily(rows: Rows) {
    forall h, k :: Unrevoked(rows, h) && Unrevoked(rows, k) && rows[h].family == rows[k].family ==> h == k
  }

  predicate NoRepeats(claims: seq<Hash>) {
    forall i, j :: 0 <= i < j < |claims| ==> claims[i] != claims[j]
  }

  ghost predicate RowsSound(s: State) {
    && s.rows.Keys <= s.issued
    && (forall h :: h in s.rows ==> s.rows[h].family in s.issued)
    && OneLivePerFamily(s.rows)
  }

  /** Each stored token belongs to whoever signed in when its family began. */
  ghost predicate OwnersSound(s: State) {
    forall h :: h in s.rows ==> s.rows[h].family in s.signIns && s.signIns[s.rows[h].family] == s.rows[h].userId
  }

  ghost predicate ClaimsSound(s: State) {
    && NoRepeats(s.claims)
    && (forall i :: 0 <= i < |s.claims| ==> s.claims[i] in s.issued && !Unrevoked(s.rows, s.claims[i]))
  }

  lemma IssuingKeepsFamilies(rows: Rows, token: Hash, userId: UserId, family: Hash, now: int)
    requires OneLivePerFamily(rows)
    requires forall h :: Unrevoked(rows, h) ==> rows[h].family != family
    ensures OneLivePerFamily(WithToken(rows, token, userId, family, now))
  {
  }

  lemma RevokingKeepsFamilies(rows: Rows, token: Hash, now: int)
    requires OneLivePerFamily(rows) && Unrevoked(rows, token)
    ensures OneLivePerFamily(Revoked(rows, token, now))
    ensures forall h :: Unrevoked(Revoked(rows, token, now), h) ==> rows[h].family != rows[token].family
  {
  }

  lemma DeletingKeepsFamilies(rows: Rows, tokens: set<Hash>)
    requires OneLivePerFamily(rows)
    ensures OneLivePerFamily(rows - tokens)
  {
  }

  lemma StepKeepsRows(s: State, e: Event)
    requires Enabled(s, e) && RowsSound(s)
    ensures RowsSound(Step(s, e))
    ensures s.issued <= Step(s, e).issued
    ensures forall h :: h in Step(s, e).rows ==> h in s.rows || h !in s.issued
    ensures forall h :: h in s.issued && !Unrevoked(s.rows, h) ==> !Unrevoked(Step(s, e).rows, h)
  {
    hide OneLivePerFamily;
    match e {
      case SignIn(userId, token) =>
        IssuingKeepsFamilies(s.rows, token, userId, token, s.now);
      case Rotate(_, token, replacement) =>
        if Claimable(s.rows, token, s.now) {
          RevokingKeepsFamilies(s.rows, token, s.now);
          var revoked := Revoked(s.rows, token, s.now);
          IssuingKeepsFamilies(revoked, replacement, s.rows[token].userId, s.rows[token].family, s.now);
        }
      case SignOut(_, token) =>
        if Unrevoked(s.rows, token) {
          RevokingKeepsFamilies(s.rows, token, s.now);
        }
      case DeleteAll(id) =>
        DeletingKeepsFamilies(s.rows, OfUser(s.rows, s.requests[id].userId));
      case ChangePassword(userId) =>
        DeletingKeepsFamilies(s.rows, OfUser(s.rows, userId));
      case _ =>
    }
  }

  /** No sign-in is forgotten or given to another user. */
  ghost predicate SignInsKept(s: State, s': State) {
    forall h :: h in s.signIns && h in s.issued ==> h in s'.signIns && s'.signIns[h] == s.signIns[h]
  }

  lemma StepKeepsOwners(s: State, e: Event)
    requires Enabled(s, e) && RowsSound(s) && OwnersSound(s)
    ensures OwnersSound(Step(s, e))
    ensures SignInsKept(s, Step(s, e))
  {
    hide OneLivePerFamily;
  }

  lemma StepKeepsClaims(s: State, e: Event)
    requires Enabled(s, e) && RowsSound(s) && ClaimsSound(s)
    ensures ClaimsSound(Step(s, e))
  {
  }

  /** None of these tokens is stored, and none ever will be. */
  ghost predicate Gone(s: State, tokens: set<Hash>) {
    tokens <= s.issued && tokens !! s.rows.Keys
  }

  ghost predicate CutOff(s: State, userId: UserId, cutoff: int) {
    userId in s.sessionsValidFrom && cutoff <= s.sessionsValidFrom[userId]
  }

  ghost predicate ReusesSound(s: State) {
    && (forall id :: id in s.requests && s.requests[id].Reused? ==>
          s.requests[id].seen <= s.issued && s.requests[id].kin <= s.issued)
    && (forall id :: id in s.requests && s.requests[id].Deleted? ==>
          Gone(s, s.requests[id].gone) && Gone(s, s.requests[id].kin))
    && (forall i :: 0 <= i < |s.reuses| ==>
          Gone(s, s.reuses[i].gone) && Gone(s, s.reuses[i].kin) && CutOff(s, s.reuses[i].userId, s.reuses[i].cutoff))
  }

  /** Tokens found by a reuse belong to its user or are gone already. */
  ghost predicate UsersSound(s: State) {
    forall id, h :: id in s.requests && s.requests[id].Reused? && h in s.requests[id].seen && h in s.rows
      ==> s.rows[h].userId == s.requests[id].userId
  }

  /** So do those of the family it was found in, which that user began. */
  ghost predicate KinSound(s: State) {
    && (forall id, h :: id in s.requests && s.requests[id].Reused? && h in s.requests[id].kin && h in s.rows
          ==> s.rows[h].userId == s.requests[id].userId)
    && (forall id :: id in s.requests && s.requests[id].Reused? ==>
          && s.requests[id].family in s.issued && s.requests[id].family in s.signIns
          && s.signIns[s.requests[id].family] == s.requests[id].userId)
  }

  ghost predicate SeenSound(s: State) {
    UsersSound(s) && KinSound(s)
  }

  ghost predicate CutoffsInThePast(s: State) {
    forall u :: u in s.sessionsValidFrom ==> s.sessionsValidFrom[u] <= s.now
  }

  /** A stored token that was issued before keeps its user and its family. */
  lemma RowsKeepTheirUser(s: State, e: Event)
    requires Enabled(s, e) && s.rows.Keys <= s.issued
    ensures forall h :: h in Step(s, e).rows && h in s.issued ==>
      && h in s.rows
      && Step(s, e).rows[h].userId == s.rows[h].userId
      && Step(s, e).rows[h].family == s.rows[h].family
    ensures !e.Lookup? ==>
      forall id :: id in Step(s, e).requests && Step(s, e).requests[id].Reused? ==>
        id in s.requests && Step(s, e).requests[id] == s.requests[id]
    ensures SignInsKept(s, Step(s, e))
    ensures s.issued <= Step(s, e).issued
  {
  }

  lemma StepKeepsSeen(s: State, e: Event)
    requires Enabled(s, e) && RowsSound(s) && OwnersSound(s) && ReusesSound(s) && SeenSound(s)
    ensures SeenSound(Step(s, e))
  {
    hide OneLivePerFamily, Gone, CutOff, UsersSound, KinSound;
    if e.Lookup? {
      LookupKeepsSeen(s, e.id);
    } else {
      OthersKeepSeen(s, e);
    }
  }

  lemma OthersKeepSeen(s: State, e: Event)
    requires Enabled(s, e) && !e.Lookup? && s.rows.Keys <= s.issued && ReusesSound(s) && SeenSound(s)
    ensures SeenSound(Step(s, e))
  {
    hide Step, Gone, CutOff;
    RowsKeepTheirUser(s, e);
  }

  lemma LookupKeepsSeen(s: State, id: nat)
    requires Enabled(s, Lookup(id)) && RowsSound(s) && OwnersSound(s) && SeenSound(s)
    ensures SeenSound(Step(s, Lookup(id)))
  {
    hide OneLivePerFamily;
  }

  lemma GoneStaysGone(s: State, e: Event, tokens: set<Hash>)
    requires Enabled(s, e) && RowsSound(s) && Gone(s, tokens)
    ensures Gone(Step(s, e), tokens)
  {
  }

  lemma CutoffsRise(s: State, e: Event)
    requires Enabled(s, e) && CutoffsInThePast(s)
    ensures CutoffsInThePast(Step(s, e))
    ensures forall u, cutoff :: CutOff(s, u, cutoff) ==> CutOff(Step(s, e), u, cutoff)
  {
  }

  /** Where requests that deleted come from. */
  lemma RequestsComeFromSteps(s: State, e: Event)
    requires Enabled(s, e)
    ensures
      var s' := Step(s, e);
      && (forall id :: id in s'.requests && s'.requests[id].Reused? ==>
            e == Lookup(id) || (id in s.requests && s'.requests[id] == s.requests[id]))
      && (forall id :: id in s'.requests && s'.requests[id].Deleted? ==>
            e == DeleteAll(id) || (id in s.requests && s'.requests[id] == s.requests[id]))
  {
    hide Rotated, WithToken, Revoked, OfUser, OfFamily, Claimable;
  }

  /** Where reuses that were dealt with come from. */
  lemma ReusesComeFromRequests(s: State, e: Event)
    requires Enabled(s, e)
    ensures
      var s' := Step(s, e);
      if e.Invalidate? && s.requests[e.id].Deleted? then
        var r := s.requests[e.id];
        s'.reuses == s.reuses + [Reuse(r.userId, r.gone, r.kin, s.now)] && CutOff(s', r.userId, s.now)
      else s'.reuses == s.reuses
  {
    hide Rotated, WithToken, Revoked, OfUser, OfFamily, Claimable;
  }

  lemma StepKeepsReuses(s: State, e: Event)
    requires Enabled(s, e) && RowsSound(s) && OwnersSound(s) && ReusesSound(s) && SeenSound(s) && CutoffsInThePast(s)
    ensures ReusesSound(Step(s, e)) && CutoffsInThePast(Step(s, e))
  {
    hide Step, RowsSound, OwnersSound, SeenSound, Gone, CutOff, CutoffsInThePast;
    var s' := Step(s, e);
    CutoffsRise(s, e);
    RequestsComeFromSteps(s, e);
    ReusesComeFromRequests(s, e);
    StepKeepsRows(s, e);
    if e.Lookup? {
      FoundTokensAreIssued(s, e.id);
    }
    if e.DeleteAll? {
      DeletedTokensAreGone(s, e.id);
    }
    forall id | id in s.requests && s.requests[id].Deleted?
      ensures Gone(s', s.requests[id].gone) && Gone(s', s.requests[id].kin)
    {
      GoneStaysGone(s, e, s.requests[id].gone);
      GoneStaysGone(s, e, s.requests[id].kin);
    }
    forall i | 0 <= i < |s.reuses| ensures Gone(s', s.reuses[i].gone) && Gone(s', s.reuses[i].kin) {
      GoneStaysGone(s, e, s.reuses[i].gone);
      GoneStaysGone(s, e, s.reuses[i].kin);
    }
  }

  lemma FoundTokensAreIssued(s: State, id: nat)
    requires Enabled(s, Lookup(id)) && RowsSound(s)
    ensures
      var after := Step(s, Lookup(id));
      id in after.requests && after.requests[id].Reused? ==>
        after.requests[id].seen <= after.issued && after.requests[id].kin <= after.issued
  {
    hide OneLivePerFamily;
  }

  lemma DeletedTokensAreGone(s: State, id: nat)
    requires RowsSound(s) && OwnersSound(s) && ReusesSound(s) && SeenSound(s)
    requires Enabled(s, DeleteAll(id))
    ensures Gone(Step(s, DeleteAll(id)), Step(s, DeleteAll(id)).requests[id].gone)
    ensures Gone(Step(s, DeleteAll(id)), Step(s, DeleteAll(id)).requests[id].kin)
  {
    hide OneLivePerFamily, CutOff;
  }

  ghost predicate Sound(s: State) {
    RowsSound(s) && OwnersSound(s) && ClaimsSound(s) && ReusesSound(s) && SeenSound(s) && CutoffsInThePast(s)
  }

  ghost predicate Runnable(s: State, run: seq<Event>)
    decreases |run|
  {
    run == [] || (Enabled(s, run[0]) && Runnable(Step(s, run[0]), run[1..]))
  }

  ghost function Run(s: State, run: seq<Event>): State
    requires Runnable(s, run)
    decreases |run|
  {
    if run == [] then s else Run(Step(s, run[0]), run[1..])
  }

  function Start(now: int): State {
    State(now, map[], map[], map[], {}, map[], [], [], [])
  }

  lemma {:induction false} RunsStaySound(s: State, run: seq<Event>)
    requires Runnable(s, run) && Sound(s)
    ensures Sound(Run(s, run))
    decreases |run|
  {
    hide Step, Enabled, RowsSound, OwnersSound, ClaimsSound, ReusesSound, SeenSound, CutoffsInThePast;
    if run != [] {
      StepKeepsRows(s, run[0]);
      StepKeepsOwners(s, run[0]);
      StepKeepsClaims(s, run[0]);
      StepKeepsSeen(s, run[0]);
      StepKeepsReuses(s, run[0]);
      RunsStaySound(Step(s, run[0]), run[1..]);
    }
  }

  lemma StartIsSound(now: int)
    ensures Sound(Start(now))
  {
  }

  /** No token is claimed twice, and no sign-in has two working refresh tokens, in any interleaving. */
  lemma TokensAreClaimedOnce(now: int, run: seq<Event>)
    requires Runnable(Start(now), run)
    ensures NoRepeats(Run(Start(now), run).claims)
    ensures OneLivePerFamily(Run(Start(now), run).rows)
  {
    hide Runnable, Run;
    StartIsSound(now);
    RunsStaySound(Start(now), run);
  }

  predicate Accepted(s: State, a: Access) {
    a.userId in s.sessionsValidFrom ==> SessionIsCurrent(NumericDate(a.at), s.sessionsValidFrom[a.userId])
  }

  /** Every stored token belongs to the user who made the sign-in it descends from. */
  lemma TokensStayWithTheirUser(now: int, run: seq<Event>, h: Hash)
    requires Runnable(Start(now), run) && h in Run(Start(now), run).rows
    ensures
      var s := Run(Start(now), run);
      s.rows[h].family in s.signIns && s.signIns[s.rows[h].family] == s.rows[h].userId
  {
    hide Runnable, Run;
    StartIsSound(now);
    RunsStaySound(Start(now), run);
  }

  /** Once a reuse has been dealt with, no refresh token its user had when it was found or when the
      tokens were deleted can be claimed again, nor can any of the family it was found in, and an access token
      from before its cutoff is accepted only if it was issued less than a second before. */
  lemma ReuseEndsTheSessions(now: int, run: seq<Event>, i: nat, later: int, a: Access)
    requires Runnable(Start(now), run)
    requires i < |Run(Start(now), run).reuses|
    ensures
      var s := Run(Start(now), run);
      var reuse := s.reuses[i];
      && (forall h :: h in reuse.gone ==> !Claimable(s.rows, h, later))
      && (forall h :: h in reuse.kin ==> !Claimable(s.rows, h, later))
      && (a.userId == reuse.userId && a.at < reuse.cutoff && Accepted(s, a) ==> reuse.cutoff - a.at < SECOND)
  {
    hide Runnable, Run, RowsSound, OwnersSound, ClaimsSound, SeenSound, NumericDate, SessionIsCurrent;
    StartIsSound(now);
    RunsStaySound(Start(now), run);
    var s := Run(Start(now), run);
    assert Gone(s, s.reuses[i].gone) && Gone(s, s.reuses[i].kin);
    assert CutOff(s, s.reuses[i].userId, s.reuses[i].cutoff);
    if a.userId in s.sessionsValidFrom {
      SurvivesTheCutoff(a.at, s.sessionsValidFrom[a.userId]);
    }
  }

  /** Presenting a stored token that was claimed before starts all this: the claim fails, the lookup finds the
      reuse, and on the lists are exactly the tokens of its user and of its family. */
  lemma ReuseIsFound(s: State, id: nat, token: Hash, replacement: Hash)
    requires Enabled(s, Rotate(id, token, replacement))
    requires token in s.rows && s.rows[token].revokedAt.Some?
    ensures
      var failed := Step(s, Rotate(id, token, replacement));
      && Enabled(failed, Lookup(id))
      && var found := Step(failed, Lookup(id)).requests[id];
      && found.Reused? && found.userId == s.rows[token].userId
      && (forall h :: h in found.seen <==> h in s.rows && s.rows[h].userId == s.rows[token].userId)
      && (forall h :: h in found.kin <==> h in s.rows && s.rows[h].family == s.rows[token].family)
  {
  }

  ghost predicate LeavesAlone(run: seq<Event>, id: nat) {
    forall k :: 0 <= k < |run| ==>
      run[k] != Drop(id) && run[k] != Lookup(id) && run[k] != DeleteAll(id) && run[k] != Invalidate(id)
  }

  /** Only its own next step moves a request, whatever other requests do. */
  lemma {:induction false} RequestsWait(s: State, run: seq<Event>, id: nat)
    requires Runnable(s, run) && id in s.requests && LeavesAlone(run, id)
    ensures id in Run(s, run).requests && Run(s, run).requests[id] == s.requests[id]
    decreases |run|
  {
    if run != [] {
      assert run[0] != Drop(id) && run[0] != Lookup(id) && run[0] != DeleteAll(id) && run[0] != Invalidate(id);
      RequestsWait(Step(s, run[0]), run[1..], id);
    }
  }

  /** A found reuse that deletes and then invalidates is recorded, with what others did in between: the tokens it
      had found and those stored when it deleted, and the time it invalidated at as its cutoff. */
  lemma ReuseIsDealtWith(s: State, id: nat, run: seq<Event>)
    requires Enabled(s, DeleteAll(id)) && Runnable(Step(s, DeleteAll(id)), run) && LeavesAlone(run, id)
    ensures
      var found := s.requests[id];
      var before := Run(Step(s, DeleteAll(id)), run);
      && Enabled(before, Invalidate(id))
      && var reuses := Step(before, Invalidate(id)).reuses;
      && |reuses| == |before.reuses| + 1
      && var reuse := reuses[|before.reuses|];
      && reuse.userId == found.userId && reuse.cutoff == before.now
      && (forall h :: h in reuse.gone <==> h in found.seen || (h in s.rows && s.rows[h].userId == found.userId))
      && (forall h :: h in reuse.kin <==> h in found.kin || (h in s.rows && s.rows[h].family == found.family))
  {
    hide Runnable, Run, LeavesAlone;
    RequestsWait(Step(s, DeleteAll(id)), run, id);
  }

  /** Access tokens issued from the user's latest cutoff on are accepted. */
  lemma LaterSessionsWork(s: State, a: Access)
    requires a.userId in s.sessionsValidFrom ==> s.sessionsValidFrom[a.userId] <= a.at
    ensures Accepted(s, a)
  {
  }

  // --------------------------------------------------- what ends a token, and what does not

  ghost predicate Dead(s: State, h: Hash) {
    h in s.issued && !Unrevoked(s.rows, h)
  }

  lemma {:induction false} DeadTokensStayDead(s: State, run: seq<Event>, h: Hash)
    requires RowsSound(s) && Runnable(s, run) && Dead(s, h)
    ensures Dead(Run(s, run), h)
    decreases |run|
  {
    hide Step, Enabled, RowsSound, Unrevoked;
    if run != [] {
      StepKeepsRows(s, run[0]);
      DeadTokensStayDead(Step(s, run[0]), run[1..], h);
    }
  }

  lemma {:induction false} CutoffsStay(s: State, run: seq<Event>, userId: UserId, cutoff: int)
    requires Runnable(s, run) && CutOff(s, userId, cutoff) && CutoffsInThePast(s)
    ensures CutOff(Run(s, run), userId, cutoff)
    decreases |run|
  {
    if run != [] {
      CutoffsStay(Step(s, run[0]), run[1..], userId, cutoff);
    }
  }

  /** A new password ends every refresh token its user had, and every access token but those of the last
      second. */
  lemma NewPasswordsEndSessions(s: State, userId: UserId, run: seq<Event>, h: Hash, later: int, a: Access)
    requires Sound(s) && Runnable(Step(s, ChangePassword(userId)), run)
    ensures
      var end := Run(Step(s, ChangePassword(userId)), run);
      && (h in s.rows && s.rows[h].userId == userId ==> !Claimable(end.rows, h, later))
      && (a.userId == userId && a.at < s.now && Accepted(end, a) ==> s.now - a.at < SECOND)
  {
    hide Runnable, Run, OwnersSound, ClaimsSound, ReusesSound, SeenSound, NumericDate, SessionIsCurrent,
         OneLivePerFamily;
    var changed := Step(s, ChangePassword(userId));
    StepKeepsRows(s, ChangePassword(userId));
    if h in s.rows && s.rows[h].userId == userId {
      DeadTokensStayDead(changed, run, h);
    }
    CutoffsStay(changed, run, userId, s.now);
    var end := Run(changed, run);
    if a.userId in end.sessionsValidFrom {
      SurvivesTheCutoff(a.at, end.sessionsValidFrom[a.userId]);
    }
  }

  /** Signing out ends the token it is done with, and goes on to cut off the user of one that was not revoked. */
  lemma SigningOutEndsTheToken(s: State, id: nat, token: Hash, run: seq<Event>, later: int)
    requires Sound(s) && Enabled(s, SignOut(id, token)) && token in s.rows
    requires Runnable(Step(s, SignOut(id, token)), run)
    ensures !Claimable(Run(Step(s, SignOut(id, token)), run).rows, token, later)
    ensures
      var after := Step(s, SignOut(id, token));
      if s.rows[token].revokedAt.None?
      then Enabled(after, Invalidate(id)) && after.requests[id].userId == s.rows[token].userId
      else after == s
  {
    hide Runnable, Run, OwnersSound, ClaimsSound, ReusesSound, SeenSound, OneLivePerFamily;
    StepKeepsRows(s, SignOut(id, token));
    DeadTokensStayDead(Step(s, SignOut(id, token)), run, token);
  }

  /** A token that was just issued, by a sign-in or a rotation, works for thirty days. */
  lemma NewTokensWork(s: State, e: Event, later: int)
    requires Enabled(s, e) && (e.SignIn? || (e.Rotate? && Claimable(s.rows, e.token, s.now)))
    ensures
      var token := if e.SignIn? then e.token else e.replacement;
      Claimable(Step(s, e).rows, token, later) <==> later < s.now + 30 * 24 * HOUR
  {
  }

  /** Of two rotations with one token, however far apart, the second gets nothing. */
  lemma SecondRotationFails(
      s: State, id: nat, token: Hash, replacement: Hash, run: seq<Event>, again: nat, other: Hash)
    requires Sound(s) && Enabled(s, Rotate(id, token, replacement))
    requires replacement in Step(s, Rotate(id, token, replacement)).rows
    requires Runnable(Step(s, Rotate(id, token, replacement)), run)
    requires Enabled(Run(Step(s, Rotate(id, token, replacement)), run), Rotate(again, token, other))
    ensures
      var before := Run(Step(s, Rotate(id, token, replacement)), run);
      var after := Step(before, Rotate(again, token, other));
      && other !in after.rows && after.access == before.access && after.claims == before.claims
      && again in after.requests && after.requests[again] == Unclaimable(token)
  {
    hide Runnable, Run, OwnersSound, ClaimsSound, ReusesSound, SeenSound, CutoffsInThePast, OneLivePerFamily;
    var claimed := Step(s, Rotate(id, token, replacement));
    StepKeepsRows(s, Rotate(id, token, replacement));
    DeadTokensStayDead(claimed, run, token);
    RunsStaySound(claimed, run) by {
      StepKeepsOwners(s, Rotate(id, token, replacement));
      StepKeepsClaims(s, Rotate(id, token, replacement));
      StepKeepsSeen(s, Rotate(id, token, replacement));
      StepKeepsReuses(s, Rotate(id, token, replacement));
    }
  }

  /** The access token that comes with a refresh token is for the same user, and it is accepted at once. */
  lemma NewAccessIsAccepted(s: State, e: Event)
    requires Sound(s) && Enabled(s, e) && (e.SignIn? || (e.Rotate? && Claimable(s.rows, e.token, s.now)))
    ensures
      var after := Step(s, e);
      var token := if e.SignIn? then e.token else e.replacement;
      && |after.access| == |s.access| + 1
      && after.access[|s.access|] == Access(after.rows[token].userId, s.now)
      && Accepted(after, after.access[|s.access|])
      && after.claims == if e.Rotate? then s.claims + [e.token] else s.claims
  {
    hide RowsSound, OwnersSound, ClaimsSound, ReusesSound, SeenSound;
    LaterSessionsWork(Step(s, e), Access(if e.SignIn? then e.userId else s.rows[e.token].userId, s.now));
  }

  /** Neither presents the token nor ends its user's sessions. */
  ghost predicate Spares(s: State, e: Event, token: Hash) {
    && token in s.rows
    && (e.Rotate? ==> e.token != token)
    && (e.SignOut? ==> e.token != token)
    && (e.DeleteAll? && e.id in s.requests && s.requests[e.id].Reused? ==>
          s.requests[e.id].userId != s.rows[token].userId)
    && (e.ChangePassword? ==> e.userId != s.rows[token].userId)
  }

  ghost predicate AllSpare(s: State, run: seq<Event>, token: Hash)
    requires Runnable(s, run)
    decreases |run|
  {
    run == [] || (Spares(s, run[0], token) && AllSpare(Step(s, run[0]), run[1..], token))
  }

  /** And until something of its own user does, nothing that others do changes it. */
  lemma {:induction false} TokensWorkUntilUsed(s: State, run: seq<Event>, token: Hash)
    requires RowsSound(s) && Runnable(s, run) && token in s.rows && AllSpare(s, run, token)
    ensures token in Run(s, run).rows && Run(s, run).rows[token] == s.rows[token]
    decreases |run|
  {
    hide OneLivePerFamily;
    if run != [] {
      StepKeepsRows(s, run[0]);
      TokensWorkUntilUsed(Step(s, run[0]), run[1..], token);
    }
  }

  /** Whatever moved a user's cutoff, a sign-out included: access tokens from a second or more before it are not
      accepted again. */
  lemma CutoffsEndAccess(s: State, id: nat, run: seq<Event>, a: Access)
    requires Sound(s) && Enabled(s, Invalidate(id)) && Runnable(Step(s, Invalidate(id)), run)
    ensures a.userId == s.requests[id].userId && a.at < s.now && Accepted(Run(Step(s, Invalidate(id)), run), a)
      ==> s.now - a.at < SECOND
  {
    hide Runnable, Run, RowsSound, OwnersSound, ClaimsSound, ReusesSound, SeenSound, NumericDate, SessionIsCurrent;
    var cut := Step(s, Invalidate(id));
    CutoffsStay(cut, run, s.requests[id].userId, s.now);
    var end := Run(cut, run);
    if a.userId in end.sessionsValidFrom {
      SurvivesTheCutoff(a.at, end.sessionsValidFrom[a.userId]);
    }
  }
}
