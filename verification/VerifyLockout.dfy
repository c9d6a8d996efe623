/** Verification codes and the account lockout: internal/email/verify.go and its statements.

Times are nanoseconds. An attempt is one atomic step; a code stands for its hash.
*/
module VerifyLockout {
  import opened Durations
  import opened Outcomes

  const CODE_LIFETIME: int := 10 * MINUTE
  const VERIFY_LOCKOUT: int := 15 * MINUTE
  const MAX_VERIFICATION_ATTEMPTS: int := 5
  const MAX_ACCOUNT_VERIFY_ATTEMPTS: int := 10

  datatype Purpose = EmailVerify | EmailUpdate

  datatype Token = Token(purpose: Purpose, code: int, expiresAt: int, attempts: int)

  /** One user's counters and verification_token rows, oldest first. */
  datatype Account = Account(verifyAttempts: int, verifyLockedUntil: Option<int>, tokens: seq<Token>)

  datatype Outcome = LockedOut | NoToken | WrongCode | RightCode

  predicate IsVerifyLocked(a: Account, now: int) {
    a.verifyLockedUntil.Some? && a.verifyLockedUntil.value > now
  }

  function WithoutPurpose(tokens: seq<Token>, purpose: Purpose): seq<Token> {
    if tokens == [] then []
    else (if tokens[0].purpose == purpose then [] else [tokens[0]]) + WithoutPurpose(tokens[1..], purpose)
  }

  /** FindUnexpiredToken: the position of the newest usable row, or -1. */
  function FindUnexpired(tokens: seq<Token>, purpose: Purpose, now: int): (r: int)
    ensures -1 <= r < |tokens|
    ensures r >= 0 ==> tokens[r].purpose == purpose && tokens[r].expiresAt > now
    ensures forall k :: r < k < |tokens| ==> !(tokens[k].purpose == purpose && tokens[k].expiresAt > now)
  {
    if tokens == [] then -1
    else
      var n := |tokens| - 1;
      if tokens[n].purpose == purpose && tokens[n].expiresAt > now then n
      else FindUnexpired(tokens[..n], purpose, now)
  }

  function Removed(tokens: seq<Token>, i: int): seq<Token>
    requires 0 <= i < |tokens|
  {
    tokens[..i] + tokens[i + 1..]
  }

  /** sendCode: silent when locked out or over budget, otherwise it replaces the code. */
  function AfterSend(a: Account, purpose: Purpose, code: int, now: int, hasBudget: bool): Account {
    if IsVerifyLocked(a, now) || !hasBudget then a
    else a.(tokens := WithoutPurpose(a.tokens, purpose) + [Token(purpose, code, now + CODE_LIFETIME, 0)])
  }

  /** RecordFailedVerifyAttempt: both CASE expressions read the count before the increment. */
  function AfterFailedVerify(a: Account, now: int): Account {
    if a.verifyAttempts + 1 >= MAX_ACCOUNT_VERIFY_ATTEMPTS
    then a.(verifyAttempts := 0, verifyLockedUntil := Some(now + VERIFY_LOCKOUT))
    else a.(verifyAttempts := a.verifyAttempts + 1)
  }

  function AfterFailedToken(tokens: seq<Token>, i: int): seq<Token>
    requires 0 <= i < |tokens|
  {
    var attempts := tokens[i].attempts + 1;
    if attempts >= MAX_VERIFICATION_ATTEMPTS then Removed(tokens, i)
    else tokens[i := tokens[i].(attempts := attempts)]
  }

  function TryOutcome(a: Account, code: int, purpose: Purpose, now: int): Outcome {
    var i := FindUnexpired(a.tokens, purpose, now);
    if IsVerifyLocked(a, now) then LockedOut
    else if i < 0 then NoToken
    else if a.tokens[i].code != code then WrongCode
    else RightCode
  }

  function AfterTry(a: Account, code: int, purpose: Purpose, now: int): Account {
    var i := FindUnexpired(a.tokens, purpose, now);
    match TryOutcome(a, code, purpose, now)
    case LockedOut => a
    case NoToken => a
    case WrongCode => AfterFailedVerify(a, now).(tokens := AfterFailedToken(a.tokens, i))
    case RightCode => Account(0, None, Removed(a.tokens, i))
  }

  class VerifyAccount {
    var verifyAttempts: int
    var verifyLockedUntil: Option<int>
    var tokens: seq<Token>

    constructor ()
      ensures View() == Account(0, None, [])
    {
      verifyAttempts, verifyLockedUntil, tokens := 0, None, [];
    }

    function View(): Account
      reads this
    {
      Account(verifyAttempts, verifyLockedUntil, tokens)
    }

    method DeleteExistingTokensWithPurpose(purpose: Purpose)
      modifies this`tokens
      ensures tokens == WithoutPurpose(old(tokens), purpose)
    {
      tokens := WithoutPurpose(tokens, purpose);
    }

    method SendCode(purpose: Purpose, code: int, now: int, hasBudget: bool) returns (sent: bool)
      modifies this
      ensures sent <==> !IsVerifyLocked(old(View()), now) && hasBudget
      ensures View() == AfterSend(old(View()), purpose, code, now, hasBudget)
    {
      if verifyLockedUntil.Some? && verifyLockedUntil.value > now {
        return false;
      }
      if !hasBudget {
        return false;
      }
      DeleteExistingTokensWithPurpose(purpose);
      tokens := tokens + [Token(purpose, code, now + CODE_LIFETIME, 0)];
      return true;
    }

    method RecordFailedVerifyAttempt(now: int)
      modifies this`verifyAttempts, this`verifyLockedUntil
      ensures View() == AfterFailedVerify(old(View()), now)
    {
      if verifyAttempts + 1 >= MAX_ACCOUNT_VERIFY_ATTEMPTS {
        verifyAttempts, verifyLockedUntil := 0, Some(now + VERIFY_LOCKOUT);
      } else {
        verifyAttempts := verifyAttempts + 1;
      }
    }

    /** The count goes up, and the fifth wrong code costs the row its life. */
    method RecordFailedTokenAttempt(i: int)
      requires 0 <= i < |tokens|
      modifies this`tokens
      ensures tokens == AfterFailedToken(old(tokens), i)
    {
      var attempts := tokens[i].attempts + 1;
      tokens := tokens[i := tokens[i].(attempts := attempts)];
      if attempts >= MAX_VERIFICATION_ATTEMPTS {
        DeleteVerificationToken(i);
      }
    }

    method DeleteVerificationToken(i: int)
      requires 0 <= i < |tokens|
      modifies this`tokens
      ensures tokens == Removed(old(tokens), i)
    {
      tokens := tokens[..i] + tokens[i + 1..];
    }

    method TryToUseToken(code: int, purpose: Purpose, now: int) returns (outcome: Outcome)
      modifies this
      ensures outcome == TryOutcome(old(View()), code, purpose, now)
      ensures View() == AfterTry(old(View()), code, purpose, now)
    {
      hide FindUnexpired, AfterFailedToken, AfterFailedVerify, Removed;
      if verifyLockedUntil.Some? && verifyLockedUntil.value > now {
        return LockedOut;
      }
      var i := FindUnexpired(tokens, purpose, now);
      if i < 0 {
        return NoToken;
      }
      if tokens[i].code != code {
        RecordFailedVerifyAttempt(now);
        RecordFailedTokenAttempt(i);
        return WrongCode;
      }
      DeleteVerificationToken(i);
      verifyAttempts, verifyLockedUntil := 0, None;
      return RightCode;
    }
  }

  datatype Event =
    | Send(purpose: Purpose, code: int, now: int, hasBudget: bool)
    | Try(purpose: Purpose, code: int, now: int)

  function Step(a: Account, e: Event): Account {
    match e
    case Send(purpose, code, now, hasBudget) => AfterSend(a, purpose, code, now, hasBudget)
    case Try(purpose, code, now) => AfterTry(a, code, purpose, now)
  }

  function Run(a: Account, run: seq<Event>): Account
    decreases |run|
  {
    if run == [] then a else Run(Step(a, run[0]), run[1..])
  }

  predicate OneTokenPerPurpose(tokens: seq<Token>) {
    forall i, j :: 0 <= i < j < |tokens| ==> tokens[i].purpose != tokens[j].purpose
  }

  predicate Consistent(a: Account) {
    && 0 <= a.verifyAttempts < MAX_ACCOUNT_VERIFY_ATTEMPTS
    && (forall i :: 0 <= i < |a.tokens| ==> 0 <= a.tokens[i].attempts < MAX_VERIFICATION_ATTEMPTS)
    && OneTokenPerPurpose(a.tokens)
  }

  lemma {:induction false} WithoutPurposeKeeps(tokens: seq<Token>, purpose: Purpose)
    ensures forall t :: t in WithoutPurpose(tokens, purpose) <==> t in tokens && t.purpose != purpose
    ensures OneTokenPerPurpose(tokens) ==> OneTokenPerPurpose(WithoutPurpose(tokens, purpose))
  {
    if tokens != [] {
      WithoutPurposeKeeps(tokens[1..], purpose);
      var rest := WithoutPurpose(tokens[1..], purpose);
      if OneTokenPerPurpose(tokens) {
        assert forall t :: t in tokens[1..] ==> t.purpose != tokens[0].purpose;
        assert forall i :: 0 <= i < |rest| ==> rest[i] in rest;
      }
    }
  }

  lemma StepKeepsConsistent(a: Account, e: Event)
    requires Consistent(a)
    ensures Consistent(Step(a, e))
  {
    if e.Send? {
      WithoutPurposeKeeps(a.tokens, e.purpose);
      var rest := WithoutPurpose(a.tokens, e.purpose);
      assert forall i :: 0 <= i < |rest| ==> rest[i] in rest;
    }
  }

  /** Always: fewer than ten counted attempts, fewer than five on any live code, and one code at most
      for each purpose. */
  lemma {:induction false} RunsStayConsistent(a: Account, run: seq<Event>)
    requires Consistent(a)
    ensures Consistent(Run(a, run))
    decreases |run|
  {
    if run != [] {
      StepKeepsConsistent(a, run[0]);
      RunsStayConsistent(Step(a, run[0]), run[1..]);
    }
  }

  /** How many wrong codes were compared against a live one. */
  function WrongGuesses(a: Account, run: seq<Event>): nat
    decreases |run|
  {
    if run == [] then 0
    else (if run[0].Try? && TryOutcome(a, run[0].code, run[0].purpose, run[0].now).WrongCode? then 1 else 0)
         + WrongGuesses(Step(a, run[0]), run[1..])
  }

  predicate NeverRight(a: Account, run: seq<Event>)
    decreases |run|
  {
    run == [] || (
      && !(run[0].Try? && TryOutcome(a, run[0].code, run[0].purpose, run[0].now).RightCode?)
      && NeverRight(Step(a, run[0]), run[1..]))
  }

  predicate Within(run: seq<Event>, from: int, till: int) {
    && (forall i :: 0 <= i < |run| ==> from <= run[i].now <= till)
    && (forall i, j :: 0 <= i < j < |run| ==> run[i].now <= run[j].now)
  }

  /** From when a code can be compared again. */
  function OpenFrom(a: Account, from: int): int {
    if IsVerifyLocked(a, from) then a.verifyLockedUntil.value else from
  }

  /** The guesses an account still has up to `till`. */
  function Allowance(a: Account, from: int, till: int): int {
    if OpenFrom(a, from) > till then 0
    else MAX_ACCOUNT_VERIFY_ATTEMPTS * ((till - OpenFrom(a, from)) / VERIFY_LOCKOUT + 1) - a.verifyAttempts
  }

  lemma LockoutPeriods(x: int, y: int)
    requires x <= y
    ensures x / VERIFY_LOCKOUT <= y / VERIFY_LOCKOUT
    ensures (y - VERIFY_LOCKOUT) / VERIFY_LOCKOUT == y / VERIFY_LOCKOUT - 1
  {
  }

  lemma StepSpendsAllowance(a: Account, e: Event, from: int, till: int)
    requires Consistent(a) && from <= e.now <= till
    requires !(e.Try? && TryOutcome(a, e.code, e.purpose, e.now).RightCode?)
    ensures Allowance(a, from, till) >= 0
    ensures
      Allowance(Step(a, e), e.now, till)
      + (if e.Try? && TryOutcome(a, e.code, e.purpose, e.now).WrongCode? then 1 else 0)
      <= Allowance(a, from, till)
  {
    hide FindUnexpired, AfterFailedToken, WithoutPurpose;
    var open, now := OpenFrom(a, from), e.now;
    if open <= till {
      LockoutPeriods(0, till - open);
      LockoutPeriods(till - (if now > open then now else open), till - open);
      LockoutPeriods(till - now, till - open + (if now < open then open - now else 0));
    }
  }

  lemma {:induction false} GuessesAgainstAllowance(a: Account, run: seq<Event>, from: int, till: int)
    requires Consistent(a) && from <= till && Within(run, from, till) && NeverRight(a, run)
    ensures WrongGuesses(a, run) <= Allowance(a, from, till)
    decreases |run|
  {
    hide Step, TryOutcome, Allowance, Consistent;
    if run != [] {
      StepKeepsConsistent(a, run[0]);
      StepSpendsAllowance(a, run[0], from, till);
      GuessesAgainstAllowance(Step(a, run[0]), run[1..], run[0].now, till);
    } else {
      AllowanceNotNegative(a, from, till);
    }
  }

  lemma AllowanceNotNegative(a: Account, from: int, till: int)
    requires Consistent(a)
    ensures Allowance(a, from, till) >= 0
  {
  }

  /** Guessing is bounded by the account: ten wrong codes, and ten more for every quarter of an hour,
      however many codes are asked for and whatever they are for. */
  lemma GuessesAreBounded(a: Account, run: seq<Event>, from: int, till: int)
    requires Consistent(a) && a.verifyAttempts == 0
    requires from <= till && Within(run, from, till) && NeverRight(a, run)
    ensures WrongGuesses(a, run) <= MAX_ACCOUNT_VERIFY_ATTEMPTS * ((till - from) / VERIFY_LOCKOUT + 1)
  {
    GuessesAgainstAllowance(a, run, from, till);
    if OpenFrom(a, from) <= till {
      LockoutPeriods(till - OpenFrom(a, from), till - from);
    } else {
      LockoutPeriods(0, till - from);
    }
  }

  /** A code that was just sent works until it expires, and any code sent before for that purpose is dead. */
  lemma NewCodeReplacesTheOld(a: Account, purpose: Purpose, code: int, now: int, tried: int, later: int)
    requires Consistent(a) && !IsVerifyLocked(a, now) && now <= later
    ensures TryOutcome(AfterSend(a, purpose, code, now, true), tried, purpose, later)
         == if later >= now + 10 * MINUTE then NoToken else if tried == code then RightCode else WrongCode
  {
    hide FindUnexpired, WithoutPurpose;
    WithoutPurposeKeeps(a.tokens, purpose);
    var rest := WithoutPurpose(a.tokens, purpose);
    assert forall i :: 0 <= i < |rest| ==> rest[i] in rest;
    var tokens := rest + [Token(purpose, code, now + CODE_LIFETIME, 0)];
    assert tokens[|rest|].purpose == purpose;
    assert FindUnexpired(tokens, purpose, later) == if later < now + CODE_LIFETIME then |rest| else -1;
  }

  /** A right code is spent: no code of that purpose is left, and the counters start over. */
  lemma CodesWorkOnce(a: Account, code: int, purpose: Purpose, now: int, tried: int, later: int)
    requires Consistent(a) && TryOutcome(a, code, purpose, now).RightCode?
    ensures TryOutcome(AfterTry(a, code, purpose, now), tried, purpose, later) == NoToken
    ensures AfterTry(a, code, purpose, now).verifyAttempts == 0
  {
  }

  // ------------------------------------------------------------ a code's own budget

  /** The wrong codes compared with the one live for `purpose`. */
  function WrongTries(a: Account, run: seq<Event>, purpose: Purpose): nat
    decreases |run|
  {
    if run == [] then 0
    else
      (if run[0].Try? && run[0].purpose == purpose
          && TryOutcome(a, run[0].code, purpose, run[0].now).WrongCode? then 1 else 0)
      + WrongTries(Step(a, run[0]), run[1..], purpose)
  }

  /** No new code for the purpose, and no right one. */
  predicate OnlyWrong(run: seq<Event>, purpose: Purpose, code: int) {
    forall i :: 0 <= i < |run| && run[i].purpose == purpose ==> run[i].Try? && run[i].code != code
  }

  /** The one code for a purpose, tried `n` times in vain, or gone for good. */
  predicate TriedInVain(a: Account, purpose: Purpose, code: int, expiresAt: int, n: nat) {
    if n < 5 then Token(purpose, code, expiresAt, n) in a.tokens
    else n == 5 && forall t :: t in a.tokens ==> t.purpose != purpose
  }

  lemma StepTriesInVain(a: Account, e: Event, purpose: Purpose, code: int, expiresAt: int, n: nat)
    requires Consistent(a) && TriedInVain(a, purpose, code, expiresAt, n) && e.now < expiresAt
    requires e.purpose == purpose ==> e.Try? && e.code != code
    ensures
      var wrong := e.Try? && e.purpose == purpose && TryOutcome(a, e.code, purpose, e.now).WrongCode?;
      TriedInVain(Step(a, e), purpose, code, expiresAt, if wrong then n + 1 else n)
  {
    hide FindUnexpired, WithoutPurpose, AfterFailedToken, Removed, OneTokenPerPurpose;
    if e.Send? {
      WithoutPurposeKeeps(a.tokens, e.purpose);
    } else {
      TryTouchesOneToken(a, e.code, e.purpose, e.now);
      if e.purpose == purpose && n < 5 {
        FoundIsTheOne(a.tokens, purpose, e.now, Token(purpose, code, expiresAt, n));
      }
    }
  }

  lemma FoundIsTheOne(tokens: seq<Token>, purpose: Purpose, now: int, t: Token)
    requires OneTokenPerPurpose(tokens) && t in tokens && t.purpose == purpose && t.expiresAt > now
    ensures
      var i := FindUnexpired(tokens, purpose, now);
      i >= 0 && tokens[i] == t
  {
    hide FindUnexpired;
    var k :| 0 <= k < |tokens| && tokens[k] == t;
  }

  lemma RemovedKeepsTheRest(tokens: seq<Token>, i: int)
    requires 0 <= i < |tokens| && OneTokenPerPurpose(tokens)
    ensures forall t :: t in Removed(tokens, i) <==> t in tokens && t.purpose != tokens[i].purpose
  {
    var rest := Removed(tokens, i);
    forall k | 0 <= k < |tokens| && k != i ensures tokens[k] in rest && tokens[k].purpose != tokens[i].purpose {
      assert tokens[k] == rest[if k < i then k else k - 1];
    }
    forall k | 0 <= k < |rest| ensures rest[k] in tokens && rest[k].purpose != tokens[i].purpose {
      assert rest[k] == tokens[if k < i then k else k + 1];
    }
  }

  lemma UpdatedKeepsTheRest(tokens: seq<Token>, i: int, u: Token)
    requires 0 <= i < |tokens| && OneTokenPerPurpose(tokens) && u.purpose == tokens[i].purpose
    ensures forall t :: t in tokens[i := u] <==> t == u || (t in tokens && t.purpose != u.purpose)
  {
    var after := tokens[i := u];
    assert after[i] == u;
    forall k | 0 <= k < |tokens| && k != i ensures tokens[k] in after && tokens[k].purpose != u.purpose {
      assert after[k] == tokens[k];
    }
  }

  /** A try takes one code away, counts one up, or leaves them all. */
  lemma TryTouchesOneToken(a: Account, code: int, purpose: Purpose, now: int)
    requires Consistent(a)
    ensures
      var i := FindUnexpired(a.tokens, purpose, now);
      var after := AfterTry(a, code, purpose, now).tokens;
      && (TryOutcome(a, code, purpose, now).LockedOut? || i < 0 ==> after == a.tokens)
      && (forall t :: t in a.tokens && t.purpose != purpose ==> t in after)
      && (forall t :: t in after && t.purpose != purpose ==> t in a.tokens)
      && (i >= 0 && TryOutcome(a, code, purpose, now).WrongCode? ==>
            var t := a.tokens[i];
            && (t.attempts + 1 < 5 ==> t.(attempts := t.attempts + 1) in after)
            && (t.attempts + 1 >= 5 ==> forall u :: u in after ==> u.purpose != purpose))
  {
    hide FindUnexpired, Removed, OneTokenPerPurpose;
    var i := FindUnexpired(a.tokens, purpose, now);
    if i >= 0 {
      var t := a.tokens[i];
      RemovedKeepsTheRest(a.tokens, i);
      UpdatedKeepsTheRest(a.tokens, i, t.(attempts := t.attempts + 1));
    }
  }

  lemma {:induction false} RunsTryInVain(a: Account, run: seq<Event>, purpose: Purpose, code: int, expiresAt: int,
                                         n: nat)
    requires Consistent(a) && TriedInVain(a, purpose, code, expiresAt, n)
    requires OnlyWrong(run, purpose, code) && forall i :: 0 <= i < |run| ==> run[i].now < expiresAt
    ensures TriedInVain(Run(a, run), purpose, code, expiresAt, n + WrongTries(a, run, purpose))
    decreases |run|
  {
    hide Step, TryOutcome, TriedInVain, Consistent;
    if run != [] {
      StepKeepsConsistent(a, run[0]);
      StepTriesInVain(a, run[0], purpose, code, expiresAt, n);
      var wrong := run[0].Try? && run[0].purpose == purpose
                   && TryOutcome(a, run[0].code, purpose, run[0].now).WrongCode?;
      RunsTryInVain(Step(a, run[0]), run[1..], purpose, code, expiresAt, if wrong then n + 1 else n);
    }
  }

  /** A code stands four wrong tries and dies of the fifth. Whatever else is tried and sent meanwhile, once the
      account is not locked: after fewer than five the code is right, after five there is none, and there
      are never more. */
  lemma CodesStandFourWrongTries(a: Account, purpose: Purpose, code: int, now: int, run: seq<Event>, later: int)
    requires Consistent(a) && !IsVerifyLocked(a, now)
    requires OnlyWrong(run, purpose, code)
    requires (forall i :: 0 <= i < |run| ==> run[i].now < now + CODE_LIFETIME) && later < now + CODE_LIFETIME
    requires !IsVerifyLocked(Run(AfterSend(a, purpose, code, now, true), run), later)
    ensures
      var sent := AfterSend(a, purpose, code, now, true);
      var n := WrongTries(sent, run, purpose);
      n <= 5 && TryOutcome(Run(sent, run), code, purpose, later) == if n < 5 then RightCode else NoToken
  {
    hide FindUnexpired, Run, WrongTries, WithoutPurpose, OnlyWrong;
    var sent := AfterSend(a, purpose, code, now, true);
    StepKeepsConsistent(a, Send(purpose, code, now, true));
    assert sent.tokens[|sent.tokens| - 1] == Token(purpose, code, now + CODE_LIFETIME, 0);
    RunsTryInVain(sent, run, purpose, code, now + CODE_LIFETIME, 0);
    RunsStayConsistent(sent, run);
  }

  /** What is sent or tried for one purpose does not touch the code of the other, short of a lockout. */
  lemma OtherPurposeIsLeftAlone(a: Account, e: Event, purpose: Purpose, tried: int, later: int)
    requires Consistent(a) && e.purpose != purpose
    requires !IsVerifyLocked(a, later) && !IsVerifyLocked(Step(a, e), later)
    ensures TryOutcome(Step(a, e), tried, purpose, later) == TryOutcome(a, tried, purpose, later)
  {
    hide FindUnexpired, WithoutPurpose, AfterFailedToken, Removed;
    StepKeepsConsistent(a, e);
    var after := Step(a, e).tokens;
    if e.Send? {
      WithoutPurposeKeeps(a.tokens, e.purpose);
    } else {
      TryTouchesOneToken(a, e.code, e.purpose, e.now);
    }
    assert forall t: Token :: t.purpose == purpose ==> (t in after <==> t in a.tokens);
    SameLiveCode(a.tokens, after, purpose, later);
  }

  lemma SameLiveCode(tokens: seq<Token>, after: seq<Token>, purpose: Purpose, now: int)
    requires OneTokenPerPurpose(tokens) && OneTokenPerPurpose(after)
    requires forall t: Token :: t.purpose == purpose ==> (t in after <==> t in tokens)
    ensures
      var i, j := FindUnexpired(tokens, purpose, now), FindUnexpired(after, purpose, now);
      (i < 0 <==> j < 0) && (i >= 0 ==> tokens[i] == after[j])
  {
    hide FindUnexpired;
    var i, j := FindUnexpired(tokens, purpose, now), FindUnexpired(after, purpose, now);
    if i >= 0 {
      assert tokens[i] in after;
    }
    if j >= 0 {
      assert after[j] in tokens;
    }
  }

  // ----------------------------------------------------------------------- the lockout

  /** An account counts every wrong code, for whatever purpose and however many are sent, and does not lock
      before the tenth. */
  lemma {:induction false} WrongCodesAreCounted(a: Account, run: seq<Event>, from: int, till: int)
    requires Consistent(a) && from <= till && Within(run, from, till) && NeverRight(a, run)
    requires !IsVerifyLocked(a, from) && a.verifyAttempts + WrongGuesses(a, run) < 10
    ensures Run(a, run).verifyAttempts == a.verifyAttempts + WrongGuesses(a, run)
    ensures !IsVerifyLocked(Run(a, run), till)
    decreases |run|
  {
    hide Step, TryOutcome;
    if run != [] {
      StepKeepsConsistent(a, run[0]);
      StepCounts(a, run[0], from);
      WrongCodesAreCounted(Step(a, run[0]), run[1..], run[0].now, till);
    }
  }

  /** With the tenth it is locked, for exactly fifteen minutes. */
  lemma TenthWrongCodeLocks(a: Account, run: seq<Event>, from: int, till: int, e: Event, later: int)
    requires Consistent(a) && from <= till && Within(run, from, till) && NeverRight(a, run)
    requires !IsVerifyLocked(a, from) && a.verifyAttempts + WrongGuesses(a, run) == 9
    requires e.Try? && till <= e.now && TryOutcome(Run(a, run), e.code, e.purpose, e.now).WrongCode?
    ensures IsVerifyLocked(Step(Run(a, run), e), later) <==> later < e.now + 15 * MINUTE
    ensures Step(Run(a, run), e).verifyAttempts == 0
  {
    hide Step, TryOutcome, Run, WrongGuesses, NeverRight;
    WrongCodesAreCounted(a, run, from, till);
    RunsStayConsistent(a, run);
    StepCounts(Run(a, run), e, till);
  }

  lemma StepCounts(a: Account, e: Event, from: int)
    requires Consistent(a) && from <= e.now && !IsVerifyLocked(a, from)
    requires !(e.Try? && TryOutcome(a, e.code, e.purpose, e.now).RightCode?)
    ensures
      var wrong := e.Try? && TryOutcome(a, e.code, e.purpose, e.now).WrongCode?;
      && (!wrong ==>
            Step(a, e).verifyAttempts == a.verifyAttempts && Step(a, e).verifyLockedUntil == a.verifyLockedUntil)
      && (wrong && a.verifyAttempts + 1 < 10 ==>
            Step(a, e).verifyAttempts == a.verifyAttempts + 1 && !IsVerifyLocked(Step(a, e), e.now))
      && (wrong && a.verifyAttempts + 1 == 10 ==>
            Step(a, e).verifyAttempts == 0 && Step(a, e).verifyLockedUntil == Some(e.now + 15 * MINUTE))
  {
    hide FindUnexpired, AfterFailedToken, WithoutPurpose, Removed;
  }

  /** While an account is locked nothing that is sent or tried changes it, a right code included. */
  lemma {:induction false} LockedAccountsStandStill(a: Account, run: seq<Event>, till: int)
    requires IsVerifyLocked(a, till) && forall i :: 0 <= i < |run| ==> run[i].now <= till
    ensures Run(a, run) == a
    decreases |run|
  {
    if run != [] {
      LockedAccountsStandStill(a, run[1..], till);
    }
  }

  /** A send that is refused for its budget leaves the code in the inbox working. */
  lemma RefusedSendsLeaveTheCode(a: Account, purpose: Purpose, code: int, now: int, tried: int, later: int)
    ensures TryOutcome(AfterSend(a, purpose, code, now, false), tried, purpose, later)
         == TryOutcome(a, tried, purpose, later)
  {
  }
}
