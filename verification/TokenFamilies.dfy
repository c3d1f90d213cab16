/**
 Refresh tokens: a login starts a family, every refresh replaces the family's
 one live token, and presenting a token already used up ends the family.
 */
module TokenFamilies {
  import opened Common

  datatype Token = Token(user: string, family: string, expiresAt: int, rotatedAt: Option<int>, revokedAt: Option<int>) {
    /** Neither exchanged nor withdrawn. */
    predicate Live() {
      rotatedAt.None? && revokedAt.None?
    }

    predicate Usable(now: int) {
      rotatedAt.None? && revokedAt.None? && now < expiresAt
    }

    predicate Compromised() {
      rotatedAt.Some? || revokedAt.Some?
    }
  }

  /** Stored tokens by the hash of their secret; hashes do not collide. */
  type Store = map<string, Token>

  // ---------------------------------------------------- the store's operations

  function MarkRotated(tokens: Store, h: string, now: int): Store {
    if h in tokens then tokens[h := tokens[h].(rotatedAt := Some(now))] else tokens
  }

  /** Revoking keeps the time of an earlier revocation. */
  function Withdrawn(t: Token, now: int): Token {
    if t.revokedAt.None? then t.(revokedAt := Some(now)) else t
  }

  function Revoke(tokens: Store, h: string, now: int): Store {
    if h in tokens then tokens[h := Withdrawn(tokens[h], now)] else tokens
  }

  function RevokeFamily(tokens: Store, family: string, now: int): Store {
    map h | h in tokens :: if tokens[h].family == family then Withdrawn(tokens[h], now) else tokens[h]
  }

  function RevokeUser(tokens: Store, user: string, now: int): Store {
    map h | h in tokens :: if tokens[h].user == user then Withdrawn(tokens[h], now) else tokens[h]
  }

  function Insert(tokens: Store, h: string, t: Token): Store {
    tokens[h := t]
  }

  // ------------------------------------------------------------- the operations

  /** What the repositories, the identity checks and the token issuer answer; any may fail. */
  datatype Checks = Checks(mayLogin: bool, rolesRead: bool, rotated: bool, inserted: bool, familyRevoked: bool)

  datatype Step =
    | Login(user: string, family: string, issued: string, expiresAt: int, ok: Checks)
    | Refresh(presented: string, issued: string, expiresAt: int, now: int, ok: Checks)
    | Logout(presented: string, now: int, revoked: bool)
    | Withdraw(user: string, now: int)

  function AfterLogin(tokens: Store, s: Step): Store
    requires s.Login?
  {
    if s.ok.mayLogin && s.ok.rolesRead && s.ok.inserted
    then Insert(tokens, s.issued, Token(s.user, s.family, s.expiresAt, None, None))
    else tokens
  }

  /** Rotate the old token, then insert the new one; the insert may fail alone. */
  function Exchange(tokens: Store, h: string, issued: string, expiresAt: int, now: int, inserted: bool): Store
    requires h in tokens
  {
    var rotated := MarkRotated(tokens, h, now);
    if inserted then Insert(rotated, issued, Token(tokens[h].user, tokens[h].family, expiresAt, None, None)) else rotated
  }

  predicate Exchanges(tokens: Store, s: Step)
    requires s.Refresh?
  {
    s.presented in tokens && tokens[s.presented].Usable(s.now) && s.ok.mayLogin && s.ok.rolesRead && s.ok.rotated
  }

  function AfterRefresh(tokens: Store, s: Step): Store
    requires s.Refresh?
  {
    if s.presented !in tokens then tokens
    else if tokens[s.presented].Compromised() then
      if s.ok.familyRevoked then RevokeFamily(tokens, tokens[s.presented].family, s.now) else tokens
    else if Exchanges(tokens, s) then Exchange(tokens, s.presented, s.issued, s.expiresAt, s.now, s.ok.inserted)
    else tokens
  }

  function After(tokens: Store, s: Step): Store {
    match s
    case Login(_, _, _, _, _) => AfterLogin(tokens, s)
    case Refresh(_, _, _, _, _) => AfterRefresh(tokens, s)
    case Logout(h, now, revoked) => if revoked then Revoke(tokens, h, now) else tokens
    case Withdraw(user, now) => RevokeUser(tokens, user, now)
  }

  /** New secrets and new families are new. */
  predicate Possible(tokens: Store, s: Step) {
    match s
    case Login(_, family, h, _, _) => h !in tokens && forall k :: k in tokens ==> tokens[k].family != family
    case Refresh(_, h, _, _, _) => h !in tokens
    case _ => true
  }

  // ------------------------------------------------------------------ families

  function LiveIn(tokens: Store, family: string): set<string> {
    set h | h in tokens && tokens[h].family == family && tokens[h].Live()
  }

  predicate Single(tokens: Store) {
    forall g, h :: g in tokens && h in tokens && tokens[g].Live() && tokens[h].Live() && tokens[g].family == tokens[h].family
      ==> g == h
  }

  predicate Dead(tokens: Store, family: string) {
    forall h :: h in tokens && tokens[h].family == family ==> !tokens[h].Live()
  }

  predicate Known(tokens: Store, family: string) {
    exists h :: h in tokens && tokens[h].family == family
  }

  /**
   Exchanging a token keeps families single exactly when its family has no other
   live token: the check and the exchange must not be separated by another's.
   */
  lemma ExchangeKeepsSingle(tokens: Store, h: string, issued: string, expiresAt: int, now: int)
    requires Single(tokens) && h in tokens && issued !in tokens
    ensures Single(Exchange(tokens, h, issued, expiresAt, now, true))
       <==> forall g :: g in tokens && g != h && tokens[g].family == tokens[h].family ==> !tokens[g].Live()
  {
    var tokens' := Exchange(tokens, h, issued, expiresAt, now, true);
    assert issued in tokens' && tokens'[issued].Live();
    forall g | g in tokens && g != h
      ensures g in tokens' && tokens'[g] == tokens[g]
    {
    }
  }

  /**
   Two refreshes of one token that both check before either exchanges fork the
   family: both new tokens are live.
   */
  lemma InterleavedRefreshesFork(tokens: Store, h: string, one: string, two: string, expiresAt: int, now: int)
    requires h in tokens && tokens[h].Usable(now) && one !in tokens && two !in tokens && one != two
    ensures var twice := Exchange(Exchange(tokens, h, one, expiresAt, now, true), h, two, expiresAt, now, true);
            !Single(twice) && {one, two} <= LiveIn(twice, tokens[h].family)
  {
    var once := Exchange(tokens, h, one, expiresAt, now, true);
    var twice := Exchange(once, h, two, expiresAt, now, true);
    assert twice[one].Live() && twice[two].Live() && twice[one].family == twice[two].family;
  }

  lemma StepKeepsSingle(tokens: Store, s: Step)
    requires Single(tokens) && Possible(tokens, s)
    ensures Single(After(tokens, s))
  {
    if s.Refresh? && Exchanges(tokens, s) {
      ExchangeKeepsSingle(tokens, s.presented, s.issued, s.expiresAt, s.now);
    }
  }

  /** No step brings a family back, or a used-up token. */
  lemma StepKeepsDead(tokens: Store, s: Step, family: string)
    requires Possible(tokens, s) && Known(tokens, family) && Dead(tokens, family)
    ensures Known(After(tokens, s), family) && Dead(After(tokens, s), family)
  {
    var h :| h in tokens && tokens[h].family == family;
    assert h in After(tokens, s) && After(tokens, s)[h].family == family;
  }

  // ---------------------------------------------------------------- whole runs

  function Run(tokens: Store, steps: seq<Step>): Store {
    if steps == [] then tokens else After(Run(tokens, steps[..|steps| - 1]), steps[|steps| - 1])
  }

  predicate AllPossible(tokens: Store, steps: seq<Step>) {
    steps == [] || (AllPossible(tokens, steps[..|steps| - 1]) && Possible(Run(tokens, steps[..|steps| - 1]), steps[|steps| - 1]))
  }

  /** In every sequential run each family has at most one live token. */
  lemma {:induction false} FamiliesStaySingle(steps: seq<Step>, family: string)
    requires AllPossible(map[], steps)
    ensures Single(Run(map[], steps)) && |LiveIn(Run(map[], steps), family)| <= 1
  {
    if steps != [] {
      FamiliesStaySingle(steps[..|steps| - 1], family);
      StepKeepsSingle(Run(map[], steps[..|steps| - 1]), steps[|steps| - 1]);
    }
    AtMostOne(LiveIn(Run(map[], steps), family));
  }

  lemma AtMostOne<T>(s: set<T>)
    requires forall x, y :: x in s && y in s ==> x == y
    ensures |s| <= 1
  {
    if x :| x in s {
      assert s == {x};
    }
  }

  lemma {:induction false} DeadStaysDead(tokens: Store, steps: seq<Step>, family: string)
    requires AllPossible(tokens, steps) && Known(tokens, family) && Dead(tokens, family)
    ensures Known(Run(tokens, steps), family) && Dead(Run(tokens, steps), family)
  {
    if steps != [] {
      DeadStaysDead(tokens, steps[..|steps| - 1], family);
      StepKeepsDead(Run(tokens, steps[..|steps| - 1]), steps[|steps| - 1], family);
    }
  }

  /**
   A rotated or revoked token is presented for refresh: its family is left
   without a live token exactly when revoking it worked or none was live, as the
   revocation's error is ignored; and then it has none, whatever happens after.
   */
  lemma ReuseEndsTheFamily(tokens: Store, s: Step, later: seq<Step>)
    requires s.Refresh? && s.presented in tokens && tokens[s.presented].Compromised()
    requires Possible(tokens, s) && AllPossible(After(tokens, s), later)
    ensures var family := tokens[s.presented].family;
            && (LiveIn(After(tokens, s), family) == {} <==> s.ok.familyRevoked || LiveIn(tokens, family) == {})
            && (s.ok.familyRevoked || LiveIn(tokens, family) == {} ==> LiveIn(Run(After(tokens, s), later), family) == {})
  {
    var family, tokens' := tokens[s.presented].family, After(tokens, s);
    assert s.presented in tokens' && tokens'[s.presented].family == family;
    DeadIsEmpty(tokens, family);
    DeadIsEmpty(tokens', family);
    DeadIsEmpty(Run(tokens', later), family);
    if Dead(tokens', family) {
      DeadStaysDead(tokens', later, family);
    }
  }

  lemma DeadIsEmpty(tokens: Store, family: string)
    ensures Dead(tokens, family) <==> LiveIn(tokens, family) == {}
  {
    if !Dead(tokens, family) {
      var h :| h in tokens && tokens[h].family == family && tokens[h].Live();
      assert h in LiveIn(tokens, family);
    }
  }

  /** The tokens exchanged along a run, in order. */
  function Exchanged(tokens: Store, steps: seq<Step>): seq<string> {
    if steps == [] then []
    else
      var before, s := steps[..|steps| - 1], steps[|steps| - 1];
      Exchanged(tokens, before)
      + (if s.Refresh? && Exchanges(Run(tokens, before), s) then [s.presented] else [])
  }

  predicate UsedUp(tokens: Store, used: seq<string>) {
    forall i :: 0 <= i < |used| ==> used[i] in tokens && tokens[used[i]].rotatedAt.Some?
  }

  predicate Distinct(used: seq<string>) {
    forall i, j :: 0 <= i < j < |used| ==> used[i] != used[j]
  }

  lemma StepKeepsUsedUp(tokens: Store, s: Step, used: seq<string>)
    requires Possible(tokens, s) && UsedUp(tokens, used)
    ensures UsedUp(After(tokens, s), used)
  {
  }

  lemma ExchangeUsesUp(tokens: Store, s: Step)
    requires s.Refresh? && Possible(tokens, s) && Exchanges(tokens, s)
    ensures var tokens' := After(tokens, s); s.presented in tokens' && tokens'[s.presented].rotatedAt.Some?
  {
  }

  /** A token is exchanged at most once, in any run. */
  lemma {:induction false} TokensAreSingleUse(tokens: Store, steps: seq<Step>)
    requires AllPossible(tokens, steps)
    ensures UsedUp(Run(tokens, steps), Exchanged(tokens, steps)) && Distinct(Exchanged(tokens, steps))
  {
    if steps != [] {
      var before, s := steps[..|steps| - 1], steps[|steps| - 1];
      TokensAreSingleUse(tokens, before);
      StepKeepsUsedUp(Run(tokens, before), s, Exchanged(tokens, before));
      if s.Refresh? && Exchanges(Run(tokens, before), s) {
        ExchangeUsesUp(Run(tokens, before), s);
      }
    }
  }

  /** Logging out withdraws the presented token alone, used up or not. */
  lemma LogoutEndsOneToken(tokens: Store, h: string, now: int)
    requires Single(tokens) && h in tokens
    ensures var tokens' := After(tokens, Logout(h, now, true));
            LiveIn(tokens', tokens[h].family) == if tokens[h].Live() then {} else LiveIn(tokens, tokens[h].family)
  {
    var tokens' := After(tokens, Logout(h, now, true));
    forall g | g in tokens && g != h
      ensures g in tokens' && tokens'[g] == tokens[g]
    {
    }
  }

  // --------------------------------------------------------------- the service

  datatype Lookup = Found(user: string, canLogin: bool) | NotFound | Failed

  class AuthService {
    var tokens: Store

    constructor ()
      ensures tokens == map[]
    {
      tokens := map[];
    }

    /** The secret's hash is returned for the secret itself. */
    method Login(lockout: Option<bool>, account: Lookup, verified: bool, family: string, issued: string, expiresAt: int,
        rolesRead: bool, accessIssued: bool, inserted: bool) returns (granted: Option<string>)
      modifies this
      ensures var may := lockout == Some(false) && account.Found? && verified && account.canLogin;
              && tokens == After(old(tokens), Step.Login(if account.Found? then account.user else "", family, issued, expiresAt,
                                                       Checks(may, rolesRead && accessIssued, false, inserted, false)))
              && granted == if may && rolesRead && accessIssued && inserted then Some(issued) else None
    {
      if lockout.None? || lockout.value {
        return None;
      }
      if account.Failed? || account.NotFound? || !verified || !account.canLogin {
        return None;
      }
      if !rolesRead || !accessIssued {
        return None;
      }
      if !inserted {
        return None;
      }
      tokens := tokens[issued := Token(account.user, family, expiresAt, None, None)];
      return Some(issued);
    }

    /** The access token is issued last: failing there leaves the new refresh token stored and handed to nobody. */
    method Refresh(presented: string, account: Lookup, now: int, issued: string, expiresAt: int,
        rolesRead: bool, rotated: bool, inserted: bool, accessIssued: bool, familyRevoked: bool) returns (granted: Option<string>)
      modifies this
      ensures var may := account.Found? && account.canLogin;
              var s := Step.Refresh(presented, issued, expiresAt, now, Checks(may, rolesRead, rotated, inserted, familyRevoked));
              && tokens == After(old(tokens), s)
              && granted == (if Exchanges(old(tokens), s) && inserted && accessIssued then Some(issued) else None)
              && (Exchanges(old(tokens), s) && inserted ==> issued in LiveIn(tokens, old(tokens)[presented].family))
    {
      if presented !in tokens {
        return None;
      }
      var t := tokens[presented];
      if t.rotatedAt.Some? || t.revokedAt.Some? {
        if familyRevoked {
          WithdrawFamily(t.family, now);
        }
        return None;
      }
      if now >= t.expiresAt {
        return None;
      }
      if !account.Found? || !account.canLogin {
        return None;
      }
      if !rolesRead || !rotated {
        return None;
      }
      tokens := tokens[presented := t.(rotatedAt := Some(now))];
      if !inserted {
        return None;
      }
      tokens := tokens[issued := Token(t.user, t.family, expiresAt, None, None)];
      if !accessIssued {
        return None;
      }
      return Some(issued);
    }

    method WithdrawFamily(family: string, now: int)
      modifies this
      ensures tokens == RevokeFamily(old(tokens), family, now)
    {
      var rest := tokens.Keys;
      while rest != {}
        invariant rest <= old(tokens).Keys && tokens.Keys == old(tokens).Keys
        invariant forall h :: h in tokens ==>
          tokens[h] == if h in rest then old(tokens)[h] else RevokeFamily(old(tokens), family, now)[h]
      {
        var h :| h in rest;
        rest := rest - {h};
        if tokens[h].family == family && tokens[h].revokedAt.None? {
          tokens := tokens[h := tokens[h].(revokedAt := Some(now))];
        }
      }
    }

    method Logout(presented: string, now: int, revoked: bool)
      modifies this
      ensures tokens == After(old(tokens), Step.Logout(presented, now, revoked))
    {
      if presented !in tokens || !revoked {
        return;
      }
      if tokens[presented].revokedAt.None? {
        tokens := tokens[presented := tokens[presented].(revokedAt := Some(now))];
      }
    }
  }
}
