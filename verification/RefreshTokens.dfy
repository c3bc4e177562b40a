/**
 Refresh-token rotation in identity-service. Raw tokens and their hashes are identified, because the
 hash is injective on the tokens that are issued; ids, families and tokens are fresh random values.
 Each handler call is one transaction.
 */
module RefreshTokens {
  import opened Wrappers

  type Id = string
  type Time = int

  /** One row; the store is keyed by the unique token hash. */
  datatype Token = Token(id: Id, userId: Id, family: Id, expiresAt: Time, revoked: bool, replacedBy: Option<Id>)

  type Store = map<string, Token>

  datatype AuthError = InvalidToken | TokenReused | TokenExpired | AccountDisabled

  /** The account as the handler finds it: missing, disabled or active. */
  datatype Account = Missing | Disabled | Active

  datatype Call =
    | Login(hash: string, id: Id, family: Id, userId: Id, expiresAt: Time)
    | Refresh(presented: string, now: Time, account: Account, hash: string, id: Id, expiresAt: Time)
    | Logout(cookie: Option<string>)

  /** Revocation sets the timestamp and the successor once. */
  function Revoked(t: Token, replacedBy: Option<Id>): Token {
    if t.revoked then t else t.(revoked := true, replacedBy := replacedBy)
  }

  /** The bulk update leaves `replaced_by_id` alone. */
  function RevokeFamily(s: Store, family: Id): Store {
    map h | h in s :: if s[h].family == family then s[h].(revoked := true) else s[h]
  }

  function Live(s: Store, family: Id): set<string> {
    set h | h in s && s[h].family == family && !s[h].revoked
  }

  /** The outcome of presenting a token. */
  function Check(s: Store, presented: string, now: Time, account: Account): Result<(), AuthError> {
    if presented !in s then Err(InvalidToken)
    else if s[presented].revoked then Err(TokenReused)
    else if s[presented].expiresAt <= now then Err(TokenExpired)
    else match account
      case Missing => Err(InvalidToken)
      case Disabled => Err(AccountDisabled)
      case Active => Ok(())
  }

  function Rotated(s: Store, presented: string, hash: string, id: Id, expiresAt: Time): Store
    requires presented in s
  {
    var current := s[presented];
    var token := Token(id, current.userId, current.family, expiresAt, false, None);
    s[presented := Revoked(current, Some(id))][hash := token]
  }

  /** The store after a call; only a detected reuse commits although it fails. */
  function Next(s: Store, c: Call): Store {
    match c
    case Login(hash, id, family, userId, expiresAt) => s[hash := Token(id, userId, family, expiresAt, false, None)]
    case Refresh(presented, now, account, hash, id, expiresAt) =>
      (match Check(s, presented, now, account)
       case Ok(_) => Rotated(s, presented, hash, id, expiresAt)
       case Err(TokenReused) => if presented in s then RevokeFamily(s, s[presented].family) else s
       case Err(_) => s)
    case Logout(cookie) =>
      if cookie.Some? && cookie.value != [] && cookie.value in s then RevokeFamily(s, s[cookie.value].family) else s
  }

  predicate Exchanged(s: Store, c: Call, h: string) {
    c.Refresh? && c.presented == h && Check(s, c.presented, c.now, c.account).Ok?
  }

  /** New hashes, ids and families have not been seen. */
  ghost predicate Fresh(s: Store, c: Call) {
    match c
    case Login(hash, id, family, _, _) =>
      hash !in s && (forall h :: h in s ==> s[h].id != id && s[h].family != family)
    case Refresh(_, _, _, hash, id, _) => hash !in s && (forall h :: h in s ==> s[h].id != id)
    case Logout(_) => true
  }

  ghost function Run(s: Store, cs: seq<Call>): Option<Store>
    decreases |cs|
  {
    if cs == [] then Some(s)
    else if Fresh(s, cs[0]) then Run(Next(s, cs[0]), cs[1..])
    else None
  }

  // ---------------------------------------------------------------- what each call does

  /** A refresh brings its new token exactly when the presented one is known, unrevoked and not expired
      and its account is active. */
  lemma ExchangeIff(s: Store, c: Call)
    requires c.Refresh? && Fresh(s, c)
    ensures c.hash in Next(s, c)
            <==> c.presented in s && !s[c.presented].revoked && c.now < s[c.presented].expiresAt && c.account.Active?
    ensures Exchanged(s, c, c.presented) <==> c.hash in Next(s, c)
  {
    if c.hash in Next(s, c) {
      assert Check(s, c.presented, c.now, c.account).Ok?;
    }
  }

  /** The new token takes over user and family with its own id and expiry; the presented one is revoked in
      its favour; no other token changes. */
  lemma ExchangeEffect(s: Store, c: Call)
    requires c.Refresh? && Fresh(s, c) && c.hash in Next(s, c)
    ensures c.presented in s
    ensures var before, token := s[c.presented], Next(s, c)[c.hash];
            && token.userId == before.userId && token.family == before.family
            && token.id == c.id && token.expiresAt == c.expiresAt && !token.revoked && token.replacedBy.None?
    ensures c.presented in Next(s, c)
            && Next(s, c)[c.presented] == s[c.presented].(revoked := true, replacedBy := Some(c.id))
    ensures Next(s, c) - {c.hash, c.presented} == s - {c.presented}
  {
    ExchangeIff(s, c);
    assert Next(s, c).Keys == s.Keys + {c.hash};
  }

  /** `t` is `s` with the tokens of one family revoked. */
  ghost predicate OnlyRevokes(s: Store, t: Store, family: Id) {
    && t.Keys == s.Keys
    && forall h :: h in s ==>
         && (s[h].family == family ==> t[h].revoked && t[h].(revoked := s[h].revoked) == s[h])
         && (s[h].family != family ==> t[h] == s[h])
  }

  /** A refused refresh changes nothing unless the presented token was revoked; then, and on a logout, the
      family of that token is revoked and nothing else changes. */
  lemma RefusalEffect(s: Store, c: Call)
    requires Fresh(s, c)
    ensures c.Refresh? && c.hash !in Next(s, c) ==>
              if c.presented in s && s[c.presented].revoked
              then OnlyRevokes(s, Next(s, c), s[c.presented].family) else Next(s, c) == s
    ensures c.Logout? ==>
              if c.cookie.Some? && c.cookie.value != [] && c.cookie.value in s
              then OnlyRevokes(s, Next(s, c), s[c.cookie.value].family) else Next(s, c) == s
  {
    if c.Refresh? {
      ExchangeIff(s, c);
    }
  }

  /** A login stores one unrevoked token with the given values, in a family of its own. */
  lemma LoginEffect(s: Store, c: Call)
    requires c.Login? && Fresh(s, c)
    ensures Next(s, c) - {c.hash} == s && c.hash in Next(s, c)
    ensures var token := Next(s, c)[c.hash];
            && token.id == c.id && token.userId == c.userId && token.family == c.family
            && token.expiresAt == c.expiresAt && !token.revoked && token.replacedBy.None?
            && Live(Next(s, c), c.family) == {c.hash}
  {}

  // ---------------------------------------------------------------- families are chains

  /** `chain` lists exactly the family's tokens, each once. */
  ghost predicate Lists(s: Store, family: Id, chain: seq<string>) {
    && (forall k :: 0 <= k < |chain| ==> chain[k] in s && s[chain[k]].family == family)
    && (forall h :: h in s && s[h].family == family ==> h in chain)
    && (forall j, k :: 0 <= j < k < |chain| ==> chain[j] != chain[k])
  }

  /** Token `k` is revoked and replaced by its successor; the tail has no successor. */
  ghost predicate LinkedAt(s: Store, chain: seq<string>, k: nat)
    requires k < |chain| && forall i :: 0 <= i < |chain| ==> chain[i] in s
  {
    if k + 1 < |chain| then s[chain[k]].revoked && s[chain[k]].replacedBy == Some(s[chain[k + 1]].id)
    else s[chain[k]].replacedBy == None
  }

  ghost predicate IsChain(s: Store, family: Id, chain: seq<string>) {
    && Lists(s, family, chain)
    && (forall k: nat :: k < |chain| ==> LinkedAt(s, chain, k))
    && (forall j, k :: 0 <= j < |chain| && 0 <= k < |chain| ==> s[chain[j]].userId == s[chain[k]].userId)
  }

  ghost predicate Linear(s: Store, family: Id) {
    exists chain :: IsChain(s, family, chain)
  }

  ghost predicate DistinctIds(s: Store) {
    forall g, h :: g in s && h in s && g != h ==> s[g].id != s[h].id
  }

  ghost predicate FamiliesInv(s: Store) {
    DistinctIds(s) && forall f :: Linear(s, f)
  }

  /** A chain survives when its tokens keep id, user, successor and any revocation, and the family
      gains no token. */
  lemma KeepsChain(s: Store, t: Store, f: Id, chain: seq<string>)
    requires IsChain(s, f, chain)
    requires forall k :: 0 <= k < |chain| ==>
               chain[k] in t && t[chain[k]].(revoked := true) == s[chain[k]].(revoked := true)
               && (s[chain[k]].revoked ==> t[chain[k]].revoked)
    requires forall h :: h in t && t[h].family == f ==> h in s && s[h].family == f
    ensures IsChain(t, f, chain)
  {
    forall k: nat | k < |chain| ensures LinkedAt(t, chain, k) {
      assert LinkedAt(s, chain, k);
    }
  }

  lemma LoginKeepsChain(s: Store, c: Call, f: Id, chain: seq<string>)
    requires c.Login? && Fresh(s, c) && IsChain(s, f, chain)
    ensures Linear(Next(s, c), f)
  {
    if f == c.family {
      assert IsChain(Next(s, c), f, [c.hash]);
    } else {
      KeepsChain(s, Next(s, c), f, chain);
    }
  }

  /** An unrevoked token is its chain's tail. */
  lemma UnrevokedIsTail(s: Store, f: Id, chain: seq<string>, h: string)
    requires IsChain(s, f, chain) && h in s && s[h].family == f && !s[h].revoked
    ensures chain != [] && chain[|chain| - 1] == h
  {
    var k: nat :| k < |chain| && chain[k] == h;
    assert LinkedAt(s, chain, k);
  }

  lemma RotateLists(s: Store, presented: string, hash: string, id: Id, expiresAt: Time, chain: seq<string>)
    requires presented in s && hash !in s && Lists(s, s[presented].family, chain)
    ensures Lists(Rotated(s, presented, hash, id, expiresAt), s[presented].family, chain + [hash])
  {
    var f := s[presented].family;
    var t := Rotated(s, presented, hash, id, expiresAt);
    forall h | h in t && t[h].family == f ensures h in chain + [hash] {
      assert h == hash || (h in s && s[h].family == f);
    }
  }

  lemma RotateExtendsChain(s: Store, presented: string, hash: string, id: Id, expiresAt: Time, chain: seq<string>)
    requires presented in s && !s[presented].revoked && hash !in s
    requires IsChain(s, s[presented].family, chain)
    ensures IsChain(Rotated(s, presented, hash, id, expiresAt), s[presented].family, chain + [hash])
  {
    var f := s[presented].family;
    var t := Rotated(s, presented, hash, id, expiresAt);
    var longer := chain + [hash];
    UnrevokedIsTail(s, f, chain, presented);
    RotateLists(s, presented, hash, id, expiresAt, chain);
    forall k: nat | k < |longer| ensures LinkedAt(t, longer, k) {
      if k < |chain| {
        assert LinkedAt(s, chain, k);
        assert chain[k] != presented ==> t[chain[k]] == s[chain[k]];
      }
    }
    forall k | 0 <= k < |longer| ensures t[longer[k]].userId == s[presented].userId {
      if k < |chain| {
        assert s[chain[k]].userId == s[chain[|chain| - 1]].userId;
      }
    }
  }

  lemma CallKeepsChain(s: Store, c: Call, f: Id)
    requires Fresh(s, c) && Linear(s, f)
    ensures Linear(Next(s, c), f)
  {
    var chain :| IsChain(s, f, chain);
    match c
    case Login(_, _, _, _, _) => LoginKeepsChain(s, c, f, chain);
    case Refresh(presented, now, account, hash, id, expiresAt) =>
      if Check(s, presented, now, account).Ok? {
        if f == s[presented].family {
          RotateExtendsChain(s, presented, hash, id, expiresAt, chain);
        } else {
          KeepsChain(s, Next(s, c), f, chain);
        }
      } else if presented in s && s[presented].revoked {
        KeepsChain(s, Next(s, c), f, chain);
      }
    case Logout(cookie) =>
      KeepsChain(s, Next(s, c), f, chain);
  }

  lemma FamiliesStep(s: Store, c: Call)
    requires FamiliesInv(s) && Fresh(s, c)
    ensures FamiliesInv(Next(s, c))
  {
    forall f ensures Linear(Next(s, c), f) {
      CallKeepsChain(s, c, f);
    }
  }

  /** In every reachable store every family is a linear chain. */
  lemma {:induction false} FamiliesAreChains(s: Store, cs: seq<Call>)
    requires FamiliesInv(s) && Run(s, cs).Some?
    ensures FamiliesInv(Run(s, cs).value)
    decreases |cs|
  {
    hide FamiliesInv;
    if cs == [] {
    } else {
      FamiliesStep(s, cs[0]);
      FamiliesAreChains(Next(s, cs[0]), cs[1..]);
    }
  }

  lemma EmptyStoreInv()
    ensures FamiliesInv(map[])
  {
    forall f ensures Linear(map[], f) {
      assert IsChain(map[], f, []);
    }
  }

  /** At most one token of a family is unrevoked, so `revoke_family` changes at most one row. */
  lemma AtMostOneLive(s: Store, f: Id)
    requires FamiliesInv(s)
    ensures |Live(s, f)| <= 1
  {
    assert Linear(s, f);
    var chain :| IsChain(s, f, chain);
    if Live(s, f) != {} {
      var h :| h in Live(s, f);
      forall g | g in Live(s, f) ensures g == h {
        UnrevokedIsTail(s, f, chain, g);
        UnrevokedIsTail(s, f, chain, h);
      }
      assert Live(s, f) == {h};
    }
  }

  /** Over every run of logins, refreshes, replays and logouts each family is one chain, its only
      unrevoked token, if any, is the tail, and `revoke_family` changes at most that row. */
  lemma ReachableFamilies(cs: seq<Call>, f: Id) returns (chain: seq<string>)
    requires Run(map[], cs).Some?
    ensures var s := Run(map[], cs).value;
            && IsChain(s, f, chain) && |Live(s, f)| <= 1
            && (forall h :: h in Live(s, f) ==> chain != [] && h == chain[|chain| - 1])
  {
    EmptyStoreInv();
    FamiliesAreChains(map[], cs);
    var s := Run(map[], cs).value;
    AtMostOneLive(s, f);
    assert Linear(s, f);
    chain :| IsChain(s, f, chain);
    forall h | h in Live(s, f) ensures chain != [] && h == chain[|chain| - 1] {
      UnrevokedIsTail(s, f, chain, h);
    }
  }

  // ---------------------------------------------------------------- exchanges and revival

  /** How often a token is exchanged over a run. */
  ghost function Exchanges(s: Store, cs: seq<Call>, h: string): nat
    decreases |cs|
  {
    if cs == [] then 0
    else (if Exchanged(s, cs[0], h) then 1 else 0) + Exchanges(Next(s, cs[0]), cs[1..], h)
  }

  lemma RevokedStays(s: Store, c: Call, h: string)
    requires Fresh(s, c) && h in s && s[h].revoked
    ensures h in Next(s, c) && Next(s, c)[h].revoked && !Exchanged(s, c, h)
  {}

  lemma {:induction false} RevokedIsNeverExchanged(s: Store, cs: seq<Call>, h: string)
    requires Run(s, cs).Some? && h in s && s[h].revoked
    ensures Exchanges(s, cs, h) == 0
    ensures h in Run(s, cs).value && Run(s, cs).value[h].revoked
    decreases |cs|
  {
    if cs == [] {
    } else {
      RevokedStays(s, cs[0], h);
      RevokedIsNeverExchanged(Next(s, cs[0]), cs[1..], h);
    }
  }

  /** Over any run a token is exchanged at most once. */
  lemma {:induction false} ExchangedAtMostOnce(s: Store, cs: seq<Call>, h: string)
    requires Run(s, cs).Some?
    ensures Exchanges(s, cs, h) <= 1
    decreases |cs|
  {
    if cs == [] {
    } else {
      if Exchanged(s, cs[0], h) {
        assert Next(s, cs[0])[h].revoked;
        RevokedIsNeverExchanged(Next(s, cs[0]), cs[1..], h);
      } else {
        ExchangedAtMostOnce(Next(s, cs[0]), cs[1..], h);
      }
    }
  }

  /** The family exists and none of its tokens is unrevoked. */
  ghost predicate Dead(s: Store, f: Id) {
    (exists h :: h in s && s[h].family == f) && Live(s, f) == {}
  }

  /** Replaying a revoked token or logging out kills the family. */
  lemma ReplayAndLogoutKill(s: Store, c: Call)
    ensures c.Refresh? && Check(s, c.presented, c.now, c.account) == Err(TokenReused) ==>
              c.presented in s && Dead(Next(s, c), s[c.presented].family)
    ensures c.Logout? && c.cookie.Some? && c.cookie.value != [] && c.cookie.value in s ==>
              Dead(Next(s, c), s[c.cookie.value].family)
  {
    if c.Refresh? && Check(s, c.presented, c.now, c.account) == Err(TokenReused) {
      assert Next(s, c)[c.presented].family == s[c.presented].family;
    }
    if c.Logout? && c.cookie.Some? && c.cookie.value != [] && c.cookie.value in s {
      assert Next(s, c)[c.cookie.value].family == s[c.cookie.value].family;
    }
  }

  lemma DeadStep(s: Store, c: Call, f: Id)
    requires Fresh(s, c) && Dead(s, f)
    ensures Dead(Next(s, c), f)
    ensures forall h :: h in s && s[h].family == f ==> !Exchanged(s, c, h)
  {
    var t := Next(s, c);
    var h :| h in s && s[h].family == f;
    assert h !in Live(s, f);
    assert h in t && t[h].family == f;
    forall g | g in t && t[g].family == f ensures t[g].revoked {
      if g in s && s[g].family == f {
        assert g !in Live(s, f);
      }
      if c.Refresh? && c.presented in s && s[c.presented].family == f {
        assert c.presented !in Live(s, f);
      }
    }
    forall g | g in s && s[g].family == f ensures !Exchanged(s, c, g) {
      assert g !in Live(s, f);
    }
  }

  /** No later call revives a dead family. */
  lemma {:induction false} DeadStaysDead(s: Store, cs: seq<Call>, f: Id)
    requires Run(s, cs).Some? && Dead(s, f)
    ensures Dead(Run(s, cs).value, f)
    decreases |cs|
  {
    if cs == [] {
    } else {
      DeadStep(s, cs[0], f);
      DeadStaysDead(Next(s, cs[0]), cs[1..], f);
    }
  }
}
