/**
 One browser tab against identity-service: single-flight refresh, concurrent logins, responses that
 arrive later than the server acted. `server` is the token store of RefreshTokens.
 */
module BrowserSession {
  import opened Wrappers
  import opened Text
  import T = RefreshTokens

  /** The one refresh in flight, with the cookie it was sent with. */
  datatype Flight =
    | NoFlight
    | Requested(presented: Option<string>)
    | Answered(presented: Option<string>, result: Result<string, T.AuthError>)

  /** `logins` holds the cookies of login responses still on their way; `access` says whether the tab
      holds an access token. */
  datatype Session = Session(server: T.Store, cookie: Option<string>, access: bool, flight: Flight, logins: set<string>)

  datatype Step =
    | CallRefresh
    | ServeRefresh(now: T.Time, account: T.Account, hash: string, id: T.Id, expiresAt: T.Time)
    | ReceiveRefresh(cookieDeleted: bool)
    | LoseRequest
    | LoseResponse
    | ServeLogin(hash: string, id: T.Id, family: T.Id, userId: T.Id, expiresAt: T.Time)
    | ReceiveLogin(hash: string)
    | Logout

  const START := Session(map[], None, false, NoFlight, {})

  /** The refresh call of a request that carried a cookie. */
  function RefreshCall(presented: string, st: Step): T.Call
    requires st.ServeRefresh?
  {
    T.Refresh(presented, st.now, st.account, st.hash, st.id, st.expiresAt)
  }

  ghost predicate Enabled(s: Session, st: Step) {
    match st
    case CallRefresh => true
    case ServeRefresh(_, _, hash, _, _) =>
      s.flight.Requested? && hash !in s.logins
      && (s.flight.presented.Some? ==> T.Fresh(s.server, RefreshCall(s.flight.presented.value, st)))
    case ReceiveRefresh(_) => s.flight.Answered?
    case LoseRequest => s.flight.Requested?
    case LoseResponse => s.flight.Answered?
    case ServeLogin(hash, id, family, userId, expiresAt) =>
      hash !in s.logins && T.Fresh(s.server, T.Login(hash, id, family, userId, expiresAt))
    case ReceiveLogin(hash) => hash in s.logins
    case Logout => true
  }

  /** Callers that find a refresh in flight wait for it; only the first one sends a request. */
  function Next(s: Session, st: Step): Session {
    match st
    case CallRefresh => if s.flight.NoFlight? then s.(flight := Requested(s.cookie)) else s
    case ServeRefresh(now, account, hash, _, _) =>
      if !s.flight.Requested? then s
      else if s.flight.presented.None? then s.(flight := Answered(None, Err(T.InvalidToken)))
      else
        var presented := s.flight.presented.value;
        var result := match T.Check(s.server, presented, now, account)
          case Ok(_) => Ok(hash)
          case Err(e) => Err(e);
        s.(server := T.Next(s.server, RefreshCall(presented, st)), flight := Answered(s.flight.presented, result))
    case ReceiveRefresh(cookieDeleted) =>
      if !s.flight.Answered? then s
      else if s.flight.result.Ok? then s.(cookie := Some(s.flight.result.value), access := true, flight := NoFlight)
      else s.(cookie := if cookieDeleted then None else s.cookie, access := false, flight := NoFlight)
    case LoseRequest => s.(access := false, flight := NoFlight)
    case LoseResponse => s.(access := false, flight := NoFlight)
    case ServeLogin(hash, id, family, userId, expiresAt) =>
      s.(server := T.Next(s.server, T.Login(hash, id, family, userId, expiresAt)), logins := s.logins + {hash})
    case ReceiveLogin(hash) => s.(cookie := Some(hash), access := true, logins := s.logins - {hash})
    case Logout => s.(server := T.Next(s.server, T.Logout(s.cookie)), cookie := None, access := false)
  }

  ghost function Run(s: Session, sts: seq<Step>): Option<Session>
    decreases |sts|
  {
    if sts == [] then Some(s)
    else if Enabled(s, sts[0]) then Run(Next(s, sts[0]), sts[1..])
    else None
  }

  /** No lost response and no logout. */
  predicate Smooth(sts: seq<Step>) {
    forall k :: 0 <= k < |sts| ==> !sts[k].LoseResponse? && !sts[k].Logout?
  }

  ghost predicate Unrevoked(s: T.Store, h: string) {
    h in s && !s[h].revoked
  }

  /** The cookie is unrevoked, or the answer that replaces it is on its way. */
  ghost predicate CookieOk(server: T.Store, cookie: Option<string>, flight: Flight, logins: set<string>) {
    cookie.Some? ==>
      && cookie.value in server && cookie.value !in logins
      && (Unrevoked(server, cookie.value) || (flight.Answered? && flight.result.Ok? && flight.presented == cookie))
  }

  /** A request in flight carries an unrevoked token; a successful answer has revoked the token that was
      sent and brings a new one of the same family, which is no login's and not the cookie. */
  ghost predicate FlightOk(server: T.Store, cookie: Option<string>, flight: Flight, logins: set<string>) {
    match flight
    case NoFlight => true
    case Requested(None) => true
    case Requested(Some(sent)) => Unrevoked(server, sent) && sent !in logins
    case Answered(presented, Err(e)) => e != T.TokenReused
    case Answered(presented, Ok(token)) =>
      && Unrevoked(server, token) && token !in logins && cookie != Some(token)
      && presented.Some? && presented.value in server && server[presented.value].revoked
      && server[presented.value].family == server[token].family
  }

  ghost predicate SessionInv(s: Session) {
    && T.FamiliesInv(s.server)
    && (forall h :: h in s.logins ==> Unrevoked(s.server, h))
    && CookieOk(s.server, s.cookie, s.flight, s.logins)
    && FlightOk(s.server, s.cookie, s.flight, s.logins)
  }

  /** A refresh that is exchanged: the new token is fresh and the old one was no login's. */
  lemma ServeRotates(s: Session, sent: string, st: Step)
    requires SessionInv(s) && Enabled(s, st) && st.ServeRefresh? && s.flight == Requested(Some(sent))
    requires T.Check(s.server, sent, st.now, st.account).Ok?
    ensures SessionInv(Next(s, st))
  {
    T.FamiliesStep(s.server, RefreshCall(sent, st));
    hide T.FamiliesInv;
    assert Next(s, st).flight == Answered(Some(sent), Ok(st.hash));
  }

  lemma ServeKeeps(s: Session, st: Step)
    requires SessionInv(s) && Enabled(s, st) && st.ServeRefresh?
    ensures SessionInv(Next(s, st))
  {
    if s.flight.presented.Some? {
      var sent := s.flight.presented.value;
      if T.Check(s.server, sent, st.now, st.account).Ok? {
        ServeRotates(s, sent, st);
      } else {
        hide T.FamiliesInv;
        assert Next(s, st).server == s.server;
      }
    } else {
      hide T.FamiliesInv;
    }
  }

  lemma StepKeeps(s: Session, st: Step)
    requires SessionInv(s) && Enabled(s, st) && !st.LoseResponse? && !st.Logout?
    ensures SessionInv(Next(s, st))
  {
    match st
    case ServeRefresh(_, _, _, _, _) => ServeKeeps(s, st);
    case ServeLogin(hash, id, family, userId, expiresAt) =>
      T.FamiliesStep(s.server, T.Login(hash, id, family, userId, expiresAt));
      hide T.FamiliesInv;
    case _ => hide T.FamiliesInv;
  }

  lemma {:induction false} SmoothRunKeeps(s: Session, sts: seq<Step>)
    requires SessionInv(s) && Run(s, sts).Some? && Smooth(sts)
    ensures SessionInv(Run(s, sts).value)
    decreases |sts|
  {
    hide SessionInv, Enabled;
    if sts == [] {
    } else {
      StepKeeps(s, sts[0]);
      SmoothRunKeeps(Next(s, sts[0]), sts[1..]);
    }
  }

  /** Single-flight refresh never reaches the reuse branch: no refresh is answered with reuse, and the
      cookie is its family's unrevoked tail, or the successful answer to exactly this cookie is on its way. */
  lemma SingleFlightNeverReuses(sts: seq<Step>)
    requires Run(START, sts).Some? && Smooth(sts)
    ensures var s := Run(START, sts).value;
            && (s.flight.Answered? ==> s.flight.result != Err(T.TokenReused))
            && (s.cookie.Some? ==>
                  || TailOfFamily(s.server, s.cookie.value)
                  || (s.flight.Answered? && s.flight.result.Ok? && s.flight.presented == s.cookie))
  {
    T.EmptyStoreInv();
    SmoothRunKeeps(START, sts);
    var s := Run(START, sts).value;
    if s.cookie.Some? && Unrevoked(s.server, s.cookie.value) {
      UnrevokedTokenIsTail(s.server, s.cookie.value);
    }
  }

  ghost predicate TailOfFamily(s: T.Store, h: string) {
    && h in s && !s[h].revoked
    && exists chain :: chain != [] && T.IsChain(s, s[h].family, chain) && chain[|chain| - 1] == h
  }

  lemma UnrevokedTokenIsTail(s: T.Store, h: string)
    requires T.FamiliesInv(s) && Unrevoked(s, h)
    ensures TailOfFamily(s, h)
  {
    assert T.Linear(s, s[h].family);
    var chain :| T.IsChain(s, s[h].family, chain);
    T.UnrevokedIsTail(s, s[h].family, chain, h);
  }

  /** Losing a response leads to reuse detection on the next refresh exactly when the refresh had
      succeeded and the browser still holds the cookie it was sent with. */
  lemma LostResponseIsReuse(s: Session, st: Step)
    requires SessionInv(s) && s.flight.Answered? && st.ServeRefresh?
    requires Enabled(Next(Next(s, LoseResponse), CallRefresh), st)
    ensures Next(Next(Next(s, LoseResponse), CallRefresh), st).flight.result == Err(T.TokenReused)
            <==> s.flight.result.Ok? && s.flight.presented == s.cookie
  {}

  /** A logout served before the refresh in flight makes that refresh a reuse exactly when the cookie it
      revoked is still the one the refresh was sent with; a login may have replaced it meanwhile. */
  lemma LogoutDuringRefreshIsReuse(s: Session, st: Step)
    requires SessionInv(s) && s.flight.Requested? && st.ServeRefresh? && Enabled(Next(s, Logout), st)
    ensures Next(Next(s, Logout), st).flight.result == Err(T.TokenReused)
            <==> s.flight.presented == s.cookie && s.cookie.Some? && s.cookie.value != []
  {
    var after := Next(s, Logout);
    if s.flight.presented.Some? && s.cookie.Some? {
      var sent, held := s.flight.presented.value, s.cookie.value;
      var family := s.server[held].family;
      if after.server[sent].revoked && s.server[sent].family == family {
        assert T.Linear(s.server, family);
        var chain :| T.IsChain(s.server, family, chain);
        T.UnrevokedIsTail(s.server, family, chain, sent);
        T.UnrevokedIsTail(s.server, family, chain, held);
      }
    }
  }

  // ---------------------------------------------------------------- all later runs

  ghost predicate ReuseAnswered(s: Session) {
    s.flight.Answered? && s.flight.result == Err(T.TokenReused)
  }

  /** No smooth continuation answers a refresh with reuse. */
  ghost predicate NeverReuses(s: Session) {
    forall sts :: Smooth(sts) && Run(s, sts).Some? ==> !ReuseAnswered(Run(s, sts).value)
  }

  lemma InvNeverReuses(s: Session)
    requires SessionInv(s)
    ensures NeverReuses(s)
  {
    forall sts | Smooth(sts) && Run(s, sts).Some? ensures !ReuseAnswered(Run(s, sts).value) {
      SmoothRunKeeps(s, sts);
    }
  }

  /** Values that the server has not used. */
  lemma FreshRefresh(s: Session) returns (st: Step)
    requires s.flight.Requested?
    ensures st.ServeRefresh? && Enabled(s, st)
  {
    var hash := FreeSlug(s.server.Keys + s.logins, "h", 0);
    var m := FreeSlugIsFirst(s.server.Keys + s.logins, "h", 0);
    var ids := set h | h in s.server :: s.server[h].id;
    var id := FreeSlug(ids, "i", 0);
    var n := FreeSlugIsFirst(ids, "i", 0);
    st := ServeRefresh(0, T.Active, hash, id, 0);
  }

  /** A revoked token sent is answered as a reuse. */
  lemma RevokedIsReused(s: Session, sent: string, st: Step)
    requires s.flight == Requested(Some(sent)) && sent in s.server && s.server[sent].revoked && st.ServeRefresh?
    ensures ReuseAnswered(Next(s, st))
  {}

  lemma SendsRevoked(s: Session, sent: string)
    requires s.flight == Requested(Some(sent)) && sent in s.server && s.server[sent].revoked
    ensures !NeverReuses(s)
  {
    var st := FreshRefresh(s);
    RevokedIsReused(s, sent, st);
    ReusedAtOnce(s, st);
  }

  lemma ReusedAtOnce(s: Session, st: Step)
    requires Enabled(s, st) && st.ServeRefresh? && ReuseAnswered(Next(s, st))
    ensures !NeverReuses(s)
  {
    RunNothing(s);
    RunSnoc(s, [], st);
    assert [] + [st] == [st] && Smooth([st]);
  }

  lemma HoldsRevoked(s: Session, held: string)
    requires s.flight.NoFlight? && s.cookie == Some(held) && held in s.server && s.server[held].revoked
    ensures !NeverReuses(s)
  {
    SendsRevoked(Next(s, CallRefresh), held);
    EarlierReuse(s, CallRefresh);
  }

  /** A reuse after one more smooth step is a reuse. */
  lemma EarlierReuse(s: Session, st: Step)
    requires Enabled(s, st) && !st.LoseResponse? && !st.Logout? && !NeverReuses(Next(s, st))
    ensures !NeverReuses(s)
  {
    var sts :| Smooth(sts) && Run(Next(s, st), sts).Some? && ReuseAnswered(Run(Next(s, st), sts).value);
    assert ([st] + sts)[1..] == sts;
    assert Smooth([st] + sts) && Run(s, [st] + sts) == Run(Next(s, st), sts);
  }

  /** Losing a response leads to a reuse in some smooth continuation if and only if the refresh had
      succeeded and the browser still holds the cookie it was sent with. */
  lemma LostResponseHarmsIff(s: Session)
    requires SessionInv(s) && s.flight.Answered?
    ensures NeverReuses(Next(s, LoseResponse)) <==> !(s.flight.result.Ok? && s.flight.presented == s.cookie)
  {
    if s.flight.result.Ok? && s.flight.presented == s.cookie {
      HoldsRevoked(Next(s, LoseResponse), s.cookie.value);
    } else {
      InvNeverReuses(Next(s, LoseResponse));
    }
  }

  /** The logout revokes the token that a refresh in flight was sent with, or the one its answer brings. */
  ghost predicate LogoutHarms(s: Session) {
    && s.cookie.Some? && s.cookie.value != []
    && match s.flight
       case NoFlight => false
       case Requested(presented) => presented == s.cookie
       case Answered(presented, result) => result.Ok? && presented == s.cookie
  }

  /** Two unrevoked tokens of one family are the same. */
  lemma OneUnrevoked(s: T.Store, g: string, h: string)
    requires T.FamiliesInv(s) && Unrevoked(s, g) && Unrevoked(s, h) && s[g].family == s[h].family
    ensures g == h
  {
    assert T.Linear(s, s[g].family);
    var chain :| T.IsChain(s, s[g].family, chain);
    T.UnrevokedIsTail(s, s[g].family, chain, g);
    T.UnrevokedIsTail(s, s[g].family, chain, h);
  }

  lemma LogoutKeepsOthers(s: Session, h: string)
    requires SessionInv(s) && !LogoutHarms(s) && Unrevoked(s.server, h) && Some(h) != s.cookie
    ensures Unrevoked(Next(s, Logout).server, h)
  {
    if s.cookie.Some? && s.cookie.value != [] && s.server[h].family == s.server[s.cookie.value].family {
      OneUnrevoked(s.server, s.cookie.value, h);
    }
  }

  lemma LogoutKeepsInv(s: Session)
    requires SessionInv(s) && !LogoutHarms(s)
    ensures SessionInv(Next(s, Logout))
  {
    var t := Next(s, Logout);
    T.FamiliesStep(s.server, T.Logout(s.cookie));
    forall h | h in s.logins ensures Unrevoked(t.server, h) {
      LogoutKeepsOthers(s, h);
    }
    if s.flight.Requested? && s.flight.presented.Some? && s.flight.presented != s.cookie {
      LogoutKeepsOthers(s, s.flight.presented.value);
    }
    if s.flight.Answered? && s.flight.result.Ok? {
      LogoutKeepsOthers(s, s.flight.result.value);
    }
    hide T.FamiliesInv;
  }

  /** A logout leads to a reuse in some smooth continuation if and only if a refresh sent with the cookie it
      revokes is not served yet, or was served with success and its answer has not arrived. */
  lemma LogoutHarmsIff(s: Session)
    requires SessionInv(s)
    ensures NeverReuses(Next(s, Logout)) <==> !LogoutHarms(s)
    ensures Next(s, Logout).cookie.None? && !Next(s, Logout).access
  {
    var t := Next(s, Logout);
    if !LogoutHarms(s) {
      LogoutKeepsInv(s);
      InvNeverReuses(t);
    } else if s.flight.Requested? {
      var st := FreshRefresh(t);
      LogoutDuringRefreshIsReuse(s, st);
      ReusedAtOnce(t, st);
    } else {
      HoldsRevoked(Next(t, ReceiveRefresh(false)), s.flight.result.value);
      EarlierReuse(t, ReceiveRefresh(false));
    }
  }

  // ---------------------------------------------------------------- three runs that end in a reuse

  /** A login, and the refresh that it makes possible sent. */
  function Sent(): Session {
    Session(map["a" := T.Token("1", "u", "f", 10, false, None)], Some("a"), true, Requested(Some("a")), {})
  }

  lemma SentIsReached() returns (sts: seq<Step>)
    ensures Run(START, sts) == Some(Sent())
  {
    hide Run;
    RunNothing(START);
    RunSnoc(START, [], ServeLogin("a", "1", "f", "u", 10));
    sts := [] + [ServeLogin("a", "1", "f", "u", 10)];
    RunSnoc(START, sts, ReceiveLogin("a"));
    sts := sts + [ReceiveLogin("a")];
    RunSnoc(START, sts, CallRefresh);
    sts := sts + [CallRefresh];
  }

  /** Login, refresh, lost response, refresh: the session is revoked as reused. */
  lemma LostResponseRun() returns (sts: seq<Step>)
    ensures Run(START, sts).Some? && Run(START, sts).value.flight == Answered(Some("a"), Err(T.TokenReused))
  {
    hide Run;
    sts := SentIsReached();
    RunSnoc(START, sts, ServeRefresh(0, T.Active, "b", "2", 10));
    sts := sts + [ServeRefresh(0, T.Active, "b", "2", 10)];
    RunSnoc(START, sts, LoseResponse);
    sts := sts + [LoseResponse];
    RunSnoc(START, sts, CallRefresh);
    sts := sts + [CallRefresh];
    RunSnoc(START, sts, ServeRefresh(0, T.Active, "c", "3", 10));
    sts := sts + [ServeRefresh(0, T.Active, "c", "3", 10)];
  }

  /** Login, refresh sent, logout: the refresh is answered as a reuse. */
  lemma LogoutRun() returns (sts: seq<Step>)
    ensures Run(START, sts).Some? && Run(START, sts).value.flight == Answered(Some("a"), Err(T.TokenReused))
  {
    hide Run;
    sts := SentIsReached();
    RunSnoc(START, sts, Logout);
    sts := sts + [Logout];
    RunSnoc(START, sts, ServeRefresh(0, T.Active, "b", "2", 10));
    sts := sts + [ServeRefresh(0, T.Active, "b", "2", 10)];
  }

  /** Login, refresh served, logout, answer received, refresh: the next refresh is answered as a reuse. */
  lemma LogoutBeforeAnswerRun() returns (sts: seq<Step>)
    ensures Run(START, sts).Some? && Run(START, sts).value.flight == Answered(Some("b"), Err(T.TokenReused))
  {
    hide Run;
    sts := SentIsReached();
    RunSnoc(START, sts, ServeRefresh(0, T.Active, "b", "2", 10));
    sts := sts + [ServeRefresh(0, T.Active, "b", "2", 10)];
    RunSnoc(START, sts, Logout);
    sts := sts + [Logout];
    RunSnoc(START, sts, ReceiveRefresh(false));
    sts := sts + [ReceiveRefresh(false)];
    RunSnoc(START, sts, CallRefresh);
    sts := sts + [CallRefresh];
    RunSnoc(START, sts, ServeRefresh(0, T.Active, "c", "3", 10));
    sts := sts + [ServeRefresh(0, T.Active, "c", "3", 10)];
  }

  lemma RunNothing(s: Session)
    ensures Run(s, []) == Some(s)
  {}

  lemma {:induction false} RunSnoc(s: Session, sts: seq<Step>, st: Step)
    requires Run(s, sts).Some? && Enabled(Run(s, sts).value, st)
    ensures Run(s, sts + [st]) == Some(Next(Run(s, sts).value, st))
    decreases |sts|
  {
    if sts == [] {
    } else {
      assert (sts + [st])[1..] == sts[1..] + [st];
      RunSnoc(Next(s, sts[0]), sts[1..], st);
    }
  }

  // ---------------------------------------------------------------- the 401 interceptor

  /** What the server and the refresh say to one sending of a request. */
  datatype Reply = Reply(status: int, hasToken: bool, refreshed: bool)

  predicate Retries(r: Reply, retried: bool, isAuthCall: bool) {
    r.status == 401 && !retried && !isAuthCall && r.hasToken && r.refreshed
  }

  /** How often a request is sent, given the replies to its sendings. */
  function Sendings(replies: seq<Reply>, retried: bool, isAuthCall: bool): nat
    decreases |replies|
  {
    if replies == [] then 0
    else 1 + if Retries(replies[0], retried, isAuthCall) then Sendings(replies[1..], true, isAuthCall) else 0
  }

  /** A request is sent at most twice, the second time only after a successful refresh; calls to the
      authentication endpoints are never repeated. */
  lemma SentAtMostTwice(replies: seq<Reply>, isAuthCall: bool)
    ensures Sendings(replies, false, isAuthCall) <= 2
    ensures Sendings(replies, false, isAuthCall) == 2 <==>
              2 <= |replies| && !isAuthCall && replies[0].status == 401 && replies[0].hasToken && replies[0].refreshed
  {
    if 2 <= |replies| {
      assert Sendings(replies[1..], true, isAuthCall) == 1;
    }
  }

  /** The module state behind `refreshAccessToken`, with the session it belongs to; `sent` and `settled`
      count its requests. */
  class HttpClient {
    var refreshing: bool
    var access: Option<string>
    ghost var session: Session
    ghost var sent: nat
    ghost var settled: nat

    /** At most one refresh request is unsettled, and `refreshing` says whether there is one. */
    ghost predicate Valid()
      reads this
    {
      && sent == settled + (if refreshing then 1 else 0)
      && (refreshing <==> !session.flight.NoFlight?)
      && (access.Some? <==> session.access)
    }

    constructor ()
      ensures Valid() && !refreshing && access == None && sent == 0 && session == START
    {
      refreshing, access, session, sent, settled := false, None, START, 0, 0;
    }

    /** The step CallRefresh: a request is sent only when none is in flight, so every caller waits for the
        same one. */
    method RefreshAccessToken() returns (posts: bool)
      requires Valid()
      modifies this
      ensures Valid() && refreshing && access == old(access) && settled == old(settled)
      ensures session == Next(old(session), CallRefresh)
      ensures posts <==> !old(refreshing)
      ensures sent == old(sent) + if posts then 1 else 0
    {
      session := Next(session, CallRefresh);
      posts := !refreshing;
      if posts {
        refreshing := true;
        sent := sent + 1;
      }
    }

    /** The response, or None for any error: the step that receives or loses the answer. */
    method Settle(token: Option<string>, ghost st: Step)
      requires Valid() && refreshing && Enabled(session, st)
      requires st.ReceiveRefresh? || st.LoseRequest? || st.LoseResponse?
      requires token.Some? <==> st.ReceiveRefresh? && session.flight.result.Ok?
      modifies this
      ensures Valid() && !refreshing && access == token
      ensures session == Next(old(session), st)
      ensures sent == old(sent) && settled == old(settled) + 1
    {
      session := Next(session, st);
      access := token;
      refreshing := false;
      settled := settled + 1;
    }

    /** Two callers before the answer share one request, which carries the cookie of that moment. */
    method TwoCallers() returns (first: bool, second: bool)
      requires Valid() && !refreshing
      modifies this
      ensures Valid() && first && !second && sent == old(sent) + 1
      ensures session == old(session).(flight := Requested(old(session).cookie))
    {
      first := RefreshAccessToken();
      second := RefreshAccessToken();
    }
  }
}
