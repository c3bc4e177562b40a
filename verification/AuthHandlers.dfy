/** identity-service's command handler as it runs, over its token store and the login throttle. */
module AuthHandlers {
  import opened Wrappers
  import T = RefreshTokens
  import L = LoginThrottle

  datatype LoginError = RateLimited | InvalidCredentials | AccountDisabled

  class AuthCommandHandler {
    var tokens: T.Store
    const throttle: L.RedisLoginThrottle

    constructor (throttle: L.RedisLoginThrottle)
      ensures this.throttle == throttle && tokens == map[]
    {
      this.throttle, tokens := throttle, map[];
    }

    /** `verdict` is what the stored user and password say; the new token's values are fresh. */
    method Login(key: string, now: T.Time, verdict: L.Verdict, redisUp: bool,
                 hash: string, id: T.Id, family: T.Id, userId: T.Id, expiresAt: T.Time)
      returns (r: Result<string, LoginError>)
      modifies this, throttle
      ensures redisUp ==>
                throttle.Get(key)
                == L.Login(old(throttle.Get(key)), L.Attempt(now, verdict), throttle.max, throttle.window)
      ensures throttle.entries - {key} == old(throttle.entries) - {key}
      ensures !redisUp ==> throttle.entries == old(throttle.entries)
      ensures redisUp && L.Locked(old(throttle.Get(key)), now, throttle.max) <==> r == Err(RateLimited)
      ensures r.Ok? ==> verdict.Correct? && r == Ok(hash)
                        && tokens == T.Next(old(tokens), T.Login(hash, id, family, userId, expiresAt))
      ensures r.Ok? ==> hash in tokens && tokens[hash] == T.Token(id, userId, family, expiresAt, false, None)
      ensures r.Err? ==> tokens == old(tokens)
      ensures r == Err(InvalidCredentials) ==> verdict.WrongPassword?
      ensures r == Err(AccountDisabled) ==> verdict.AccountDisabled?
      // only a wrong password counts, and only a success forgets the failures
      ensures redisUp && r == Err(InvalidCredentials) ==>
                throttle.Get(key) == Some(L.Entry(L.LiveCount(old(throttle.Get(key)), now) + 1, now + throttle.window))
      ensures r == Err(RateLimited) || r == Err(AccountDisabled) ==> throttle.entries == old(throttle.entries)
      ensures redisUp && r.Ok? ==> key !in throttle.entries
    {
      var locked := throttle.IsLocked(key, now, redisUp);
      if locked {
        return Err(RateLimited);
      }
      if verdict.WrongPassword? {
        throttle.RegisterFailure(key, now, redisUp);
        return Err(InvalidCredentials);
      }
      if verdict.AccountDisabled? {
        return Err(LoginError.AccountDisabled);
      }
      tokens := tokens[hash := T.Token(id, userId, family, expiresAt, false, None)];
      throttle.Reset(key, redisUp);
      r := Ok(hash);
    }

    method RevokeFamily(family: T.Id) returns (count: nat)
      modifies this`tokens
      ensures tokens == T.RevokeFamily(old(tokens), family)
      ensures count == |T.Live(old(tokens), family)|
    {
      count := |T.Live(tokens, family)|;
      tokens := map h | h in tokens :: if tokens[h].family == family then tokens[h].(revoked := true) else tokens[h];
    }

    method Refresh(presented: string, now: T.Time, account: T.Account, hash: string, id: T.Id, expiresAt: T.Time)
      returns (r: Result<string, T.AuthError>)
      modifies this`tokens
      ensures tokens == T.Next(old(tokens), T.Refresh(presented, now, account, hash, id, expiresAt))
      ensures r == (match T.Check(old(tokens), presented, now, account) case Ok(_) => Ok(hash) case Err(x) => Err(x))
      ensures var known := presented in old(tokens);
              var revoked := known && old(tokens)[presented].revoked;
              var expired := known && old(tokens)[presented].expiresAt <= now;
              && (r == Err(T.TokenReused) <==> known && revoked)
              && (r == Err(T.TokenExpired) <==> known && !revoked && expired)
              && (r == Err(T.InvalidToken) <==> !known || (!revoked && !expired && account.Missing?))
              && (r == Err(T.AccountDisabled) <==> known && !revoked && !expired && account.Disabled?)
              && (r == Ok(hash) <==> known && !revoked && !expired && account.Active?)
      ensures r.Ok? ==> r == Ok(hash) && hash in tokens
                        && tokens[hash] == T.Token(id, old(tokens)[presented].userId, old(tokens)[presented].family,
                                                   expiresAt, false, None)
      ensures r.Ok? && hash != presented ==> tokens[presented].revoked && tokens[presented].replacedBy == Some(id)
      ensures r.Err? && r.error != T.TokenReused ==> tokens == old(tokens)
    {
      if presented !in tokens {
        return Err(T.InvalidToken);
      }
      var current := tokens[presented];
      if current.revoked {
        var _ := RevokeFamily(current.family);
        return Err(T.TokenReused);
      }
      if current.expiresAt <= now {
        return Err(T.TokenExpired);
      }
      if account.Missing? {
        return Err(T.InvalidToken);
      }
      if account.Disabled? {
        return Err(T.AccountDisabled);
      }
      tokens := tokens[presented := T.Revoked(current, Some(id))];
      tokens := tokens[hash := T.Token(id, current.userId, current.family, expiresAt, false, None)];
      r := Ok(hash);
    }

    method Logout(cookie: Option<string>)
      modifies this`tokens
      ensures tokens == T.Next(old(tokens), T.Logout(cookie))
    {
      if cookie.Some? && cookie.value != [] && cookie.value in tokens {
        var _ := RevokeFamily(tokens[cookie.value].family);
      }
    }
  }
}
