/** The denylist, the gateway's verifier and logout as objects updated in place, each step
    proved to be the step of the denylist machine. */
module AuthGateway {
  import opened Options
  import opened DenylistMachine
  import opened DenylistSafety
  import SessionService

  class JwtDenylist {
    /** jti to the moment its `deny:` key expires. */
    var deny: map<nat, int>

    constructor ()
      ensures deny == map[]
    {
      deny := map[];
    }

    method Revoke(jti: nat, ttl: int, now: nat)
      modifies this
      ensures deny == if ttl <= 0 then old(deny) else old(deny)[jti := now + 1000 * ttl]
    {
      if ttl <= 0 { return; }
      deny := deny[jti := now + 1000 * ttl];
    }

    method IsRevoked(jti: nat, now: nat) returns (revoked: bool)
      ensures revoked == KeyLive(deny, jti, now)
    {
      revoked := jti in deny && now < deny[jti];
    }
  }

  /** `LogoutUseCase.execute` with both of its optional inputs. `readAt` is when it reads the
      clock, `setAt` when its SET lands. */
  method Logout(denylist: JwtDenylist, tokens: SessionService.RedisRefreshTokenStore,
                jti: Option<nat>, exp: Option<int>, refreshToken: Option<nat>,
                readAt: nat, setAt: nat)
    requires readAt <= setAt
    modifies denylist, tokens
    ensures jti.Some? && exp.Some? && exp.value > readAt / 1000 ==>
      && denylist.deny.Keys == old(denylist.deny).Keys + {jti.value}
      && (forall j :: j in old(denylist.deny) && j != jti.value ==> denylist.deny[j] == old(denylist.deny)[j])
      && exp.value * 1000 <= denylist.deny[jti.value] < exp.value * 1000 + 1000 + (setAt - readAt)
    ensures !(jti.Some? && exp.Some? && exp.value > readAt / 1000) ==> denylist.deny == old(denylist.deny)
    ensures tokens.keys == if refreshToken.Some? then old(tokens.keys) - {refreshToken.value} else old(tokens.keys)
  {
    if jti.Some? && exp.Some? {
      denylist.Revoke(jti.value, exp.value - readAt / 1000, setAt);
    }
    if refreshToken.Some? {
      tokens.Revoke(refreshToken.value);
    }
  }

  class Gateway {
    const denylist: JwtDenylist
    var now: nat
    var tokens: map<nat, nat>
    var checks: map<nat, Check>
    var logouts: map<nat, DenylistMachine.Logout>
    ghost var written: map<nat, Write>
    ghost var revoked: set<nat>
    ghost var late: set<nat>

    ghost function View(): State
      reads this, denylist
    {
      State(now, tokens, denylist.deny, written, checks, logouts, revoked, late)
    }

    constructor (denylist: JwtDenylist)
      requires denylist.deny == map[]
      ensures this.denylist == denylist && View() == Exec([])
    {
      this.denylist := denylist;
      now, tokens, checks, logouts := 0, map[], map[], map[];
      written, revoked, late := map[], {}, {};
    }

    method Tick(ms: nat)
      modifies this
      ensures View() == Apply(old(View()), Event.Tick(ms))
    {
      now := now + ms;
    }

    method Sign(jti: nat, exp: nat)
      requires jti !in tokens
      modifies this
      ensures View() == Apply(old(View()), Event.Sign(jti, exp))
    {
      tokens := tokens[jti := exp];
    }

    /** `jwtVerify`: the signature and `exp`. */
    method Verify(v: nat, jti: nat)
      requires v !in checks
      modifies this
      ensures View() == Apply(old(View()), Event.Verify(v, jti))
    {
      if jti !in tokens || tokens[jti] <= now / 1000 {
        checks := checks[v := Rejected];
      } else {
        checks := checks[v := Checked(jti)];
      }
    }

    /** The denylist lookup that follows. */
    method Consult(v: nat)
      modifies this
      ensures View() == Apply(old(View()), Event.Consult(v))
    {
      if v in checks && checks[v].Checked? {
        var jti := checks[v].jti;
        var hit := denylist.IsRevoked(jti, now);
        checks := checks[v := if hit then Rejected else Accepted(jti, now)];
        if !hit && jti in revoked { late := late + {v}; }
      }
    }

    /** The two steps of `verifyAccessToken` with nothing between them. */
    method VerifyAccessToken(v: nat, jti: nat) returns (accepted: bool)
      requires v !in checks
      modifies this
      ensures accepted <==> jti in tokens && !Expired(tokens[jti], now) && !KeyLive(denylist.deny, jti, now)
      ensures View() == Apply(Apply(old(View()), Event.Verify(v, jti)), Event.Consult(v))
    {
      Verify(v, jti);
      Consult(v);
      accepted := checks[v].Accepted?;
    }

    /** The gateway forwards `jti` and `exp` of an access token it accepted. */
    method StartLogout(q: nat, v: nat)
      modifies this
      ensures View() == Apply(old(View()), Event.StartLogout(q, v))
    {
      if q !in logouts && v in checks && checks[v].Accepted? && checks[v].jti in tokens {
        logouts := logouts[q := Forwarded(checks[v].jti, tokens[checks[v].jti])];
      }
    }

    method ReadClock(q: nat)
      modifies this
      ensures View() == Apply(old(View()), Event.ReadClock(q))
    {
      if q in logouts && logouts[q].Forwarded? {
        logouts := logouts[q := Timed(logouts[q].jti, logouts[q].exp - now / 1000, now)];
      }
    }

    method SetKey(q: nat)
      modifies this, denylist
      ensures View() == Apply(old(View()), Event.SetKey(q))
    {
      if q in logouts && logouts[q].Timed? {
        var l := logouts[q];
        denylist.Revoke(l.jti, l.ttl, now);
        if l.ttl > 0 { written := written[l.jti := Write(l.readAt, now)]; }
        revoked := revoked + {l.jti};
        logouts := logouts[q := LoggedOut(l.jti)];
      }
    }

    /** A logout with an accepted access token, nothing between its steps: the token is
        refused from then on. */
    method LogoutAccessToken(q: nat, v: nat, jti: nat) returns (accepted: bool)
      requires q !in logouts && v !in checks
      modifies this, denylist
      ensures accepted <==> old(jti in tokens && !Expired(tokens[jti], now) && !KeyLive(denylist.deny, jti, now))
      ensures accepted ==> jti in tokens && KeyLive(denylist.deny, jti, now) && denylist.deny[jti] >= tokens[jti] * 1000
      ensures !accepted ==> denylist.deny == old(denylist.deny)
      ensures now == old(now) && tokens == old(tokens)
    {
      accepted := VerifyAccessToken(v, jti);
      assert accepted ==> checks[v] == Accepted(jti, now) && jti in tokens;
      StartLogout(q, v);
      assert if accepted then logouts[q] == Forwarded(jti, tokens[jti]) else q !in logouts;
      ReadClock(q);
      assert if accepted then logouts[q] == Timed(jti, tokens[jti] - now / 1000, now) else q !in logouts;
      if accepted { LifetimeCovers(tokens[jti], now, now); }
      SetKey(q);
    }

    /** The gateway's logout with either cookie present or not: a refused access token denies
        nothing, and the refresh token is removed in any case. */
    method LogoutSession(q: nat, v: nat, jti: Option<nat>, refreshToken: Option<nat>,
                         store: SessionService.RedisRefreshTokenStore)
      requires q !in logouts && v !in checks
      modifies this, denylist, store
      ensures var accepted := jti.Some?
          && old(jti.value in tokens && !Expired(tokens[jti.value], now) && !KeyLive(denylist.deny, jti.value, now));
        && (accepted ==>
              && jti.value in tokens && KeyLive(denylist.deny, jti.value, now)
              && denylist.deny[jti.value] >= tokens[jti.value] * 1000)
        && (!accepted ==> denylist.deny == old(denylist.deny))
      ensures store.keys == if refreshToken.Some? then old(store.keys) - {refreshToken.value} else old(store.keys)
      ensures now == old(now) && tokens == old(tokens)
    {
      if jti.Some? {
        var accepted := LogoutAccessToken(q, v, jti.value);
      }
      if refreshToken.Some? {
        store.Revoke(refreshToken.value);
      }
    }
  }
}
