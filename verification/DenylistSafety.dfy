/** A revoked token stays refused, with the one exception the two-step check allows. */
module DenylistSafety {
  import opened DenylistMachine

  ghost predicate LogoutOk(s: State, q: nat)
    requires q in s.logouts
  {
    match s.logouts[q]
    case Forwarded(j, exp) => j in s.tokens && s.tokens[j] == exp
    case Timed(j, ttl, readAt) => j in s.tokens && readAt <= s.now && ttl == s.tokens[j] - readAt / 1000
    case LoggedOut(j) => j in s.revoked
  }

  /** A deny key outlives its token, by less than a second and the delay of its SET. */
  ghost predicate KeyOk(s: State, j: nat)
    requires j in s.deny
  {
    && j in s.tokens && j in s.written && j in s.revoked
    && var w := s.written[j];
       w.readAt <= w.setAt <= s.now
       && s.tokens[j] * 1000 <= s.deny[j] < s.tokens[j] * 1000 + 1000 + (w.setAt - w.readAt)
  }

  ghost predicate RevokedOk(s: State, j: nat) {
    j in s.tokens && (KeyLive(s.deny, j, s.now) || Expired(s.tokens[j], s.now))
  }

  ghost predicate CheckOk(s: State, v: nat)
    requires v in s.checks
  {
    match s.checks[v]
    case Checked(j) => j in s.tokens && v !in s.late
    case Accepted(j, at) => j in s.tokens && (v in s.late ==> Expired(s.tokens[j], at))
    case Rejected => true
  }

  ghost predicate Sound(s: State) {
    && (forall q :: q in s.logouts ==> LogoutOk(s, q))
    && (forall j :: j in s.deny ==> KeyOk(s, j))
    && (forall j :: j in s.revoked ==> RevokedOk(s, j))
    && (forall v :: v in s.checks ==> CheckOk(s, v))
    && s.late <= s.checks.Keys
  }

  /** Reading the clock, waiting, and setting the key in whole seconds covers the token. */
  lemma LifetimeCovers(exp: nat, readAt: nat, setAt: nat)
    requires readAt <= setAt
    ensures var expiry := setAt + 1000 * (exp - readAt / 1000);
      exp * 1000 <= expiry < exp * 1000 + 1000 + (setAt - readAt)
  {
  }

  lemma SetKeyStep(s: State, q: nat)
    requires Sound(s)
    ensures Sound(ApplySetKey(s, q))
  {
    if q in s.logouts && s.logouts[q].Timed? {
      var t, l := ApplySetKey(s, q), s.logouts[q];
      assert LogoutOk(s, q);
      LifetimeCovers(s.tokens[l.jti], l.readAt, s.now);
      forall p | p in t.logouts ensures LogoutOk(t, p) { if p in s.logouts { assert LogoutOk(s, p); } }
      forall j | j in t.deny ensures KeyOk(t, j) { if j in s.deny { assert KeyOk(s, j); } }
      forall j | j in t.revoked ensures RevokedOk(t, j) { if j in s.revoked { assert RevokedOk(s, j); } }
      forall v | v in t.checks ensures CheckOk(t, v) { assert CheckOk(s, v); }
    }
  }

  lemma ConsultStep(s: State, v: nat)
    requires Sound(s)
    ensures Sound(ApplyConsult(s, v))
  {
    var t := ApplyConsult(s, v);
    forall w | w in t.checks ensures CheckOk(t, w) {
      assert CheckOk(s, w);
      if w == v && s.checks[v].Checked? && s.checks[v].jti in s.revoked { assert RevokedOk(s, s.checks[v].jti); }
    }
    forall q | q in t.logouts ensures LogoutOk(t, q) { assert LogoutOk(s, q); }
    forall j | j in t.deny ensures KeyOk(t, j) { assert KeyOk(s, j); }
    forall j | j in t.revoked ensures RevokedOk(t, j) { assert RevokedOk(s, j); }
  }

  lemma TickStep(s: State, ms: nat)
    requires Sound(s)
    ensures Sound(Apply(s, Tick(ms)))
  {
    var t := Apply(s, Tick(ms));
    forall q | q in t.logouts ensures LogoutOk(t, q) { assert LogoutOk(s, q); }
    forall j | j in t.deny ensures KeyOk(t, j) { assert KeyOk(s, j); }
    forall j | j in t.revoked ensures RevokedOk(t, j) {
      assert RevokedOk(s, j);
      if j in s.deny { assert KeyOk(s, j); }
    }
    forall v | v in t.checks ensures CheckOk(t, v) { assert CheckOk(s, v); }
  }

  lemma LogoutStep(s: State, e: Event)
    requires Sound(s) && (e.StartLogout? || e.ReadClock?)
    ensures Sound(Apply(s, e))
  {
    var t := Apply(s, e);
    assert t.tokens == s.tokens && t.deny == s.deny && t.written == s.written;
    assert t.checks == s.checks && t.revoked == s.revoked;
    forall q | q in t.logouts ensures LogoutOk(t, q) { if q in s.logouts { assert LogoutOk(s, q); } }
    forall j | j in t.deny ensures KeyOk(t, j) { assert KeyOk(s, j); }
    forall j | j in t.revoked ensures RevokedOk(t, j) { assert RevokedOk(s, j); }
    forall v | v in t.checks ensures CheckOk(t, v) { assert CheckOk(s, v); }
  }

  lemma TokenStep(s: State, e: Event)
    requires Sound(s) && (e.Sign? || e.Verify?)
    ensures Sound(Apply(s, e))
  {
    var t := Apply(s, e);
    assert t.deny == s.deny && t.written == s.written && t.logouts == s.logouts && t.revoked == s.revoked;
    forall q | q in t.logouts ensures LogoutOk(t, q) { assert LogoutOk(s, q); }
    forall j | j in t.deny ensures KeyOk(t, j) { assert KeyOk(s, j); }
    forall j | j in t.revoked ensures RevokedOk(t, j) { assert RevokedOk(s, j); }
    forall v | v in t.checks ensures CheckOk(t, v) { if v in s.checks { assert CheckOk(s, v); } }
  }

  lemma {:induction false} SoundHolds(es: seq<Event>)
    ensures Sound(Exec(es))
  {
    if es != [] {
      var s, e := Exec(es[..|es| - 1]), es[|es| - 1];
      SoundHolds(es[..|es| - 1]);
      match e
      case SetKey(q) => SetKeyStep(s, q);
      case Consult(v) => ConsultStep(s, v);
      case Tick(ms) => TickStep(s, ms);
      case Sign(_, _) => TokenStep(s, e);
      case Verify(_, _) => TokenStep(s, e);
      case _ => LogoutStep(s, e);
    }
  }

  lemma RevokedKept(s: State, e: Event)
    ensures s.revoked <= Apply(s, e).revoked
  {
  }

  lemma {:induction false} RevokedStays(es: seq<Event>, more: seq<Event>, j: nat)
    requires j in Exec(es).revoked
    ensures j in Exec(es + more).revoked
    decreases |more|
  {
    if more == [] {
      assert es + more == es;
    } else {
      var n := |more| - 1;
      RevokedStays(es, more[..n], j);
      RevokedKept(Exec(es + more[..n]), more[n]);
      ExecMore(es, more);
    }
  }

  /** Once a logout has passed its SET, at every later millisecond the key is live or the
      token has expired, whatever the delay before the SET and however often the logout is
      repeated. */
  lemma RevocationIsComplete(es: seq<Event>, more: seq<Event>, j: nat)
    requires j in Exec(es).revoked
    ensures var t := Exec(es + more);
      j in t.tokens && (KeyLive(t.deny, j, t.now) || Expired(t.tokens[j], t.now))
  {
    RevokedStays(es, more, j);
    SoundHolds(es + more);
    assert RevokedOk(Exec(es + more), j);
  }

  /** The key lives at least as long as the token, and less than a second and the delay
      between reading the clock and the SET longer. */
  lemma KeyLifetime(es: seq<Event>, j: nat)
    requires j in Exec(es).deny
    ensures var s := Exec(es);
      && j in s.tokens && j in s.written && s.written[j].readAt <= s.written[j].setAt
      && s.tokens[j] * 1000 <= s.deny[j]
      && s.deny[j] < s.tokens[j] * 1000 + 1000 + (s.written[j].setAt - s.written[j].readAt)
  {
    SoundHolds(es);
    assert KeyOk(Exec(es), j);
  }

  /** A verification whose two steps nothing separates never accepts a revoked token. */
  lemma AtomicVerifyRefuses(es: seq<Event>, more: seq<Event>, j: nat, v: nat)
    requires j in Exec(es).revoked && v !in Exec(es + more).checks
    ensures var t := Exec(es + more + [Verify(v, j)] + [Consult(v)]); v in t.checks && t.checks[v] == Rejected
  {
    RevocationIsComplete(es, more, j);
    ExecSnoc(es + more, Verify(v, j));
    ExecSnoc(es + more + [Verify(v, j)], Consult(v));
  }

  /** A verification with nothing between its two steps accepts exactly the signed tokens that
      no logout has revoked, at every millisecond before `exp`, and rejects all else. */
  lemma VerifyAcceptsExactly(es: seq<Event>, j: nat, v: nat)
    requires v !in Exec(es).checks
    ensures var s, t := Exec(es), Exec(es + [Verify(v, j)] + [Consult(v)]);
      && v in t.checks
      && (t.checks[v] == Accepted(j, s.now) <==> j in s.tokens && j !in s.revoked && s.now < 1000 * s.tokens[j])
      && (t.checks[v] == Rejected <==> !(j in s.tokens && j !in s.revoked && s.now < 1000 * s.tokens[j]))
  {
    var s := Exec(es);
    SoundHolds(es);
    if j in s.deny { assert KeyOk(s, j); }
    if j in s.revoked { assert RevokedOk(s, j); }
    ExecSnoc(es, Verify(v, j));
    ExecSnoc(es + [Verify(v, j)], Consult(v));
  }

  // ---------- what a logout can revoke ----------

  /** Some verification accepted the token. */
  ghost predicate WasAccepted(s: State, j: nat) {
    exists v :: v in s.checks && s.checks[v].Accepted? && s.checks[v].jti == j
  }

  ghost predicate FromAccepted(s: State) {
    && (forall q :: q in s.logouts ==> WasAccepted(s, s.logouts[q].jti))
    && (forall j :: j in s.revoked ==> WasAccepted(s, j))
  }

  lemma AcceptedKept(s: State, e: Event, j: nat)
    requires WasAccepted(s, j)
    ensures WasAccepted(Apply(s, e), j)
  {
    var v :| v in s.checks && s.checks[v].Accepted? && s.checks[v].jti == j;
    assert v in Apply(s, e).checks && Apply(s, e).checks[v] == s.checks[v];
  }

  lemma FromAcceptedStep(s: State, e: Event)
    requires FromAccepted(s)
    ensures FromAccepted(Apply(s, e))
  {
    var t := Apply(s, e);
    forall q | q in t.logouts ensures WasAccepted(t, t.logouts[q].jti) {
      if q in s.logouts {
        LogoutJti(s, e, q);
        AcceptedKept(s, e, s.logouts[q].jti);
      } else {
        assert e.check in t.checks && t.checks[e.check].jti == t.logouts[q].jti;
      }
    }
    forall j | j in t.revoked ensures WasAccepted(t, j) {
      if j in s.revoked { AcceptedKept(s, e, j); } else { AcceptedKept(s, e, s.logouts[e.logout].jti); }
    }
  }

  lemma LogoutJti(s: State, e: Event, q: nat)
    requires q in s.logouts
    ensures q in Apply(s, e).logouts && Apply(s, e).logouts[q].jti == s.logouts[q].jti
  {
  }

  /** The gateway forwards and revokes only tokens that it has accepted. */
  lemma {:induction false} OnlyAcceptedAreRevoked(es: seq<Event>)
    ensures FromAccepted(Exec(es))
  {
    if es != [] {
      OnlyAcceptedAreRevoked(es[..|es| - 1]);
      FromAcceptedStep(Exec(es[..|es| - 1]), es[|es| - 1]);
    }
  }

  /** Exactly when a verification that is past `jwtVerify` accepts a revoked token: when it asks
      at or after the key's expiry. On the clock that is never before `exp`, and always once a
      second and the delay of the SET have gone by since. */
  lemma LateAnswerExactly(es: seq<Event>, v: nat)
    requires var s := Exec(es); v in s.checks && s.checks[v].Checked? && s.checks[v].jti in s.revoked
    ensures var s := Exec(es);
      var t, j := Exec(es + [Consult(v)]), s.checks[v].jti;
      && j in s.tokens && v in t.checks
      && (t.checks[v].Accepted? || t.checks[v].Rejected?)
      && (t.checks[v].Accepted? <==> j !in s.deny || s.deny[j] <= s.now)
      && (s.now < 1000 * s.tokens[j] ==> t.checks[v].Rejected?)
      && (j !in s.deny ==> 1000 * s.tokens[j] <= s.now)
      && (j in s.deny ==> j in s.written && s.written[j].readAt <= s.written[j].setAt)
      && (j in s.deny ==>
            var delay := s.written[j].setAt - s.written[j].readAt;
            s.now >= 1000 * s.tokens[j] + 1000 + delay ==> t.checks[v].Accepted?)
  {
    var s := Exec(es);
    SoundHolds(es);
    assert RevokedOk(s, s.checks[v].jti);
    if s.checks[v].jti in s.deny { assert KeyOk(s, s.checks[v].jti); }
    ExecSnoc(es, Consult(v));
  }

  /** On every run, an acceptance of a token that had been revoked was given only after the
      token had expired. */
  lemma AcceptedAfterLogoutHadExpired(es: seq<Event>, v: nat)
    requires var s := Exec(es); v in s.checks && s.checks[v].Accepted? && v in s.late
    ensures var s := Exec(es); s.checks[v].jti in s.tokens && Expired(s.tokens[s.checks[v].jti], s.checks[v].at)
  {
    SoundHolds(es);
    assert CheckOk(Exec(es), v);
  }

  /** The exception does occur: a verification that passes `jwtVerify` just before `exp` and
      asks for the key after it is gone accepts a token that was revoked all along. */
  const REVOKED_EARLY: seq<Event> := [Sign(1, 10), Verify(0, 1), Consult(0), StartLogout(0, 0), ReadClock(0), SetKey(0)]

  lemma RevokedTokenAccepted()
    ensures var es := REVOKED_EARLY;
      && 1 in Exec(es).revoked
      && var t := Exec(es + [Tick(9999)] + [Verify(5, 1)] + [Tick(1)] + [Consult(5)]);
         5 in t.checks && t.checks[5] == Accepted(1, 10000) && 5 in t.late
  {
    var es := REVOKED_EARLY;
    AfterLogout();
    ExecSnoc(es, Tick(9999));
    ExecSnoc(es + [Tick(9999)], Verify(5, 1));
    ExecSnoc(es + [Tick(9999)] + [Verify(5, 1)], Tick(1));
    ExecSnoc(es + [Tick(9999)] + [Verify(5, 1)] + [Tick(1)], Consult(5));
  }

  lemma AfterLogout()
    ensures Exec(REVOKED_EARLY)
      == State(0, map[1 := 10], map[1 := 10000], map[1 := Write(0, 0)], map[0 := Accepted(1, 0)],
               map[0 := LoggedOut(1)], {1}, {})
  {
    var b := [Sign(1, 10), Verify(0, 1), Consult(0), StartLogout(0, 0), ReadClock(0)];
    AfterClock();
    ExecSnoc(b, SetKey(0));
    assert b + [SetKey(0)] == REVOKED_EARLY;
  }

  lemma AfterClock()
    ensures Exec([Sign(1, 10), Verify(0, 1), Consult(0), StartLogout(0, 0), ReadClock(0)])
      == State(0, map[1 := 10], map[], map[], map[0 := Accepted(1, 0)], map[0 := Timed(1, 10, 0)], {}, {})
  {
    var b := [Sign(1, 10), Verify(0, 1), Consult(0)];
    AfterFirstCheck();
    ExecSnoc(b, StartLogout(0, 0));
    ExecSnoc(b + [StartLogout(0, 0)], ReadClock(0));
    assert b + [StartLogout(0, 0)] + [ReadClock(0)]
        == [Sign(1, 10), Verify(0, 1), Consult(0), StartLogout(0, 0), ReadClock(0)];
  }

  lemma AfterFirstCheck()
    ensures Exec([Sign(1, 10), Verify(0, 1), Consult(0)])
         == State(0, map[1 := 10], map[], map[], map[0 := Accepted(1, 0)], map[], {}, {})
  {
    var a := [Sign(1, 10)];
    ExecSnoc([], Sign(1, 10));
    assert [] + a == a;
    ExecSnoc(a, Verify(0, 1));
    ExecSnoc(a + [Verify(0, 1)], Consult(0));
    assert a + [Verify(0, 1)] + [Consult(0)] == [Sign(1, 10), Verify(0, 1), Consult(0)];
  }
}
