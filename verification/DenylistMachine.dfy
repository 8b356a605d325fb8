/** Access-token revocation: logout reads the clock, computes a lifetime in whole seconds
    and sets an expiring deny key; the gateway verifies a token by its `exp` and then asks
    for the key. Each of these is a step of its own. Times are milliseconds, `exp` is in
    seconds as in section 4.1.4 of RFC 7519. */
module DenylistMachine {

  /** A verification between `jwtVerify` and `isRevoked`, or its outcome. */
  datatype Check =
    | Checked(jti: nat)
    | Accepted(jti: nat, at: nat)
    | Rejected

  /** A logout between its awaits: claims forwarded, lifetime computed, key set. */
  datatype Logout =
    | Forwarded(jti: nat, exp: nat)
    | Timed(jti: nat, ttl: int, readAt: nat)
    | LoggedOut(jti: nat)

  /** When the logout that last wrote a key read the clock, and when it wrote. */
  datatype Write = Write(readAt: nat, setAt: nat)

  /** `tokens` gives the `exp` of every signed token; `deny` the moment a key expires;
      `revoked` the tokens of which a logout passed its SET; `late` the checks that accepted
      such a token. `written`, `revoked` and `late` are history. */
  datatype State = State(
    now: nat,
    tokens: map<nat, nat>,
    deny: map<nat, int>,
    written: map<nat, Write>,
    checks: map<nat, Check>,
    logouts: map<nat, Logout>,
    revoked: set<nat>,
    late: set<nat>)

  const EMPTY := State(0, map[], map[], map[], map[], map[], {}, {})

  datatype Event =
    | Tick(ms: nat)
    | Sign(jti: nat, exp: nat)
    | Verify(check: nat, jti: nat)
    | Consult(check: nat)
    | StartLogout(logout: nat, check: nat)
    | ReadClock(logout: nat)
    | SetKey(logout: nat)

  predicate KeyLive(deny: map<nat, int>, jti: nat, now: nat) {
    jti in deny && now < deny[jti]
  }

  /** `jwtVerify` rejects as soon as `exp` is not later than the current second. */
  predicate Expired(exp: nat, now: nat) {
    exp <= now / 1000
  }

  function ApplyVerify(s: State, v: nat, jti: nat): State {
    if v in s.checks then s
    else
      var passes := jti in s.tokens && !Expired(s.tokens[jti], s.now);
      s.(checks := s.checks[v := if passes then Checked(jti) else Rejected])
  }

  function ApplyConsult(s: State, v: nat): State {
    if v in s.checks && s.checks[v].Checked? then
      var jti := s.checks[v].jti;
      if KeyLive(s.deny, jti, s.now) then s.(checks := s.checks[v := Rejected])
      else s.(checks := s.checks[v := Accepted(jti, s.now)], late := if jti in s.revoked then s.late + {v} else s.late)
    else s
  }

  /** The gateway forwards the claims only of a token it has just accepted. */
  function ApplyStartLogout(s: State, q: nat, v: nat): State {
    if q !in s.logouts && v in s.checks && s.checks[v].Accepted? && s.checks[v].jti in s.tokens then
      s.(logouts := s.logouts[q := Forwarded(s.checks[v].jti, s.tokens[s.checks[v].jti])])
    else s
  }

  function ApplyReadClock(s: State, q: nat): State {
    if q in s.logouts && s.logouts[q].Forwarded? then
      var l := s.logouts[q];
      s.(logouts := s.logouts[q := Timed(l.jti, l.exp - s.now / 1000, s.now)])
    else s
  }

  function ApplySetKey(s: State, q: nat): State {
    if q in s.logouts && s.logouts[q].Timed? then
      var l := s.logouts[q];
      var done := s.(logouts := s.logouts[q := LoggedOut(l.jti)], revoked := s.revoked + {l.jti});
      if l.ttl <= 0 then done
      else done.(deny := s.deny[l.jti := s.now + 1000 * l.ttl], written := s.written[l.jti := Write(l.readAt, s.now)])
    else s
  }

  function Apply(s: State, e: Event): State {
    match e
    case Tick(ms) => s.(now := s.now + ms)
    case Sign(jti, exp) => if jti in s.tokens then s else s.(tokens := s.tokens[jti := exp])
    case Verify(v, jti) => ApplyVerify(s, v, jti)
    case Consult(v) => ApplyConsult(s, v)
    case StartLogout(q, v) => ApplyStartLogout(s, q, v)
    case ReadClock(q) => ApplyReadClock(s, q)
    case SetKey(q) => ApplySetKey(s, q)
  }

  function Exec(es: seq<Event>): State {
    if es == [] then EMPTY else Apply(Exec(es[..|es| - 1]), es[|es| - 1])
  }

  lemma ExecSnoc(es: seq<Event>, e: Event)
    ensures Exec(es + [e]) == Apply(Exec(es), e)
  {
    assert (es + [e])[..|es|] == es;
  }

  /** A continuation ends with its last event. */
  lemma ExecMore(es: seq<Event>, more: seq<Event>)
    requires more != []
    ensures Exec(es + more) == Apply(Exec(es + more[..|more| - 1]), more[|more| - 1])
  {
    assert (es + more)[..|es + more| - 1] == es + more[..|more| - 1];
  }
}
