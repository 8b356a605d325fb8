/** How long a refresh token answers, and which steps move a refresh. */
module SessionLifetime {
  import opened Options
  import opened SessionMachine
  import opened SessionSafety

  // ---------- the clock ----------

  function Milliseconds(e: Event): nat { if e.Tick? then e.ms else 0 }

  function Ticks(es: seq<Event>): nat {
    if es == [] then 0 else Ticks(es[..|es| - 1]) + Milliseconds(es[|es| - 1])
  }

  lemma TickStep(s: State, e: Event)
    ensures Apply(s, e).now == s.now + Milliseconds(e)
  {
  }

  /** The clock moves with the ticks of a run and with nothing else. */
  lemma {:induction false} ClockIsTicks(es: seq<Event>, more: seq<Event>)
    ensures Exec(es + more).now == Exec(es).now + Ticks(more)
    decreases |more|
  {
    if more == [] {
      assert es + more == es;
    } else {
      ClockIsTicks(es, more[..|more| - 1]);
      ExecMore(es, more);
      TickStep(Exec(es + more[..|more| - 1]), more[|more| - 1]);
    }
  }

  // ---------- a saved token ----------

  /** The step hands the token to `save`: a session opens, or a refresh issues. */
  predicate Saves(s: State, e: Event, token: nat, record: Record, ttl: int) {
    Fresh(s, token) && (
      || (e == Open(record.user, token, record.family, ttl) && record.family !in s.owner)
      || (e.Issue? && e == Issue(e.request, token, ttl) && e.request in s.requests
          && s.requests[e.request].Taken? && s.requests[e.request].record == record))
  }

  lemma SaveStep(s: State, e: Event, token: nat, record: Record, ttl: int)
    requires Sound(s) && Saves(s, e, token, record, ttl)
    ensures var t := Apply(s, e);
      && t.now == s.now && token in t.saved && record.user in t.signedFor
      && (token in t.redis <==> ttl > 0)
      && (token in t.redis ==> t.redis[token] == Stored(record, s.now + 1000 * ttl))
  {
  }

  predicate SameKey(s: State, t: State, token: nat) {
    (token in s.redis <==> token in t.redis) && (token in s.redis ==> s.redis[token] == t.redis[token])
  }

  lemma KeyStep(s: State, e: Event, token: nat)
    requires token in s.saved && token !in Apply(s, e).deleted
    ensures token in Apply(s, e).saved && SameKey(s, Apply(s, e), token)
  {
  }

  lemma SignedForStep(s: State, e: Event)
    ensures s.signedFor <= Apply(s, e).signedFor
  {
  }

  lemma {:induction false} KeyStays(es: seq<Event>, more: seq<Event>, token: nat)
    requires token in Exec(es).saved
    ensures token !in Exec(es + more).deleted ==> SameKey(Exec(es), Exec(es + more), token)
    ensures token in Exec(es + more).saved && Exec(es).signedFor <= Exec(es + more).signedFor
    decreases |more|
  {
    if more == [] {
      assert es + more == es;
    } else {
      var n := |more| - 1;
      KeyStays(es, more[..n], token);
      ExecMore(es, more);
      SignedForStep(Exec(es + more[..n]), more[n]);
      DeletedKept(Exec(es + more[..n]), more[n]);
      SavedStep(Exec(es + more[..n]), more[n]);
      if token !in Exec(es + more).deleted { KeyStep(Exec(es + more[..n]), more[n], token); }
    }
  }

  lemma SavedStep(s: State, e: Event)
    ensures s.saved.Keys <= Apply(s, e).saved.Keys
  {
  }

  /** A saved token is answered with its record at every millisecond before its lifetime is over,
      unless a DEL has named it, and never afterwards. Its user has an access token as well. */
  lemma LivesExactly(es: seq<Event>, e: Event, token: nat, record: Record, ttl: int, more: seq<Event>)
    requires Saves(Exec(es), e, token, record, ttl)
    ensures var s, t := Exec(es), Exec(es + [e] + more);
      && Find(t.redis, token, t.now)
         == (if token !in t.deleted && t.now < s.now + 1000 * ttl then Some(record) else None)
      && record.user in t.signedFor
  {
    SoundHolds(es);
    SaveStep(Exec(es), e, token, record, ttl);
    ExecSnoc(es, e);
    KeyStays(es + [e], more, token);
    ClockIsTicks(es + [e], more);
    SoundHolds(es + [e] + more);
    FoundExactly(Exec(es + [e] + more), token, record, Exec(es).now + 1000 * ttl, ttl > 0);
  }

  lemma FoundExactly(t: State, token: nat, record: Record, expiry: int, saved: bool)
    requires Sound(t) && (!saved ==> expiry <= t.now)
    requires token !in t.deleted ==>
      (token in t.redis <==> saved) && (token in t.redis ==> t.redis[token] == Stored(record, expiry))
    ensures Find(t.redis, token, t.now) == if token !in t.deleted && t.now < expiry then Some(record) else None
  {
  }

  /** A token that a logout names is refused from then on, and so is one that a take deleted. */
  lemma RevokedForEver(es: seq<Event>, token: nat, more: seq<Event>, q: nat)
    requires q !in Exec(es + [Revoke(token)] + more).requests
    ensures Exec(es + [Revoke(token)] + more + [Get(q, token)]).requests[q] == Refused
  {
    ExecSnoc(es, Revoke(token));
    DeletedForEver(es + [Revoke(token)], more, token, q);
  }

  // ---------- how a refresh moves ----------

  /** A refresh starts with its GET, which reads exactly a live token. */
  lemma ReadsExactly(es: seq<Event>, e: Event, q: nat)
    requires q !in Exec(es).requests
    ensures var s, t := Exec(es), Exec(es + [e]);
      && (q in t.requests <==> e.Get? && e.request == q)
      && (q in t.requests ==>
            if Live(s.redis, e.token, s.now) then t.requests[q] == Got(e.token, s.redis[e.token].record)
            else t.requests[q] == Refused)
  {
    ExecSnoc(es, e);
  }

  lemma TakeStep(s: State, e: Event, q: nat)
    requires q in s.requests && s.requests[q].Got?
    ensures var t := Apply(s, e);
      var (token, record) := (s.requests[q].token, s.requests[q].record);
      && q in t.requests
      && t.requests[q] ==
           (if e == Del(q) then Taken(token, record)
            else if e == Crash(q) then Stalled(token, record)
            else Got(token, record))
  {
  }

  lemma TakeDeletes(s: State, q: nat)
    requires q in s.requests && s.requests[q].Got?
    ensures var t, token := Apply(s, Del(q)), s.requests[q].token;
      token in t.deleted && token in t.taken && token !in t.redis
  {
  }

  /** Then only its own DEL takes it on, which names the key, and only a crash stops it. */
  lemma TakesExactly(es: seq<Event>, e: Event, q: nat)
    requires q in Exec(es).requests && Exec(es).requests[q].Got?
    ensures var s, t := Exec(es), Exec(es + [e]);
      var (token, record) := (s.requests[q].token, s.requests[q].record);
      && q in t.requests
      && t.requests[q] ==
           (if e == Del(q) then Taken(token, record)
            else if e == Crash(q) then Stalled(token, record)
            else Got(token, record))
      && (e == Del(q) ==> token in t.deleted && token in t.taken && token !in t.redis)
  {
    ExecSnoc(es, e);
    TakeStep(Exec(es), e, q);
    TakeDeletes(Exec(es), q);
  }

  /** Then only its own issue of a new token ends it, which counts for its family. */
  lemma IssuesExactly(es: seq<Event>, e: Event, q: nat)
    requires q in Exec(es).requests && Exec(es).requests[q].Taken?
    ensures var s, t := Exec(es), Exec(es + [e]);
      var (token, record) := (s.requests[q].token, s.requests[q].record);
      var issues := e.Issue? && e.request == q && Fresh(s, e.token);
      && q in t.requests
      && t.requests[q] ==
           (if issues then Rotated(token, record)
            else if e == Crash(q) then Dropped(token, record)
            else Taken(token, record))
      && (issues ==> t.rotations == s.rotations + [record.family] && e.token in t.saved && t.saved[e.token] == record)
  {
    ExecSnoc(es, e);
  }

  predicate Over(pc: Pc) { pc.Rotated? || pc.Stalled? || pc.Dropped? || pc.Refused? }

  lemma OverStep(s: State, e: Event, q: nat)
    requires q in s.requests && Over(s.requests[q])
    ensures q in Apply(s, e).requests && Apply(s, e).requests[q] == s.requests[q]
  {
  }

  /** A refresh that ended, was refused or crashed does nothing more on any continuation. */
  lemma {:induction false} OverStays(es: seq<Event>, more: seq<Event>, q: nat)
    requires q in Exec(es).requests && Over(Exec(es).requests[q])
    ensures q in Exec(es + more).requests && Exec(es + more).requests[q] == Exec(es).requests[q]
    decreases |more|
  {
    if more == [] {
      assert es + more == es;
    } else {
      OverStays(es, more[..|more| - 1], q);
      ExecMore(es, more);
      OverStep(Exec(es + more[..|more| - 1]), more[|more| - 1], q);
    }
  }
}
