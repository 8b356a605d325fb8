/** What every run of the session machine keeps. */
module SessionSafety {
  import opened Sets
  import opened SessionMachine

  ghost predicate RequestOk(s: State, q: nat)
    requires q in s.requests
  {
    var pc := s.requests[q];
    pc.Refused? || (
      && pc.token in s.saved && s.saved[pc.token] == pc.record
      && (pc.Taken? || pc.Rotated? || pc.Dropped? ==> pc.token in s.taken))
  }

  ghost predicate Sound(s: State) {
    && (forall t :: t in s.redis ==> t in s.saved && s.saved[t] == s.redis[t].record && t !in s.deleted)
    && s.taken <= s.deleted && s.taken <= s.saved.Keys && s.spent <= s.taken
    && (forall q :: q in s.requests ==> RequestOk(s, q))
    && (forall t :: t in s.saved ==> s.saved[t].family in s.owner && s.owner[s.saved[t].family] == s.saved[t].user)
  }

  lemma SoundStep(s: State, e: Event)
    requires Sound(s)
    ensures Sound(Apply(s, e))
  {
    match e
    case Open(u, token, f, ttl) => if Fresh(s, token) && f !in s.owner { IssueSound(s, token, Record(u, f), ttl); }
    case Issue(q, token, ttl) => RotateSound(s, q, token, ttl);
    case Del(q) => DelSound(s, q);
    case _ =>
      forall q | q in Apply(s, e).requests ensures RequestOk(Apply(s, e), q) {
        if q in s.requests { assert RequestOk(s, q); }
      }
  }

  lemma DelSound(s: State, q: nat)
    requires Sound(s)
    ensures Sound(Apply(s, Del(q)))
  {
    var t := Apply(s, Del(q));
    if q in s.requests { assert RequestOk(s, q); }
    forall p | p in t.requests ensures RequestOk(t, p) { assert RequestOk(s, p); }
  }

  lemma IssueSound(s: State, token: nat, record: Record, ttl: int)
    requires Sound(s) && Fresh(s, token) && (record.family in s.owner ==> s.owner[record.family] == record.user)
    ensures Sound(ApplyIssue(s, token, record, ttl))
  {
    var t := ApplyIssue(s, token, record, ttl);
    forall q | q in t.requests ensures RequestOk(t, q) { assert RequestOk(s, q); }
  }

  lemma RotateSound(s: State, q: nat, token: nat, ttl: int)
    requires Sound(s)
    ensures Sound(ApplyRotate(s, q, token, ttl))
  {
    if q in s.requests && s.requests[q].Taken? && Fresh(s, token) {
      assert RequestOk(s, q);
      IssueSound(s, token, s.requests[q].record, ttl);
      var t, u := ApplyRotate(s, q, token, ttl), ApplyIssue(s, token, s.requests[q].record, ttl);
      forall p | p in t.requests ensures RequestOk(t, p) { assert RequestOk(u, p); }
    }
  }

  /** One token was saved when the family opened, and one by each successful refresh. */
  ghost predicate Counted(s: State, f: nat) {
    |SavedIn(s, f)| == Rotations(s.rotations, f) + if f in s.owner then 1 else 0
  }

  lemma CountedStep(s: State, e: Event, f: nat)
    requires Sound(s) && Counted(s, f)
    ensures Counted(Apply(s, e), f)
  {
    match e
    case Open(u, token, g, ttl) =>
      if Fresh(s, token) && g !in s.owner { IssueCounted(s, token, Record(u, g), ttl, f); }
    case Issue(q, token, ttl) =>
      if q in s.requests && s.requests[q].Taken? && Fresh(s, token) {
        assert RequestOk(s, q);
        IssueCounted(s, token, s.requests[q].record, ttl, f);
        assert Apply(s, e).rotations[..|s.rotations|] == s.rotations;
        assert SavedIn(Apply(s, e), f) == SavedIn(ApplyIssue(s, token, s.requests[q].record, ttl), f);
      }
    case _ => assert SavedIn(Apply(s, e), f) == SavedIn(s, f);
  }

  lemma IssueCounted(s: State, token: nat, record: Record, ttl: int, f: nat)
    requires token !in s.saved
    ensures |SavedIn(ApplyIssue(s, token, record, ttl), f)| == |SavedIn(s, f)| + if record.family == f then 1 else 0
  {
    assert SavedIn(ApplyIssue(s, token, record, ttl), f)
        == SavedIn(s, f) + (if f == record.family then {token} else {});
  }

  lemma {:induction false} SoundHolds(es: seq<Event>)
    ensures Sound(Exec(es)) && forall f :: Counted(Exec(es), f)
  {
    if es != [] {
      var s, e := Exec(es[..|es| - 1]), es[|es| - 1];
      SoundHolds(es[..|es| - 1]);
      SoundStep(s, e);
      forall f ensures Counted(Exec(es), f) { CountedStep(s, e, f); }
    } else {
      forall f ensures Counted(Exec(es), f) { assert SavedIn(EMPTY, f) == {}; }
    }
  }

  /** On every interleaving of GET and DEL, a family has at most one live token more than
      its successful refreshes exceed the distinct tokens they consumed. */
  lemma RotationExcessBounded(es: seq<Event>, f: nat)
    ensures var s := Exec(es);
      |LiveIn(s, f)| + |TakenIn(s, f)| <= 1 + Rotations(s.rotations, f)
    ensures SpentIn(Exec(es), f) <= TakenIn(Exec(es), f)
  {
    var s := Exec(es);
    SoundHolds(es);
    assert Counted(s, f);
    assert LiveIn(s, f) !! TakenIn(s, f);
    assert LiveIn(s, f) + TakenIn(s, f) <= SavedIn(s, f);
    Subset(LiveIn(s, f) + TakenIn(s, f), SavedIn(s, f));
  }

  lemma OwnerKept(s: State, e: Event, f: nat)
    requires Sound(s) && f in s.owner
    ensures f in Apply(s, e).owner && Apply(s, e).owner[f] == s.owner[f]
  {
    if e.Issue? && e.request in s.requests { assert RequestOk(s, e.request); }
  }

  /** A family belongs to one user for ever: whatever happens next, every token of it, live
      or in a request, names the user that opened it. */
  lemma {:induction false} FamilyKeepsItsUser(es: seq<Event>, more: seq<Event>, f: nat)
    requires f in Exec(es).owner
    ensures var t := Exec(es + more);
      && f in t.owner && t.owner[f] == Exec(es).owner[f]
      && (forall k :: k in t.saved && t.saved[k].family == f ==> t.saved[k].user == Exec(es).owner[f])
      && (forall q :: q in t.requests && !t.requests[q].Refused? && t.requests[q].record.family == f
            ==> t.requests[q].record.user == Exec(es).owner[f])
    decreases |more|
  {
    var t := Exec(es + more);
    if more == [] {
      assert es + more == es;
    } else {
      var n := |more| - 1;
      FamilyKeepsItsUser(es, more[..n], f);
      SoundHolds(es + more[..n]);
      OwnerKept(Exec(es + more[..n]), more[n], f);
      ExecMore(es, more);
    }
    SoundHolds(es + more);
    forall q | q in t.requests && !t.requests[q].Refused? && t.requests[q].record.family == f
      ensures t.requests[q].record.user == Exec(es).owner[f]
    {
      assert RequestOk(t, q);
    }
  }

  /** Once any DEL named a key, no GET of it ever answers again, on every interleaving. */
  lemma DeletedForEver(es: seq<Event>, more: seq<Event>, token: nat, q: nat)
    requires token in Exec(es).deleted && q !in Exec(es + more).requests
    ensures token in Exec(es + more).deleted
    ensures Exec(es + more + [Get(q, token)]).requests[q] == Refused
  {
    DeletedStays(es, more, token);
    SoundHolds(es + more);
    ExecSnoc(es + more, Get(q, token));
  }

  lemma DeletedKept(s: State, e: Event)
    ensures s.deleted <= Apply(s, e).deleted
  {
  }

  lemma {:induction false} DeletedStays(es: seq<Event>, more: seq<Event>, token: nat)
    requires token in Exec(es).deleted
    ensures token in Exec(es + more).deleted
    decreases |more|
  {
    if more == [] {
      assert es + more == es;
    } else {
      var n := |more| - 1;
      DeletedStays(es, more[..n], token);
      DeletedKept(Exec(es + more[..n]), more[n]);
      ExecMore(es, more);
    }
  }

  // ---------- logout ----------

  /** Nothing in the family can be refreshed, now or later. */
  ghost predicate Dead(s: State, f: nat) {
    f in s.owner && LiveIn(s, f) == {} && forall q :: !Refreshing(s, q, f)
  }

  lemma DeadStep(s: State, e: Event, f: nat)
    requires Sound(s) && Dead(s, f)
    ensures Dead(Apply(s, e), f) && Rotations(Apply(s, e).rotations, f) == Rotations(s.rotations, f)
  {
    var t := Apply(s, e);
    forall k | Live(t.redis, k, t.now) ensures t.redis[k].record.family != f {
      if Live(s.redis, k, s.now) { assert k !in LiveIn(s, f); }
      if e.Issue? && e.request in s.requests { assert !Refreshing(s, e.request, f); }
    }
    forall q ensures !Refreshing(t, q, f) {
      assert !Refreshing(s, q, f);
      if e.Get? && Live(s.redis, e.token, s.now) { assert e.token !in LiveIn(s, f); }
    }
    if e.Issue? && t != s {
      assert !Refreshing(s, e.request, f);
      assert t.rotations[..|s.rotations|] == s.rotations;
    }
  }

  lemma {:induction false} DeadStays(es: seq<Event>, more: seq<Event>, f: nat)
    requires Dead(Exec(es), f)
    ensures Dead(Exec(es + more), f) && Rotations(Exec(es + more).rotations, f) == Rotations(Exec(es).rotations, f)
    decreases |more|
  {
    if more == [] {
      assert es + more == es;
    } else {
      var n := |more| - 1;
      DeadStays(es, more[..n], f);
      SoundHolds(es + more[..n]);
      DeadStep(Exec(es + more[..n]), more[n], f);
      ExecMore(es, more);
    }
  }

  /** A logout that deletes a family's only live token while no refresh of the family is
      in flight ends it: on every continuation no refresh of it succeeds. */
  lemma LogoutKillsFamily(es: seq<Event>, token: nat, f: nat, more: seq<Event>)
    requires f in Exec(es).owner && LiveIn(Exec(es), f) <= {token}
    requires forall q :: !Refreshing(Exec(es), q, f)
    ensures var t := Exec(es + [Revoke(token)] + more);
      Dead(t, f) && Rotations(t.rotations, f) == Rotations(Exec(es).rotations, f)
  {
    ExecSnoc(es, Revoke(token));
    var s, t := Exec(es), Exec(es + [Revoke(token)]);
    assert LiveIn(t, f) <= LiveIn(s, f) - {token};
    forall q ensures !Refreshing(t, q, f) { assert !Refreshing(s, q, f); }
    DeadStays(es + [Revoke(token)], more, f);
  }

  // ---------- and otherwise it does not ----------

  lemma SomeUnused(used: set<nat>) returns (n: nat)
    ensures n !in used
  {
    n := 0;
    var rest := used;
    while rest != {}
      invariant forall k :: k in used && k !in rest ==> k < n
      decreases |rest|
    {
      var k :| k in rest;
      if n <= k { n := k + 1; }
      rest := rest - {k};
    }
  }

  lemma RotationAdds(s: State, q: nat, token: nat, ttl: int)
    requires q in s.requests && s.requests[q].Taken? && Fresh(s, token)
    ensures var f := s.requests[q].record.family;
      Rotations(Apply(s, Issue(q, token, ttl)).rotations, f) == Rotations(s.rotations, f) + 1
  {
    assert Apply(s, Issue(q, token, ttl)).rotations[..|s.rotations|] == s.rotations;
  }

  /** A take that has its record can still delete the key and issue. */
  lemma FinishRefresh(es: seq<Event>, q: nat, f: nat) returns (more: seq<Event>)
    requires Refreshing(Exec(es), q, f)
    ensures Rotations(Exec(es + more).rotations, f) == Rotations(Exec(es).rotations, f) + 1
  {
    var s := Exec(es);
    if s.requests[q].Got? {
      ExecSnoc(es, Del(q));
      var rest := FinishTaken(es + [Del(q)], q, f);
      more := [Del(q)] + rest;
      assert es + more == es + [Del(q)] + rest;
    } else {
      more := FinishTaken(es, q, f);
    }
  }

  lemma FinishTaken(es: seq<Event>, q: nat, f: nat) returns (more: seq<Event>)
    requires Refreshing(Exec(es), q, f) && Exec(es).requests[q].Taken?
    ensures Rotations(Exec(es + more).rotations, f) == Rotations(Exec(es).rotations, f) + 1
  {
    var token := SomeUnused(Exec(es).saved.Keys + Exec(es).deleted);
    more := [Issue(q, token, 1)];
    ExecSnoc(es, Issue(q, token, 1));
    RotationAdds(Exec(es), q, token, 1);
  }

  /** A live token can still be presented. */
  lemma PresentToken(es: seq<Event>, token: nat, f: nat) returns (more: seq<Event>)
    requires token in LiveIn(Exec(es), f)
    ensures Rotations(Exec(es + more).rotations, f) == Rotations(Exec(es).rotations, f) + 1
  {
    var q := SomeUnused(Exec(es).requests.Keys);
    ExecSnoc(es, Get(q, token));
    var rest := FinishRefresh(es + [Get(q, token)], q, f);
    more := [Get(q, token)] + rest;
    assert es + more == es + [Get(q, token)] + rest;
  }

  /** A logout ends its family exactly when the token it deletes is the family's only live
      one and no refresh of the family is in flight. */
  lemma LogoutEndsFamilyExactly(es: seq<Event>, token: nat, f: nat)
    requires f in Exec(es).owner
    ensures (forall more: seq<Event> ::
               Rotations(Exec(es + [Revoke(token)] + more).rotations, f) == Rotations(Exec(es).rotations, f))
       <==> LiveIn(Exec(es), f) <= {token} && forall q :: !Refreshing(Exec(es), q, f)
  {
    var out := es + [Revoke(token)];
    ExecSnoc(es, Revoke(token));
    if LiveIn(Exec(es), f) <= {token} && forall q :: !Refreshing(Exec(es), q, f) {
      forall more: seq<Event> ensures Rotations(Exec(out + more).rotations, f) == Rotations(Exec(es).rotations, f) {
        LogoutKillsFamily(es, token, f, more);
      }
    } else if LiveIn(Exec(es), f) <= {token} {
      var q :| Refreshing(Exec(es), q, f);
      assert Refreshing(Exec(out), q, f);
      var more := FinishRefresh(out, q, f);
      assert Rotations(Exec(out + more).rotations, f) != Rotations(Exec(es).rotations, f);
    } else {
      var other :| other in LiveIn(Exec(es), f) && other != token;
      assert other in LiveIn(Exec(out), f);
      var more := PresentToken(out, other, f);
      assert Rotations(Exec(out + more).rotations, f) != Rotations(Exec(es).rotations, f);
    }
  }
}
