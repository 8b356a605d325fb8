/** When a token succeeds at most once. A take is a GET and a DEL; it succeeds when it returns
    the token, so after its DEL. The traces at the end show what else happens. */
module SessionTakes {
  import opened Sets
  import opened SessionMachine
  import opened SessionSafety

  // ---------- success: a take that returned its token ----------

  predicate Past(pc: Pc) { pc.Taken? || pc.Rotated? || pc.Dropped? }

  /** The take deleted the token after reading it. */
  predicate Returned(s: State, q: nat, token: nat) {
    q in s.requests && Past(s.requests[q]) && s.requests[q].token == token
  }

  ghost predicate ReturnedOnce(s: State) {
    forall p, q, t :: Returned(s, p, t) && Returned(s, q, t) ==> p == q
  }

  /** The step is the DEL of a take whose token another take has already deleted. */
  predicate RepeatsDel(s: State, e: Event) {
    e.Del? && e.request in s.requests && s.requests[e.request].Got? && s.requests[e.request].token in s.taken
  }

  ghost predicate NoRepeatedDel(es: seq<Event>) {
    es == [] || (NoRepeatedDel(es[..|es| - 1]) && !RepeatsDel(Exec(es[..|es| - 1]), es[|es| - 1]))
  }

  ghost predicate TakenByReturned(s: State) {
    forall t :: t in s.taken ==> exists q :: Returned(s, q, t)
  }

  lemma ReturnedKept(s: State, e: Event, q: nat, token: nat)
    requires Returned(s, q, token)
    ensures Returned(Apply(s, e), q, token)
  {
  }

  lemma TakenByReturnedStep(s: State, e: Event)
    requires TakenByReturned(s)
    ensures TakenByReturned(Apply(s, e))
  {
    forall t | t in Apply(s, e).taken ensures exists q :: Returned(Apply(s, e), q, t) {
      if t in s.taken {
        var q :| Returned(s, q, t);
        ReturnedKept(s, e, q, t);
      } else {
        assert Returned(Apply(s, e), e.request, t);
      }
    }
  }

  /** Only an enabled DEL makes a take return. */
  lemma ReturnsByDel(s: State, e: Event, q: nat, token: nat)
    requires Returned(Apply(s, e), q, token) && !Returned(s, q, token)
    ensures e == Del(q) && q in s.requests && s.requests[q].Got? && s.requests[q].token == token
  {
  }

  lemma ReturnedOnceStep(s: State, e: Event)
    requires Sound(s) && TakenByReturned(s) && ReturnedOnce(s)
    ensures ReturnedOnce(Apply(s, e)) <==> !RepeatsDel(s, e)
  {
    var t := Apply(s, e);
    if RepeatsDel(s, e) {
      var token := s.requests[e.request].token;
      var p :| Returned(s, p, token);
      ReturnedKept(s, e, p, token);
      assert Returned(t, e.request, token);
    } else {
      forall p, q, k | Returned(t, p, k) && Returned(t, q, k) ensures p == q {
        if !Returned(s, p, k) { ReturnsByDel(s, e, p, k); }
        if !Returned(s, q, k) { ReturnsByDel(s, e, q, k); }
        if Returned(s, p, k) { assert RequestOk(s, p); }
        if Returned(s, q, k) { assert RequestOk(s, q); }
      }
    }
  }

  lemma ReturnedTwiceStays(s: State, e: Event)
    requires !ReturnedOnce(s)
    ensures !ReturnedOnce(Apply(s, e))
  {
    var p, q, t :| Returned(s, p, t) && Returned(s, q, t) && p != q;
    ReturnedKept(s, e, p, t);
    ReturnedKept(s, e, q, t);
  }

  /** On every run each token is returned at most once if and only if no DEL of a take names a
      token that a take has already deleted. */
  lemma {:induction false} ReturnedOnceExactly(es: seq<Event>)
    ensures ReturnedOnce(Exec(es)) <==> NoRepeatedDel(es)
    ensures TakenByReturned(Exec(es))
  {
    if es != [] {
      var s, e := Exec(es[..|es| - 1]), es[|es| - 1];
      ReturnedOnceExactly(es[..|es| - 1]);
      SoundHolds(es[..|es| - 1]);
      TakenByReturnedStep(s, e);
      if ReturnedOnce(s) { ReturnedOnceStep(s, e); } else { ReturnedTwiceStays(s, e); }
    }
  }

  // ---------- which takes can still succeed ----------

  /** The take has returned the token, or has read it and is alive. */
  predicate Contends(s: State, q: nat, token: nat) {
    q in s.requests && (s.requests[q].Got? || Past(s.requests[q])) && s.requests[q].token == token
  }

  ghost predicate OneContender(s: State, token: nat) {
    forall p, q :: Contends(s, p, token) && Contends(s, q, token) ==> p == q
  }

  ghost predicate SucceedsOnce(s: State, token: nat) {
    forall p, q :: Returned(s, p, token) && Returned(s, q, token) ==> p == q
  }

  predicate NoGet(es: seq<Event>, token: nat) {
    forall i :: 0 <= i < |es| ==> es[i].Get? ==> es[i].token != token
  }

  lemma ContendsBefore(s: State, e: Event, q: nat, token: nat)
    requires Contends(Apply(s, e), q, token) && (e.Get? ==> e.token != token)
    ensures Contends(s, q, token)
  {
  }

  lemma {:induction false} ContendedBefore(es: seq<Event>, more: seq<Event>, q: nat, token: nat)
    requires NoGet(more, token) && Contends(Exec(es + more), q, token)
    ensures Contends(Exec(es), q, token)
    decreases |more|
  {
    if more == [] {
      assert es + more == es;
    } else {
      var n := |more| - 1;
      ExecMore(es, more);
      ContendsBefore(Exec(es + more[..n]), more[n], q, token);
      ContendedBefore(es, more[..n], q, token);
    }
  }

  lemma DelReturns(s: State, q: nat, token: nat)
    requires Contends(s, q, token)
    ensures Returned(Apply(s, Del(q)), q, token)
    ensures forall p :: Contends(s, p, token) ==> Contends(Apply(s, Del(q)), p, token)
  {
  }

  /** Once nobody presents the token again, it succeeds at most once on every continuation if
      and only if at most one take has returned it or has read it and is still alive. */
  lemma OneSuccessExactly(es: seq<Event>, token: nat)
    ensures (forall more: seq<Event> | NoGet(more, token) :: SucceedsOnce(Exec(es + more), token))
       <==> OneContender(Exec(es), token)
  {
    if OneContender(Exec(es), token) {
      forall more: seq<Event> | NoGet(more, token) ensures SucceedsOnce(Exec(es + more), token) {
        forall p, q | Returned(Exec(es + more), p, token) && Returned(Exec(es + more), q, token) ensures p == q {
          ContendedBefore(es, more, p, token);
          ContendedBefore(es, more, q, token);
        }
      }
    } else {
      var p, q :| Contends(Exec(es), p, token) && Contends(Exec(es), q, token) && p != q;
      var more := [Del(p)] + [Del(q)];
      ExecSnoc(es, Del(p));
      ExecSnoc(es + [Del(p)], Del(q));
      assert es + more == es + [Del(p)] + [Del(q)];
      DelReturns(Exec(es), p, token);
      DelReturns(Exec(es + [Del(p)]), q, token);
      ReturnedKept(Exec(es + [Del(p)]), Del(q), p, token);
      assert NoGet(more, token) && !SucceedsOnce(Exec(es + more), token);
    }
  }

  /** Exchanging a token happens once for each successful refresh. */
  ghost predicate SpentCounted(s: State, f: nat) {
    |SpentIn(s, f)| == Rotations(s.rotations, f)
  }

  /** Spent tokens were spent by some request. */
  ghost predicate SpentByReturned(s: State) {
    forall t :: t in s.spent ==> exists q :: Returned(s, q, t) && s.requests[q].Rotated?
  }

  lemma SpentByReturnedStep(s: State, e: Event)
    requires Sound(s) && SpentByReturned(s)
    ensures SpentByReturned(Apply(s, e))
  {
    var t := Apply(s, e);
    forall k | k in t.spent ensures exists q :: Returned(t, q, k) && t.requests[q].Rotated? {
      if k in s.spent {
        var q :| Returned(s, q, k) && s.requests[q].Rotated?;
        assert Returned(t, q, k) && t.requests[q].Rotated?;
      } else {
        assert Returned(t, e.request, k) && t.requests[e.request].Rotated?;
      }
    }
  }

  lemma SpentCountedStep(s: State, e: Event, f: nat)
    requires Sound(s) && ReturnedOnce(s) && SpentByReturned(s) && SpentCounted(s, f)
    ensures SpentCounted(Apply(s, e), f)
  {
    if e.Issue? && e.request in s.requests && s.requests[e.request].Taken? && Fresh(s, e.token) {
      NotYetSpent(s, e.request);
      RotateSpends(s, e.request, e.token, e.ttl, f);
      assert Apply(s, e).rotations[..|s.rotations|] == s.rotations;
    } else {
      SpentKept(s, e, f);
    }
  }

  lemma NotYetSpent(s: State, q: nat)
    requires Sound(s) && ReturnedOnce(s) && SpentByReturned(s) && q in s.requests && s.requests[q].Taken?
    ensures s.requests[q].token !in s.spent && s.requests[q].token in s.saved
    ensures s.saved[s.requests[q].token] == s.requests[q].record
  {
    assert RequestOk(s, q) && Returned(s, q, s.requests[q].token);
    assert forall p :: Returned(s, p, s.requests[q].token) ==> p == q;
  }

  lemma RotateSpends(s: State, q: nat, token: nat, ttl: int, f: nat)
    requires Sound(s) && q in s.requests && s.requests[q].Taken? && Fresh(s, token)
    requires var pc := s.requests[q]; pc.token !in s.spent && pc.token in s.saved && s.saved[pc.token] == pc.record
    ensures var pc := s.requests[q];
      SpentIn(ApplyRotate(s, q, token, ttl), f) == SpentIn(s, f) + (if pc.record.family == f then {pc.token} else {})
  {
  }

  lemma SpentKept(s: State, e: Event, f: nat)
    requires Sound(s)
    requires !(e.Issue? && e.request in s.requests && s.requests[e.request].Taken? && Fresh(s, e.token))
    ensures SpentIn(Apply(s, e), f) == SpentIn(s, f) && Apply(s, e).rotations == s.rotations
  {
  }

  lemma {:induction false} SpentHolds(es: seq<Event>)
    requires NoRepeatedDel(es)
    ensures SpentByReturned(Exec(es)) && forall f :: SpentCounted(Exec(es), f)
  {
    if es == [] {
      forall f ensures SpentCounted(EMPTY, f) { assert SpentIn(EMPTY, f) == {}; }
    } else {
      var s, e := Exec(es[..|es| - 1]), es[|es| - 1];
      SpentHolds(es[..|es| - 1]);
      SoundHolds(es[..|es| - 1]);
      ReturnedOnceExactly(es[..|es| - 1]);
      SpentByReturnedStep(s, e);
      forall f ensures SpentCounted(Exec(es), f) { SpentCountedStep(s, e, f); }
    }
  }

  /** While each token is returned at most once, a family never has more than one live token. */
  lemma OneLiveToken(es: seq<Event>, f: nat)
    requires NoRepeatedDel(es)
    ensures |LiveIn(Exec(es), f)| <= 1
  {
    SpentHolds(es);
    RotationExcessBounded(es, f);
    assert SpentCounted(Exec(es), f);
    Subset(SpentIn(Exec(es), f), TakenIn(Exec(es), f));
  }

  // ---------- takes that do not overlap ----------

  /** A take of the token has read it and not deleted it yet. */
  predicate Reading(s: State, q: nat, token: nat) {
    q in s.requests && (s.requests[q].Got? || s.requests[q].Stalled?) && s.requests[q].token == token
  }

  ghost predicate Hidden(s: State, token: nat) {
    exists q :: Reading(s, q, token)
  }

  /** The step is a take whose GET finds a token that another take has read and not deleted. */
  ghost predicate Overlaps(s: State, e: Event) {
    e.Get? && e.request !in s.requests && Live(s.redis, e.token, s.now) && Hidden(s, e.token)
  }

  ghost predicate NonOverlapping(es: seq<Event>) {
    es == [] || (NonOverlapping(es[..|es| - 1]) && !Overlaps(Exec(es[..|es| - 1]), es[|es| - 1]))
  }

  /** No two requests won the same token. */
  ghost predicate WonOnce(s: State) {
    forall p, q, t :: Won(s, p, t) && Won(s, q, t) ==> p == q
  }

  lemma WonOnceStep(s: State, e: Event)
    requires Sound(s) && WonOnce(s) && !Overlaps(s, e)
    ensures WonOnce(Apply(s, e))
  {
    var t := Apply(s, e);
    if e.Get? && e.request !in s.requests {
      forall p ensures !(Won(s, p, e.token) && Live(s.redis, e.token, s.now)) {
        if Won(s, p, e.token) {
          assert RequestOk(s, p);
          assert Live(s.redis, e.token, s.now) ==> !Reading(s, p, e.token);
        }
      }
      forall p, k | Won(t, p, k) && !Won(s, p, k) ensures p == e.request && k == e.token && Live(s.redis, k, s.now) {}
    } else {
      forall p, k | Won(t, p, k) ensures Won(s, p, k) {}
    }
  }

  /** A take won twice stays won twice. */
  lemma WonKept(s: State, e: Event, q: nat, token: nat)
    requires Won(s, q, token)
    ensures Won(Apply(s, e), q, token)
  {
  }

  lemma OverlapWins(s: State, e: Event)
    requires Overlaps(s, e)
    ensures !WonOnce(Apply(s, e))
  {
    var p :| Reading(s, p, e.token);
    assert Won(Apply(s, e), p, e.token) && Won(Apply(s, e), e.request, e.token);
  }

  /** Each token succeeds at most once exactly on the runs without overlapping takes. */
  lemma {:induction false} WonOnceExactly(es: seq<Event>)
    ensures WonOnce(Exec(es)) <==> NonOverlapping(es)
  {
    if es != [] {
      var s, e := Exec(es[..|es| - 1]), es[|es| - 1];
      WonOnceExactly(es[..|es| - 1]);
      SoundHolds(es[..|es| - 1]);
      if Overlaps(s, e) {
        OverlapWins(s, e);
      } else if WonOnce(s) {
        WonOnceStep(s, e);
      } else {
        var p, q, t :| Won(s, p, t) && Won(s, q, t) && p != q;
        WonKept(s, e, p, t);
        WonKept(s, e, q, t);
      }
    }
  }

  /** Without overlapping takes no DEL is repeated, so each token is returned at most once and
      a family has at most one live token. */
  lemma NonOverlappingReturnsOnce(es: seq<Event>)
    requires NonOverlapping(es)
    ensures ReturnedOnce(Exec(es)) && NoRepeatedDel(es)
  {
    WonOnceExactly(es);
    ReturnedOnceExactly(es);
    forall p, q, t | Returned(Exec(es), p, t) && Returned(Exec(es), q, t) ensures p == q {
      assert Won(Exec(es), p, t) && Won(Exec(es), q, t);
    }
  }

  // ---------- what overlapping takes do ----------

  /** Two takes of one token that both read it before either deletes it: both succeed and
      the family ends with two live tokens. */
  lemma OverlapDoublesFamily()
    ensures var s := Exec([Open(1, 10, 5, 60), Get(0, 10), Get(1, 10), Del(0), Del(1), Issue(0, 11, 60),
                           Issue(1, 12, 60)]);
      Won(s, 0, 10) && Won(s, 1, 10) && LiveIn(s, 5) == {11, 12}
  {
    AfterOneIssue();
    var es := [Open(1, 10, 5, 60), Get(0, 10), Get(1, 10), Del(0), Del(1), Issue(0, 11, 60)];
    ExecSnoc(es, Issue(1, 12, 60));
    assert es + [Issue(1, 12, 60)]
        == [Open(1, 10, 5, 60), Get(0, 10), Get(1, 10), Del(0), Del(1), Issue(0, 11, 60), Issue(1, 12, 60)];
    var s := Exec(es + [Issue(1, 12, 60)]);
    assert s.redis == map[11 := Stored(Record(1, 5), 60000), 12 := Stored(Record(1, 5), 60000)] && s.now == 0;
  }

  lemma AfterOneIssue()
    ensures Exec([Open(1, 10, 5, 60), Get(0, 10), Get(1, 10), Del(0), Del(1), Issue(0, 11, 60)])
         == State(0, map[11 := Stored(Record(1, 5), 60000)],
                  map[0 := Rotated(10, Record(1, 5)), 1 := Taken(10, Record(1, 5))],
                  map[10 := Record(1, 5), 11 := Record(1, 5)], {10}, {10}, {10}, [5], map[5 := 1], {1})
  {
    AfterTwoDels();
    var es := [Open(1, 10, 5, 60), Get(0, 10), Get(1, 10), Del(0), Del(1)];
    ExecSnoc(es, Issue(0, 11, 60));
    assert es + [Issue(0, 11, 60)] == [Open(1, 10, 5, 60), Get(0, 10), Get(1, 10), Del(0), Del(1), Issue(0, 11, 60)];
  }

  lemma AfterTwoDels()
    ensures Exec([Open(1, 10, 5, 60), Get(0, 10), Get(1, 10), Del(0), Del(1)])
         == State(0, map[], map[0 := Taken(10, Record(1, 5)), 1 := Taken(10, Record(1, 5))],
                  map[10 := Record(1, 5)], {10}, {10}, {}, [], map[5 := 1], {1})
  {
    var es := [Open(1, 10, 5, 60), Get(0, 10), Get(1, 10)];
    AfterTwoGets();
    ExecSnoc(es, Del(0));
    assert Exec(es + [Del(0)]) == State(0, map[], map[0 := Taken(10, Record(1, 5)), 1 := Got(10, Record(1, 5))],
      map[10 := Record(1, 5)], {10}, {10}, {}, [], map[5 := 1], {1});
    ExecSnoc(es + [Del(0)], Del(1));
    assert es + [Del(0)] + [Del(1)] == [Open(1, 10, 5, 60), Get(0, 10), Get(1, 10), Del(0), Del(1)];
  }

  lemma AfterTwoGets()
    ensures Exec([Open(1, 10, 5, 60), Get(0, 10), Get(1, 10)])
         == State(0, map[10 := Stored(Record(1, 5), 60000)],
                  map[0 := Got(10, Record(1, 5)), 1 := Got(10, Record(1, 5))],
                  map[10 := Record(1, 5)], {}, {}, {}, [], map[5 := 1], {1})
  {
    ExecSnoc([], Open(1, 10, 5, 60));
    ExecSnoc([Open(1, 10, 5, 60)], Get(0, 10));
    ExecSnoc([Open(1, 10, 5, 60)] + [Get(0, 10)], Get(1, 10));
    assert [] + [Open(1, 10, 5, 60)] == [Open(1, 10, 5, 60)];
    assert [Open(1, 10, 5, 60)] + [Get(0, 10)] + [Get(1, 10)] == [Open(1, 10, 5, 60), Get(0, 10), Get(1, 10)];
  }

  /** A logout while a refresh of the family is in flight does not end it. */
  lemma LogoutLosesRace()
    ensures LiveIn(Exec([Open(1, 10, 5, 60), Get(0, 10), Revoke(10), Del(0), Issue(0, 11, 60)]), 5) == {11}
  {
    var es := [Open(1, 10, 5, 60)];
    ExecSnoc([], Open(1, 10, 5, 60));
    assert [] + es == es;
    ExecSnoc(es, Get(0, 10));
    ExecSnoc(es + [Get(0, 10)], Revoke(10));
    ExecSnoc(es + [Get(0, 10)] + [Revoke(10)], Del(0));
    ExecSnoc(es + [Get(0, 10)] + [Revoke(10)] + [Del(0)], Issue(0, 11, 60));
    assert es + [Get(0, 10)] + [Revoke(10)] + [Del(0)] + [Issue(0, 11, 60)]
        == [Open(1, 10, 5, 60), Get(0, 10), Revoke(10), Del(0), Issue(0, 11, 60)];
  }
}
