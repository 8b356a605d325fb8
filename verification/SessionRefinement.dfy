/** Redis' GET-then-DEL against an atomic take: a run is a run of the atomic store exactly if no
    token is returned twice. */
module SessionRefinement {
  import opened Options
  import opened SessionMachine
  import opened SessionSafety
  import opened SessionTakes
  import opened AtomicStore

  // ---------- simulation by the atomic store ----------

  /** The atomic operation an event of the Redis machine stands for. A refused take happens at
      its GET; of the others those in `w` happen at their GET and the rest have no effect. */
  function Atomically(s: State, e: Event, w: set<nat>): Op {
    match e
    case Tick(ms) => Wait(ms)
    case Open(u, token, f, ttl) => if Fresh(s, token) && f !in s.owner then Save(token, Record(u, f), ttl) else Skip
    case Get(q, token) =>
      if q in s.requests || (q !in w && Live(s.redis, token, s.now)) then Skip else Take(q, token)
    case Del(q) => Skip
    case Issue(q, token, ttl) =>
      if q in s.requests && s.requests[q].Taken? && Fresh(s, token) then Save(token, s.requests[q].record, ttl)
      else Skip
    case Crash(q) => Skip
    case Revoke(token) => Remove(token)
  }

  function AtomicExec(es: seq<Event>, w: set<nat>): Atomic {
    if es == [] then NO_TOKENS
    else Do(AtomicExec(es[..|es| - 1], w), Atomically(Exec(es[..|es| - 1]), es[|es| - 1], w))
  }

  function Answer(pc: Pc): Option<Record> {
    if pc.Refused? then None else Some(pc.record)
  }

  /** A take in `w` has read the token. */
  ghost predicate Claimed(s: State, w: set<nat>, token: nat) {
    exists q :: q in w && Won(s, q, token)
  }

  /** The stores agree on every live token that no take in `w` has read, the atomic store has
      lost the others, and every take that counts got the atomic store's answer. */
  ghost predicate Related(s: State, a: Atomic, w: set<nat>) {
    && a.now == s.now
    && SameAnswers(s, a, w)
    && (forall t :: Agree(s, a, w, t))
  }

  ghost predicate SameAnswers(s: State, a: Atomic, w: set<nat>) {
    forall q :: q in s.requests && (q in w || s.requests[q].Refused?) ==>
      q in a.answers && a.answers[q] == Answer(s.requests[q])
  }

  ghost predicate Agree(s: State, a: Atomic, w: set<nat>, t: nat) {
    if Claimed(s, w, t) then !Live(a.byToken, t, s.now)
    else SameToken(s, a, t)
  }

  ghost predicate SameToken(s: State, a: Atomic, t: nat) {
    && (Live(a.byToken, t, s.now) <==> Live(s.redis, t, s.now))
    && (Live(s.redis, t, s.now) ==> a.byToken[t] == s.redis[t])
  }

  /** No two takes in `w` read the same token, and every take that returned is in `w`. */
  ghost predicate Serial(s: State, w: set<nat>) {
    && (forall p, q, t :: p in w && q in w && Won(s, p, t) && Won(s, q, t) ==> p == q)
    && (forall q, t :: Returned(s, q, t) ==> q in w)
  }

  lemma SerialBefore(s: State, e: Event, w: set<nat>)
    requires Serial(Apply(s, e), w)
    ensures Serial(s, w)
  {
    forall q, t | Won(s, q, t) ensures Won(Apply(s, e), q, t) { WonKept(s, e, q, t); }
    forall q, t | Returned(s, q, t) ensures q in w { ReturnedKept(s, e, q, t); }
  }

  /** The step is the GET of a take in `w` that reads the token. */
  predicate Claims(s: State, e: Event, w: set<nat>, t: nat) {
    e.Get? && e.request !in s.requests && e.request in w && e.token == t && Live(s.redis, t, s.now)
  }

  predicate Reads(s: State, e: Event, q: nat, t: nat) {
    q !in s.requests && e == Get(q, t) && Live(s.redis, t, s.now)
  }

  lemma WonStep(s: State, e: Event, q: nat, t: nat)
    ensures Won(Apply(s, e), q, t) <==> Won(s, q, t) || Reads(s, e, q, t)
  {
  }

  /** Only a GET makes a take read a token. */
  lemma ClaimedStep(s: State, e: Event, w: set<nat>, t: nat)
    ensures Claimed(Apply(s, e), w, t) <==> Claimed(s, w, t) || Claims(s, e, w, t)
  {
    forall q ensures Won(Apply(s, e), q, t) <==> Won(s, q, t) || Reads(s, e, q, t) { WonStep(s, e, q, t); }
    if Claims(s, e, w, t) { assert Reads(s, e, e.request, t); }
  }

  lemma FreshUnclaimed(s: State, w: set<nat>, token: nat)
    requires Sound(s) && Fresh(s, token)
    ensures !Claimed(s, w, token)
  {
    forall q | q in s.requests && q in w ensures !Won(s, q, token) { assert RequestOk(s, q); }
  }

  lemma AgreeStep(s: State, e: Event, a: Atomic, w: set<nat>, t: nat)
    requires Sound(s) && Related(s, a, w) && Serial(Apply(s, e), w)
    ensures Agree(Apply(s, e), Do(a, Atomically(s, e, w)), w, t)
  {
    assert Agree(s, a, w, t);
    ClaimedStep(s, e, w, t);
    match e
    case Get(q, token) => GetAgrees(s, q, token, a, w, t);
    case Del(q) => DelAgrees(s, q, a, w, t);
    case Open(_, token, _, _) => if Fresh(s, token) { SaveAgrees(s, e, token, a, w, t); }
    case Issue(_, token, _) => if Fresh(s, token) { SaveAgrees(s, e, token, a, w, t); }
    case _ =>
  }

  lemma SaveAgrees(s: State, e: Event, token: nat, a: Atomic, w: set<nat>, t: nat)
    requires Sound(s) && a.now == s.now && Agree(s, a, w, t) && Fresh(s, token)
    requires (e.Open? || e.Issue?) && e.token == token
    requires Claimed(Apply(s, e), w, t) <==> Claimed(s, w, t)
    ensures Agree(Apply(s, e), Do(a, Atomically(s, e, w)), w, t)
  {
    FreshUnclaimed(s, w, token);
  }

  lemma GetAgrees(s: State, q: nat, token: nat, a: Atomic, w: set<nat>, t: nat)
    requires Sound(s) && a.now == s.now && Agree(s, a, w, t) && Agree(s, a, w, token)
    requires Claimed(ApplyGet(s, q, token), w, t) <==> Claimed(s, w, t) || Claims(s, Get(q, token), w, t)
    ensures Agree(ApplyGet(s, q, token), Do(a, Atomically(s, Get(q, token), w)), w, t)
  {
  }

  lemma DelAgrees(s: State, q: nat, a: Atomic, w: set<nat>, t: nat)
    requires Agree(s, a, w, t) && Serial(ApplyDel(s, q), w)
    requires Claimed(ApplyDel(s, q), w, t) <==> Claimed(s, w, t)
    ensures Agree(ApplyDel(s, q), a, w, t)
  {
    if ApplyDel(s, q) != s && s.requests[q].token == t {
      assert Returned(ApplyDel(s, q), q, t);
      assert Won(s, q, t);
    }
  }

  lemma AnswersStep(s: State, e: Event, a: Atomic, w: set<nat>)
    requires Related(s, a, w) && Serial(Apply(s, e), w)
    ensures Do(a, Atomically(s, e, w)).now == Apply(s, e).now
    ensures SameAnswers(Apply(s, e), Do(a, Atomically(s, e, w)), w)
  {
    if e.Get? && e.request !in s.requests {
      GetAnswers(s, e.request, e.token, a, w);
    } else {
      forall q | q in s.requests
        ensures q in Apply(s, e).requests && Answer(Apply(s, e).requests[q]) == Answer(s.requests[q])
      {
        AnswerKept(s, e, q);
      }
    }
  }

  lemma AnswerKept(s: State, e: Event, q: nat)
    requires q in s.requests
    ensures q in Apply(s, e).requests && Answer(Apply(s, e).requests[q]) == Answer(s.requests[q])
    ensures Apply(s, e).requests[q].Refused? <==> s.requests[q].Refused?
  {
  }

  lemma GetAnswers(s: State, q: nat, token: nat, a: Atomic, w: set<nat>)
    requires Related(s, a, w) && q !in s.requests && Serial(ApplyGet(s, q, token), w)
    ensures SameAnswers(ApplyGet(s, q, token), Do(a, Atomically(s, Get(q, token), w)), w)
  {
    assert Agree(s, a, w, token);
    if Live(s.redis, token, s.now) && q in w && Claimed(s, w, token) {
      var p :| p in w && Won(s, p, token);
      assert Won(ApplyGet(s, q, token), p, token) && Won(ApplyGet(s, q, token), q, token);
    }
  }

  lemma {:induction false} Simulates(es: seq<Event>, w: set<nat>)
    requires Serial(Exec(es), w)
    ensures Related(Exec(es), AtomicExec(es, w), w)
  {
    if es != [] {
      var s, e, a := Exec(es[..|es| - 1]), es[|es| - 1], AtomicExec(es[..|es| - 1], w);
      SerialBefore(s, e, w);
      Simulates(es[..|es| - 1], w);
      SoundHolds(es[..|es| - 1]);
      AnswersStep(s, e, a, w);
      forall t ensures Agree(Exec(es), AtomicExec(es, w), w, t) { AgreeStep(s, e, a, w, t); }
    }
  }

  /** Refinement over whole runs: as long as no take reads a token that another has read and
      not deleted, every take happens at its GET - crashed ones included - with the atomic
      store's answer, and the stores agree on every live token outside a take. */
  lemma TakeIsAtomic(es: seq<Event>)
    requires NonOverlapping(es)
    ensures var s := Exec(es);
      var a := AtomicExec(es, s.requests.Keys);
      && Related(s, a, s.requests.Keys)
      && (forall t :: if Hidden(s, t) then !Live(a.byToken, t, s.now) else SameToken(s, a, t))
  {
    var s := Exec(es);
    var w := s.requests.Keys;
    WonOnceExactly(es);
    SoundHolds(es);
    Simulates(es, w);
    forall t
      ensures if Hidden(s, t) then !Live(AtomicExec(es, w).byToken, t, s.now) else SameToken(s, AtomicExec(es, w), t)
    {
      assert Agree(s, AtomicExec(es, w), w, t);
      OutsideTakes(s, t);
    }
  }

  lemma OutsideTakes(s: State, t: nat)
    requires Sound(s)
    ensures Hidden(s, t) ==> Claimed(s, s.requests.Keys, t)
    ensures Claimed(s, s.requests.Keys, t) && !Hidden(s, t) ==> !Live(s.redis, t, s.now)
  {
    if Hidden(s, t) {
      var q :| Reading(s, q, t);
      assert Won(s, q, t);
    } else if Claimed(s, s.requests.Keys, t) {
      var q :| q in s.requests.Keys && Won(s, q, t);
      assert RequestOk(s, q) && !Reading(s, q, t);
    }
  }

  // ---------- and exactly when ----------

  function Winners(s: State): set<nat> {
    set q | q in s.requests && Past(s.requests[q])
  }

  /** Of two takes in `w` that read one token, the atomic store does not answer both. */
  ghost predicate AnsweredOnce(s: State, a: Atomic, w: set<nat>) {
    && a.now == s.now && a.answers.Keys <= s.requests.Keys
    && (forall t :: Claimed(s, w, t) ==> !Live(a.byToken, t, s.now))
    && (forall p, q, t :: p in w && q in w && p != q && Won(s, p, t) && Won(s, q, t) ==> !(Gave(a, p) && Gave(a, q)))
  }

  predicate Gave(a: Atomic, q: nat) { q in a.answers && a.answers[q].Some? }

  lemma {:induction false} AnsweredOnceHolds(es: seq<Event>, w: set<nat>)
    ensures AnsweredOnce(Exec(es), AtomicExec(es, w), w)
  {
    if es != [] {
      AnsweredOnceHolds(es[..|es| - 1], w);
      SoundHolds(es[..|es| - 1]);
      AnsweredOnceStep(Exec(es[..|es| - 1]), es[|es| - 1], AtomicExec(es[..|es| - 1], w), w);
    }
  }

  lemma AnsweredOnceStep(s: State, e: Event, a: Atomic, w: set<nat>)
    requires Sound(s) && AnsweredOnce(s, a, w)
    ensures AnsweredOnce(Apply(s, e), Do(a, Atomically(s, e, w)), w)
  {
    var u, b := Apply(s, e), Do(a, Atomically(s, e, w));
    forall t | Claimed(u, w, t) ensures !Live(b.byToken, t, u.now) {
      ClaimedStep(s, e, w, t);
      ClaimedStaysDead(s, e, a, w, t);
    }
    forall p, q, t | p in w && q in w && p != q && Won(u, p, t) && Won(u, q, t) ensures !(Gave(b, p) && Gave(b, q)) {
      WonStep(s, e, p, t);
      WonStep(s, e, q, t);
      OneAnswer(s, e, a, w, p, q, t);
    }
  }

  lemma ClaimedStaysDead(s: State, e: Event, a: Atomic, w: set<nat>, t: nat)
    requires Sound(s) && a.now == s.now && (Claimed(s, w, t) ==> !Live(a.byToken, t, s.now))
    requires Claimed(s, w, t) || Claims(s, e, w, t)
    ensures !Live(Do(a, Atomically(s, e, w)).byToken, t, Apply(s, e).now)
  {
    match e
    case Open(_, token, _, _) => if Fresh(s, token) { FreshUnclaimed(s, w, token); }
    case Issue(_, token, _) => if Fresh(s, token) { FreshUnclaimed(s, w, token); }
    case _ =>
  }

  lemma OneAnswer(s: State, e: Event, a: Atomic, w: set<nat>, p: nat, q: nat, t: nat)
    requires AnsweredOnce(s, a, w) && p in w && q in w && p != q
    requires Won(s, p, t) || Reads(s, e, p, t)
    requires Won(s, q, t) || Reads(s, e, q, t)
    ensures var b := Do(a, Atomically(s, e, w)); !(Gave(b, p) && Gave(b, q))
  {
    if Won(s, p, t) || Won(s, q, t) { assert Claimed(s, w, t); }
  }

  /** The completed takes of a run - refused, or returned - get the answers of the atomic store,
      each happening between its GET and its DEL and the unfinished ones not at all, if and only
      if each token is returned at most once. */
  lemma TakeIsAtomicExactly(es: seq<Event>)
    ensures var s := Exec(es);
      var w := Winners(s);
      && (SameAnswers(s, AtomicExec(es, w), w) <==> ReturnedOnce(s))
      && (ReturnedOnce(s) <==> NoRepeatedDel(es))
      && (ReturnedOnce(s) ==> Related(s, AtomicExec(es, w), w))
  {
    var s := Exec(es);
    var w := Winners(s);
    ReturnedOnceExactly(es);
    if ReturnedOnce(s) {
      forall p, q, t | p in w && q in w && Won(s, p, t) && Won(s, q, t) ensures p == q {
        assert Returned(s, p, t) && Returned(s, q, t);
      }
      Simulates(es, w);
    } else {
      AnsweredOnceHolds(es, w);
      var p, q, t :| Returned(s, p, t) && Returned(s, q, t) && p != q;
      assert Won(s, p, t) && Won(s, q, t);
      assert !(Gave(AtomicExec(es, w), p) && Gave(AtomicExec(es, w), q));
    }
  }
}
