/** Users, events and sessions agree on every run. */
module UserSafety {
  import opened Options
  import opened Text
  import opened UserMachine
  import Sessions = SessionMachine
  import SessionSafety

  /** Emails are stored normalised, and no two rows share an email or an id. */
  ghost predicate TableOk(users: seq<User>) {
    && (forall i :: 0 <= i < |users| ==> Normalise(users[i].email) == users[i].email)
    && (forall i, j :: 0 <= i < j < |users| ==> users[i].email != users[j].email && users[i].id != users[j].id)
  }

  predicate HasRow(users: seq<User>, id: nat, email: string) {
    exists i :: 0 <= i < |users| && users[i].id == id && users[i].email == email
  }

  ghost predicate Announced(s: State, id: nat) {
    exists i :: 0 <= i < |s.published| && s.published[i].user == id
  }

  ghost predicate FlowOk(s: State, q: nat)
    requires q in s.flows
  {
    match s.flows[q]
    case Checked(email) => Normalise(email) == email
    case Saved(id, email) => HasRow(s.users, id, email) && !Announced(s, id) && OnlySaver(s, q, id)
    case Published(id) => HasUser(s.users, id)
    case Matched(id) => HasUser(s.users, id)
    case Done(id) => HasUser(s.users, id)
    case _ => true
  }

  ghost predicate OnlySaver(s: State, q: nat, id: nat) {
    forall p :: p in s.flows && s.flows[p].Saved? && s.flows[p].user == id ==> p == q
  }

  ghost predicate FlowsOk(s: State) {
    forall q :: q in s.flows ==> FlowOk(s, q)
  }

  /** A request that has published can only have issued or stopped since. */
  predicate PastPublishing(s: State, q: nat) {
    q in s.flows && (s.flows[q].Published? || s.flows[q].Done? || s.flows[q].Stopped?)
  }

  /** Each event names a saved user, nobody is announced twice, and the publisher did not lose. */
  ghost predicate EventsOk(s: State) {
    && (forall i :: 0 <= i < |s.published| ==>
          HasRow(s.users, s.published[i].user, s.published[i].email) && PastPublishing(s, s.published[i].request))
    && (forall i, j :: 0 <= i < j < |s.published| ==> s.published[i].user != s.published[j].user)
  }

  /** Every refresh record and every access token names a saved user, and every token was
      issued to a request that finished. */
  ghost predicate SessionsOk(s: State) {
    && SessionSafety.Sound(s.sessions)
    && (forall t :: t in s.sessions.saved ==> HasUser(s.users, s.sessions.saved[t].user))
    && (forall u :: u in s.sessions.signedFor ==> HasUser(s.users, u))
  }

  /** A token was issued to a request that finished, for the user of that request. */
  predicate IssuedOk(s: State, t: nat)
    requires t in s.issuedTo
  {
    && s.issuedTo[t] in s.flows && s.flows[s.issuedTo[t]].Done?
    && t in s.sessions.saved && s.sessions.saved[t].user == s.flows[s.issuedTo[t]].user
  }

  ghost predicate TokensOk(s: State) {
    forall t :: t in s.issuedTo ==> IssuedOk(s, t)
  }

  ghost predicate Inv(s: State) {
    TableOk(s.users) && FlowsOk(s) && EventsOk(s) && SessionsOk(s) && TokensOk(s)
  }

  /** Rows are only ever added. */
  lemma UsersGrow(s: State, e: Event)
    ensures s.users <= Apply(s, e).users
    ensures forall id :: HasUser(s.users, id) ==> HasUser(Apply(s, e).users, id)
    ensures forall id, email :: HasRow(s.users, id, email) ==> HasRow(Apply(s, e).users, id, email)
  {
    var t := Apply(s, e);
    forall id | HasUser(s.users, id) ensures HasUser(t.users, id) {
      var i :| 0 <= i < |s.users| && s.users[i].id == id;
      assert t.users[i].id == id;
    }
    forall id, email | HasRow(s.users, id, email) ensures HasRow(t.users, id, email) {
      var i :| 0 <= i < |s.users| && s.users[i].id == id && s.users[i].email == email;
      assert t.users[i].id == id && t.users[i].email == email;
    }
  }

  lemma TableStep(s: State, e: Event)
    requires Inv(s)
    ensures TableOk(Apply(s, e).users)
  {
    if e.Save? && e.request in s.flows { assert FlowOk(s, e.request); }
  }

  lemma SaveFlows(s: State, q: nat, id: nat, hash: nat)
    requires Inv(s)
    ensures FlowsOk(ApplySave(s, q, id, hash))
  {
    var t := ApplySave(s, q, id, hash);
    UsersGrow(s, Save(q, id, hash));
    forall p | p in t.flows ensures FlowOk(t, p) {
      assert FlowOk(s, p);
      if p == q && t.flows[q].Saved? && t != s {
        assert t.users[|s.users|].id == id && t.users[|s.users|].email == s.flows[q].email;
        NewIdUnknown(s, id);
      }
    }
  }

  /** An id without a row is in no request and no event. */
  lemma NewIdUnknown(s: State, id: nat)
    requires Inv(s) && !HasUser(s.users, id)
    ensures !Announced(s, id)
    ensures forall p :: p in s.flows && s.flows[p].Saved? ==> s.flows[p].user != id
  {
    forall i | 0 <= i < |s.published| ensures s.published[i].user != id {
      assert HasRow(s.users, s.published[i].user, s.published[i].email);
    }
    forall p | p in s.flows && s.flows[p].Saved? ensures s.flows[p].user != id { assert FlowOk(s, p); }
  }

  lemma PublishFlows(s: State, q: nat)
    requires Inv(s)
    ensures FlowsOk(ApplyPublish(s, q))
  {
    var t := ApplyPublish(s, q);
    forall p | p in t.flows ensures FlowOk(t, p) {
      assert FlowOk(s, p);
      if t != s { assert FlowOk(s, q); }
      if t.flows[p].Saved? {
        assert !Announced(s, t.flows[p].user);
        forall i | 0 <= i < |t.published| ensures t.published[i].user != t.flows[p].user {
          if i < |s.published| { assert t.published[i] == s.published[i]; }
        }
      }
    }
  }

  /** One request moves, to a place that needs nothing but its own user. */
  lemma MovedFlows(s: State, t: State, q: nat)
    requires FlowsOk(s) && t.users == s.users && t.published == s.published
    requires q in t.flows && t.flows == s.flows[q := t.flows[q]] && !t.flows[q].Saved? && FlowOk(t, q)
    ensures FlowsOk(t)
  {
    forall p | p in t.flows ensures FlowOk(t, p) {
      if p != q { assert FlowOk(s, p); }
    }
  }

  lemma OtherFlows(s: State, e: Event)
    requires Inv(s) && !e.Save? && !e.Publish?
    ensures FlowsOk(Apply(s, e))
  {
    match e
    case LookUp(q, raw) =>
      NormaliseSettles(raw);
      if q !in s.flows { MovedFlows(s, Apply(s, e), q); }
    case SignIn(q, raw, _) =>
      if q !in s.flows { MovedFlows(s, Apply(s, e), q); }
    case Issue(q, _, _, _) =>
      if q in s.flows && Apply(s, e) != s {
        assert FlowOk(s, q);
        MovedFlows(s, Apply(s, e), q);
      }
    case Crash(q) =>
      if q in s.flows { assert FlowOk(s, q); CrashFlows(s, q); }
    case Session(_) => SessionFlows(s, e);
  }

  lemma CrashFlows(s: State, q: nat)
    requires FlowsOk(s) && q in s.flows
    ensures FlowsOk(ApplyCrash(s, q))
  {
    assert FlowOk(s, q);
    if ApplyCrash(s, q) != s { MovedFlows(s, ApplyCrash(s, q), q); }
  }

  lemma SessionFlows(s: State, e: Event)
    requires FlowsOk(s) && e.Session?
    ensures FlowsOk(Apply(s, e))
  {
    forall p | p in Apply(s, e).flows ensures FlowOk(Apply(s, e), p) { assert FlowOk(s, p); }
  }

  lemma PastKept(s: State, e: Event, q: nat)
    requires PastPublishing(s, q)
    ensures PastPublishing(Apply(s, e), q)
  {
  }

  lemma EventsStep(s: State, e: Event)
    requires Inv(s)
    ensures EventsOk(Apply(s, e))
  {
    UsersGrow(s, e);
    forall q | PastPublishing(s, q) ensures PastPublishing(Apply(s, e), q) { PastKept(s, e, q); }
    if e.Publish? && e.request in s.flows && s.flows[e.request].Saved? {
      PublishEvents(s, e.request);
    } else {
      assert Apply(s, e).published == s.published;
    }
  }

  lemma PublishEvents(s: State, q: nat)
    requires EventsOk(s) && q in s.flows && s.flows[q].Saved? && FlowOk(s, q)
    requires forall p :: PastPublishing(s, p) ==> PastPublishing(ApplyPublish(s, q), p)
    ensures EventsOk(ApplyPublish(s, q))
  {
    var id := s.flows[q].user;
    assert !Announced(s, id);
    assert ApplyPublish(s, q).published[|s.published|] == Announcement(q, id, s.flows[q].email);
  }

  lemma IssueSessions(s: State, q: nat, token: nat, family: nat, ttl: int)
    requires Inv(s)
    ensures SessionsOk(ApplyIssue(s, q, token, family, ttl))
  {
    if q in s.flows && (s.flows[q].Published? || s.flows[q].Matched?) {
      assert FlowOk(s, q);
      SessionSafety.SoundStep(s.sessions, Sessions.Open(s.flows[q].user, token, family, ttl));
    }
  }

  lemma InnerSessions(s: State, x: Sessions.Event)
    requires SessionsOk(s) && !x.Open?
    ensures SessionsOk(Apply(s, Session(x)))
  {
    SessionSafety.SoundStep(s.sessions, x);
    if x.Issue? && x.request in s.sessions.requests { assert SessionSafety.RequestOk(s.sessions, x.request); }
  }

  lemma SessionsStep(s: State, e: Event)
    requires Inv(s)
    ensures SessionsOk(Apply(s, e))
  {
    if e.Issue? {
      IssueSessions(s, e.request, e.token, e.family, e.ttl);
    } else if e.Session? && !e.event.Open? {
      InnerSessions(s, e.event);
    } else {
      UsersGrow(s, e);
      SessionsUntouched(s, e);
    }
  }

  lemma SessionsUntouched(s: State, e: Event)
    requires !e.Issue? && !(e.Session? && !e.event.Open?)
    ensures Apply(s, e).sessions == s.sessions && Apply(s, e).issuedTo == s.issuedTo
  {
  }

  /** A request that finished stays as it is. */
  lemma DoneKept(s: State, e: Event, q: nat)
    requires q in s.flows && s.flows[q].Done?
    ensures q in Apply(s, e).flows && Apply(s, e).flows[q] == s.flows[q]
  {
  }

  /** What was saved for a token stays. */
  lemma RecordKept(s: State, e: Event, k: nat)
    requires k in s.sessions.saved
    ensures k in Apply(s, e).sessions.saved && Apply(s, e).sessions.saved[k] == s.sessions.saved[k]
  {
  }

  lemma TokensStep(s: State, e: Event)
    requires TokensOk(s)
    ensures TokensOk(Apply(s, e))
  {
    var t := Apply(s, e);
    forall k | k in t.issuedTo ensures IssuedOk(t, k) {
      if k in s.issuedTo && t.issuedTo[k] == s.issuedTo[k] {
        assert IssuedOk(s, k);
        DoneKept(s, e, s.issuedTo[k]);
        RecordKept(s, e, k);
      } else {
        assert e.Issue? && e.token == k;
      }
    }
  }

  lemma {:induction false} Invariant(es: seq<Event>)
    ensures Inv(Exec(es))
  {
    if es != [] {
      var s, e := Exec(es[..|es| - 1]), es[|es| - 1];
      Invariant(es[..|es| - 1]);
      TableStep(s, e);
      EventsStep(s, e);
      SessionsStep(s, e);
      TokensStep(s, e);
      match e
      case Save(q, id, hash) => SaveFlows(s, q, id, hash);
      case Publish(q) => PublishFlows(s, q);
      case _ => OtherFlows(s, e);
    }
  }

  /** Stored emails are normalised and pairwise distinct. */
  lemma EmailsDistinct(es: seq<Event>)
    ensures var users := Exec(es).users;
      && (forall i :: 0 <= i < |users| ==> Normalise(users[i].email) == users[i].email)
      && (forall i, j :: 0 <= i < j < |users| ==> users[i].email != users[j].email)
  {
    Invariant(es);
  }

  /** Each published event names a saved user by its id and email, and no user is announced
      twice. */
  lemma EventsNameUsersOnce(es: seq<Event>)
    ensures var s := Exec(es);
      && (forall i :: 0 <= i < |s.published| ==> HasRow(s.users, s.published[i].user, s.published[i].email))
      && (forall i, j :: 0 <= i < j < |s.published| ==> s.published[i].user != s.published[j].user)
  {
    Invariant(es);
  }

  /** A sign-up that lost, at the look-up or at the UNIQUE constraint, has published nothing
      and issued nothing, and never will. */
  lemma LoserLeavesNoTrace(es: seq<Event>, more: seq<Event>, q: nat)
    requires q in Exec(es).flows && Exec(es).flows[q] == Refused
    ensures var t := Exec(es + more);
      && (forall i :: 0 <= i < |t.published| ==> t.published[i].request != q)
      && (forall k :: k in t.issuedTo ==> t.issuedTo[k] != q)
  {
    RefusedStays(es, more, q);
    Invariant(es + more);
  }

  lemma {:induction false} RefusedStays(es: seq<Event>, more: seq<Event>, q: nat)
    requires q in Exec(es).flows && Exec(es).flows[q] == Refused
    ensures q in Exec(es + more).flows && Exec(es + more).flows[q] == Refused
    decreases |more|
  {
    if more == [] {
      assert es + more == es;
    } else {
      RefusedStays(es, more[..|more| - 1], q);
      RefusedKept(Exec(es + more[..|more| - 1]), more[|more| - 1], q);
      ExecMore(es, more);
    }
  }

  lemma RefusedKept(s: State, e: Event, q: nat)
    requires q in s.flows && s.flows[q] == Refused
    ensures q in Apply(s, e).flows && Apply(s, e).flows[q] == Refused
  {
  }

  /** Every refresh record, live or being exchanged, and every access token names a saved
      user. */
  lemma SessionsNameUsers(es: seq<Event>)
    ensures var s := Exec(es);
      && (forall t :: t in s.sessions.redis ==> HasUser(s.users, s.sessions.redis[t].record.user))
      && (forall q :: q in s.sessions.requests && !s.sessions.requests[q].Refused? ==>
            HasUser(s.users, s.sessions.requests[q].record.user))
      && (forall u :: u in s.sessions.signedFor ==> HasUser(s.users, u))
  {
    Invariant(es);
    var s := Exec(es);
    forall q | q in s.sessions.requests && !s.sessions.requests[q].Refused?
      ensures HasUser(s.users, s.sessions.requests[q].record.user)
    {
      assert SessionSafety.RequestOk(s.sessions, q);
    }
  }

  // ---------- signing in ----------

  lemma RowKept(s: State, e: Event, id: nat, email: string)
    requires HasRow(s.users, id, email)
    ensures HasRow(Apply(s, e).users, id, email)
  {
    UsersGrow(s, e);
  }

  lemma {:induction false} RowStays(es: seq<Event>, more: seq<Event>, id: nat, email: string)
    requires HasRow(Exec(es).users, id, email)
    ensures HasRow(Exec(es + more).users, id, email)
    decreases |more|
  {
    if more == [] {
      assert es + more == es;
    } else {
      var n := |more| - 1;
      RowStays(es, more[..n], id, email);
      RowKept(Exec(es + more[..n]), more[n], id, email);
      ExecMore(es, more);
    }
  }

  /** The look-up of a normalised email finds the one row that has it. */
  lemma LookUpIsUnique(es: seq<Event>, id: nat, email: string)
    requires HasRow(Exec(es).users, id, email) && ToLower(email) == email
    ensures var found := FindByEmail(Exec(es).users, email);
      found.Some? && found.value.id == id && found.value.email == email
  {
    Invariant(es);
    var users := Exec(es).users;
    var i :| 0 <= i < |users| && users[i].id == id && users[i].email == email;
    var found := FindByEmail(users, email);
    assert users[i] in users;
    var j :| 0 <= j < |users| && users[j] == found.value;
    assert i == j;
  }

  /** However an email is typed, and whatever happened since it was saved, signing in with it
      reaches the user that signed up with it and nobody else. */
  lemma SignInFindsItsUser(es: seq<Event>, more: seq<Event>, id: nat, rawEmail: string, q: nat, passwordMatches: bool)
    requires HasRow(Exec(es).users, id, Normalise(rawEmail)) && q !in Exec(es + more).flows
    ensures Exec(es + more + [SignIn(q, rawEmail, passwordMatches)]).flows[q]
         == if passwordMatches then Matched(id) else Refused
  {
    NormaliseSettles(rawEmail);
    RowStays(es, more, id, Normalise(rawEmail));
    LookUpIsUnique(es + more, id, Normalise(rawEmail));
    ExecSnoc(es + more, SignIn(q, rawEmail, passwordMatches));
  }

  /** A sign-in is refused exactly if the password does not match or no row has the email. */
  lemma SignInRefusedExactly(es: seq<Event>, rawEmail: string, q: nat, passwordMatches: bool)
    requires q !in Exec(es).flows
    ensures var s, t := Exec(es), Exec(es + [SignIn(q, rawEmail, passwordMatches)]);
      q in t.flows
      && (t.flows[q] == Refused <==> !passwordMatches || forall u :: u in s.users ==> u.email != Normalise(rawEmail))
      && (t.flows[q] != Refused ==> t.flows[q].Matched? && HasRow(s.users, t.flows[q].user, Normalise(rawEmail)))
  {
    NormaliseSettles(rawEmail);
    ExecSnoc(es, SignIn(q, rawEmail, passwordMatches));
    var users, found := Exec(es).users, FindByEmail(Exec(es).users, Normalise(rawEmail));
    if found.Some? {
      var i :| 0 <= i < |users| && users[i] == found.value;
    }
  }

  /** A sign-in that matched opens a session for its user, with the new token in the new family. */
  lemma SignInOpensItsSession(es: seq<Event>, more: seq<Event>, id: nat, rawEmail: string, q: nat, token: nat,
                              family: nat, ttl: int)
    requires HasRow(Exec(es).users, id, Normalise(rawEmail)) && q !in Exec(es + more).flows
    requires Sessions.Fresh(Exec(es + more).sessions, token) && family !in Exec(es + more).sessions.owner
    ensures var t := Exec(es + more + [SignIn(q, rawEmail, true)] + [Issue(q, token, family, ttl)]);
      && q in t.flows && t.flows[q] == Done(id)
      && token in t.sessions.saved && t.sessions.saved[token] == Sessions.Record(id, family)
      && family in t.sessions.owner && t.sessions.owner[family] == id && id in t.sessions.signedFor
  {
    SignInFindsItsUser(es, more, id, rawEmail, q, true);
    ExecSnoc(es + more, SignIn(q, rawEmail, true));
    ExecSnoc(es + more + [SignIn(q, rawEmail, true)], Issue(q, token, family, ttl));
  }

  /** A step opens a session if and only if it is the issue of a request that published or
      matched, with a new token and family; the session is its user's and the token is on record
      as issued to it. */
  lemma OpenedExactly(es: seq<Event>, e: Event, token: nat)
    requires token !in Exec(es).issuedTo
    ensures var s, t := Exec(es), Exec(es + [e]);
      && (token in t.issuedTo <==>
            e.Issue? && e.token == token && e.request in s.flows
            && (s.flows[e.request].Published? || s.flows[e.request].Matched?)
            && Sessions.Fresh(s.sessions, token) && e.family !in s.sessions.owner)
      && (token in t.issuedTo ==>
            && t.issuedTo[token] == e.request && t.flows[e.request] == Done(s.flows[e.request].user)
            && token in t.sessions.saved
            && t.sessions.saved[token] == Sessions.Record(s.flows[e.request].user, e.family))
  {
    ExecSnoc(es, e);
  }

  /** Every session opened on a run was opened for the user of the request it was issued to, and
      that request is finished. */
  lemma IssuedToItsUser(es: seq<Event>, token: nat)
    requires token in Exec(es).issuedTo
    ensures IssuedOk(Exec(es), token)
  {
    Invariant(es);
  }

  // ---------- crashes ----------

  /** A crash stops a request that has neither lost nor finished, and changes nothing else. */
  lemma CrashStops(es: seq<Event>, q: nat)
    requires q in Exec(es).flows
    ensures var s, t := Exec(es), Exec(es + [Crash(q)]);
      t == if s.flows[q].Refused? || s.flows[q].Done? then s else s.(flows := s.flows[q := Stopped])
  {
    ExecSnoc(es, Crash(q));
  }

  lemma EndedStep(s: State, e: Event, q: nat)
    requires q in s.flows && (s.flows[q].Stopped? || s.flows[q].Refused? || s.flows[q].Done?)
    ensures var t := Apply(s, e);
      && q in t.flows && t.flows[q] == s.flows[q]
      && (|t.published| > |s.published| ==> t.published[|s.published|].request != q)
      && s.published <= t.published && |t.published| <= |s.published| + 1
      && (forall k :: k in t.issuedTo && t.issuedTo[k] == q ==> k in s.issuedTo && s.issuedTo[k] == q)
  {
  }

  /** A request that stopped, lost or finished publishes and issues nothing more, ever. */
  lemma {:induction false} EndedStays(es: seq<Event>, more: seq<Event>, q: nat)
    requires q in Exec(es).flows
    requires Exec(es).flows[q].Stopped? || Exec(es).flows[q].Refused? || Exec(es).flows[q].Done?
    ensures var s, t := Exec(es), Exec(es + more);
      && q in t.flows && t.flows[q] == s.flows[q] && s.published <= t.published
      && (forall i :: |s.published| <= i < |t.published| ==> t.published[i].request != q)
      && (forall k :: k in t.issuedTo && t.issuedTo[k] == q ==> k in s.issuedTo && s.issuedTo[k] == q)
    decreases |more|
  {
    if more == [] {
      assert es + more == es;
    } else {
      var n := |more| - 1;
      EndedStays(es, more[..n], q);
      ExecMore(es, more);
      EndedStep(Exec(es + more[..n]), more[n], q);
    }
  }

  /** A second sign-up of a saved email loses, at the look-up if it starts later and at the
      UNIQUE constraint if it had already looked. */
  lemma SecondSignUpLoses(es: seq<Event>, more: seq<Event>, id: nat, rawEmail: string, q: nat)
    requires HasRow(Exec(es).users, id, Normalise(rawEmail))
    ensures q !in Exec(es + more).flows ==> Exec(es + more + [LookUp(q, rawEmail)]).flows[q] == Refused
    ensures q in Exec(es + more).flows && Exec(es + more).flows[q] == Checked(Normalise(rawEmail)) ==>
      forall other, hash :: !HasUser(Exec(es + more).users, other) ==>
        ApplySave(Exec(es + more), q, other, hash).flows[q] == Refused
  {
    NormaliseSettles(rawEmail);
    RowStays(es, more, id, Normalise(rawEmail));
    LookUpIsUnique(es + more, id, Normalise(rawEmail));
    ExecSnoc(es + more, LookUp(q, rawEmail));
  }

  // ---------- the session theorems apply to this machine's sessions ----------

  function Projected(s: State, e: Event): seq<Sessions.Event> {
    match e
    case Issue(q, token, family, ttl) =>
      if ApplyIssue(s, q, token, family, ttl) == s then []
      else [Sessions.Open(s.flows[q].user, token, family, ttl)]
    case Session(x) => if x.Open? then [] else [x]
    case _ => []
  }

  function Projection(es: seq<Event>): seq<Sessions.Event> {
    if es == [] then []
    else Projection(es[..|es| - 1]) + Projected(Exec(es[..|es| - 1]), es[|es| - 1])
  }

  lemma ProjectedStep(s: State, e: Event)
    ensures var xs := Projected(s, e);
      && |xs| <= 1
      && Apply(s, e).sessions == if xs == [] then s.sessions else Sessions.Apply(s.sessions, xs[0])
  {
  }

  /** The sessions of a run are a run of the session machine, so rotation, refinement and
      logout theorems hold of them. */
  lemma {:induction false} SessionsAreARun(es: seq<Event>)
    ensures Exec(es).sessions == Sessions.Exec(Projection(es))
  {
    if es != [] {
      var s, e := Exec(es[..|es| - 1]), es[|es| - 1];
      SessionsAreARun(es[..|es| - 1]);
      var p := Projection(es[..|es| - 1]);
      var xs := Projected(s, e);
      ProjectedStep(s, e);
      if xs == [] {
        assert p + xs == p;
      } else {
        assert xs == [xs[0]];
        Sessions.ExecSnoc(p, xs[0]);
      }
    }
  }
}
