/** Sign-up and sign-in over the users table and the session machine. Sign-up looks the
    email up, saves under the UNIQUE constraint, publishes and issues, each a step of its
    own; so two sign-ups of one email race. */
module UserMachine {
  import opened Options
  import opened Text
  import Sessions = SessionMachine

  datatype User = User(id: nat, email: string, passwordHash: nat)

  /** Where a sign-up or sign-in stands between two awaits. */
  datatype Flow =
    | Checked(email: string)
    | Saved(user: nat, email: string)
    | Published(user: nat)
    | Matched(user: nat)
    | Done(user: nat)
    | Refused
    | Stopped

  /** A `user.created` event and the request that published it. */
  datatype Announcement = Announcement(request: nat, user: nat, email: string)

  /** `issuedTo` is history: the request each refresh token was issued to. */
  datatype State = State(
    users: seq<User>,
    flows: map<nat, Flow>,
    published: seq<Announcement>,
    issuedTo: map<nat, nat>,
    sessions: Sessions.State)

  const EMPTY := State([], map[], [], map[], Sessions.EMPTY)

  datatype Event =
    | LookUp(request: nat, rawEmail: string)
    | Save(request: nat, user: nat, passwordHash: nat)
    | Publish(request: nat)
    | SignIn(request: nat, rawEmail: string, passwordMatches: bool)
    | Issue(request: nat, token: nat, family: nat, ttl: int)
    | Crash(request: nat)
    | Session(event: Sessions.Event)

  /** `findByEmail`, which lower-cases what it is given. */
  function FindByEmail(users: seq<User>, email: string): (found: Option<User>)
    ensures found.Some? ==> found.value in users && found.value.email == ToLower(email)
    ensures found.None? ==> forall u :: u in users ==> u.email != ToLower(email)
  {
    if users == [] then None
    else if users[0].email == ToLower(email) then Some(users[0])
    else FindByEmail(users[1..], email)
  }

  /** The table refuses a second row with the same key or the same email. */
  predicate Insertable(users: seq<User>, id: nat, email: string) {
    forall i :: 0 <= i < |users| ==> users[i].id != id && users[i].email != email
  }

  predicate HasUser(users: seq<User>, id: nat) {
    exists i :: 0 <= i < |users| && users[i].id == id
  }

  function ApplyLookUp(s: State, q: nat, rawEmail: string): State {
    if q in s.flows then s
    else
      var email := Normalise(rawEmail);
      s.(flows := s.flows[q := if FindByEmail(s.users, email).Some? then Refused else Checked(email)])
  }

  /** Saving a row whose id is a new UUID: only the email can be refused. */
  function ApplySave(s: State, q: nat, id: nat, hash: nat): State {
    if q in s.flows && s.flows[q].Checked? && !HasUser(s.users, id) then
      var email := s.flows[q].email;
      if Insertable(s.users, id, email) then
        s.(users := s.users + [User(id, email, hash)], flows := s.flows[q := Saved(id, email)])
      else s.(flows := s.flows[q := Refused])
    else s
  }

  function ApplyPublish(s: State, q: nat): State {
    if q in s.flows && s.flows[q].Saved? then
      s.(published := s.published + [Announcement(q, s.flows[q].user, s.flows[q].email)],
         flows := s.flows[q := Published(s.flows[q].user)])
    else s
  }

  function ApplySignIn(s: State, q: nat, rawEmail: string, passwordMatches: bool): State {
    if q in s.flows then s
    else
      match FindByEmail(s.users, Normalise(rawEmail))
      case None => s.(flows := s.flows[q := Refused])
      case Some(user) => s.(flows := s.flows[q := if passwordMatches then Matched(user.id) else Refused])
  }

  function ApplyIssue(s: State, q: nat, token: nat, family: nat, ttl: int): State {
    if q in s.flows && (s.flows[q].Published? || s.flows[q].Matched?)
       && Sessions.Fresh(s.sessions, token) && family !in s.sessions.owner
    then
      var user := s.flows[q].user;
      s.(sessions := Sessions.Apply(s.sessions, Sessions.Open(user, token, family, ttl)),
         flows := s.flows[q := Done(user)], issuedTo := s.issuedTo[token := q])
    else s
  }

  function ApplyCrash(s: State, q: nat): State {
    if q in s.flows && !s.flows[q].Refused? && !s.flows[q].Done? then s.(flows := s.flows[q := Stopped]) else s
  }

  function Apply(s: State, e: Event): State {
    match e
    case LookUp(q, rawEmail) => ApplyLookUp(s, q, rawEmail)
    case Save(q, id, hash) => ApplySave(s, q, id, hash)
    case Publish(q) => ApplyPublish(s, q)
    case SignIn(q, rawEmail, matches) => ApplySignIn(s, q, rawEmail, matches)
    case Issue(q, token, family, ttl) => ApplyIssue(s, q, token, family, ttl)
    case Crash(q) => ApplyCrash(s, q)
    case Session(e) => if e.Open? then s else s.(sessions := Sessions.Apply(s.sessions, e))
  }

  function Exec(es: seq<Event>): State {
    if es == [] then EMPTY else Apply(Exec(es[..|es| - 1]), es[|es| - 1])
  }

  lemma ExecSnoc(es: seq<Event>, e: Event)
    ensures Exec(es + [e]) == Apply(Exec(es), e)
  {
    assert (es + [e])[..|es|] == es;
  }

  /** A continuation ends with its last event. */
  lemma ExecMore(es: seq<Event>, more: seq<Event>)
    requires more != []
    ensures Exec(es + more) == Apply(Exec(es + more[..|more| - 1]), more[|more| - 1])
  {
    assert (es + more)[..|es + more| - 1] == es + more[..|more| - 1];
  }
}
