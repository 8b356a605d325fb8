/** The users table, the event publisher and the sign-up and sign-in use cases as objects
    updated in place; each step is proved to be the step of the user machine. */
module UserService {
  import opened Options
  import opened Text
  import opened UserMachine
  import Sessions = SessionMachine
  import SessionService

  class UserRepository {
    var rows: seq<User>

    constructor ()
      ensures rows == []
    {
      rows := [];
    }

    method Find(email: string) returns (found: Option<User>)
      ensures found == FindByEmail(rows, email)
    {
      var i := 0;
      while i < |rows|
        invariant 0 <= i <= |rows|
        invariant FindByEmail(rows, email) == FindByEmail(rows[i..], email)
      {
        if rows[i].email == ToLower(email) { return Some(rows[i]); }
        assert rows[i..][1..] == rows[i + 1..];
        i := i + 1;
      }
      return None;
    }

    /** The insert of `save`; the UNIQUE constraints on key and email decide. */
    method Save(user: User) returns (saved: bool)
      modifies this
      ensures saved <==> Insertable(old(rows), user.id, user.email)
      ensures rows == if saved then old(rows) + [user] else old(rows)
    {
      var i := 0;
      while i < |rows|
        invariant 0 <= i <= |rows|
        invariant forall j :: 0 <= j < i ==> rows[j].id != user.id && rows[j].email != user.email
        invariant rows == old(rows)
      {
        if rows[i].id == user.id || rows[i].email == user.email { return false; }
        i := i + 1;
      }
      rows := rows + [user];
      return true;
    }
  }

  class UserService {
    const users: UserRepository
    const sessions: SessionService.SessionService
    var flows: map<nat, Flow>
    var published: seq<Announcement>
    ghost var issuedTo: map<nat, nat>

    ghost function View(): State
      reads this, users, sessions, sessions.store
    {
      State(users.rows, flows, published, issuedTo, sessions.View())
    }

    constructor (users: UserRepository, sessions: SessionService.SessionService)
      requires users.rows == [] && sessions.View() == Sessions.EMPTY
      ensures this.users == users && this.sessions == sessions && View() == Exec([])
    {
      this.users, this.sessions := users, sessions;
      flows, published, issuedTo := map[], [], map[];
    }

    method LookUp(q: nat, rawEmail: string)
      requires q !in flows
      modifies this
      ensures View() == Apply(old(View()), Event.LookUp(q, rawEmail))
    {
      var email := ToLower(Trim(rawEmail));
      var existing := users.Find(email);
      flows := flows[q := if existing.Some? then Refused else Checked(email)];
    }

    method Save(q: nat, id: nat, passwordHash: nat)
      requires !HasUser(users.rows, id)
      modifies this, users
      ensures View() == Apply(old(View()), Event.Save(q, id, passwordHash))
    {
      if q in flows && flows[q].Checked? {
        var email := flows[q].email;
        var saved := users.Save(User(id, email, passwordHash));
        flows := flows[q := if saved then Saved(id, email) else Refused];
      }
    }

    method Publish(q: nat)
      modifies this
      ensures View() == Apply(old(View()), Event.Publish(q))
    {
      if q in flows && flows[q].Saved? {
        published := published + [Announcement(q, flows[q].user, flows[q].email)];
        flows := flows[q := Published(flows[q].user)];
      }
    }

    method SignIn(q: nat, rawEmail: string, passwordMatches: bool)
      requires q !in flows
      modifies this
      ensures View() == Apply(old(View()), Event.SignIn(q, rawEmail, passwordMatches))
    {
      var user := users.Find(ToLower(Trim(rawEmail)));
      if user.None? || !passwordMatches {
        flows := flows[q := Refused];
      } else {
        flows := flows[q := Matched(user.value.id)];
      }
    }

    /** Opens the session with a new token in a new family. */
    method Issue(q: nat, token: nat, family: nat, ttl: int)
      requires Sessions.Fresh(sessions.View(), token) && family !in sessions.owner
      modifies this, sessions, sessions.store
      ensures View() == Apply(old(View()), Event.Issue(q, token, family, ttl))
    {
      if q in flows && (flows[q].Published? || flows[q].Matched?) {
        var user := flows[q].user;
        sessions.Open(user, token, family, ttl);
        flows := flows[q := Done(user)];
        issuedTo := issuedTo[token := q];
      }
    }

    /** `SignUpUseCase` run to its end with nothing in between: it succeeds exactly when no
        row has the normalised email, and a refusal leaves everything as it was. */
    method SignUp(q: nat, rawEmail: string, id: nat, passwordHash: nat, token: nat, family: nat, ttl: int)
      returns (ok: bool)
      requires q !in flows && !HasUser(users.rows, id)
      requires Sessions.Fresh(sessions.View(), token) && family !in sessions.owner
      modifies this, users, sessions, sessions.store
      ensures ok <==> forall u :: u in old(users.rows) ==> u.email != Normalise(rawEmail)
      ensures ok ==>
        && users.rows == old(users.rows) + [User(id, Normalise(rawEmail), passwordHash)]
        && published == old(published) + [Announcement(q, id, Normalise(rawEmail))]
        && sessions.View() == Sessions.Apply(old(sessions.View()), Sessions.Open(id, token, family, ttl))
      ensures !ok ==>
        users.rows == old(users.rows) && published == old(published) && sessions.View() == old(sessions.View())
    {
      ghost var before := View();
      LookUp(q, rawEmail);
      Save(q, id, passwordHash);
      Publish(q);
      SignUpSteps(before, q, rawEmail, id, passwordHash);
      if flows[q].Published? {
        Issue(q, token, family, ttl);
      }
      ok := flows[q].Done?;
    }
  }

  /** A sign-up up to its session: published with its row, or refused with nothing done. */
  lemma SignUpSteps(s: State, q: nat, rawEmail: string, id: nat, passwordHash: nat)
    requires q !in s.flows && !HasUser(s.users, id)
    ensures var email := Normalise(rawEmail);
      var t := ApplyPublish(ApplySave(ApplyLookUp(s, q, rawEmail), q, id, passwordHash), q);
      && t.sessions == s.sessions && q in t.flows
      && if forall u :: u in s.users ==> u.email != email
         then t.flows[q] == Published(id) && t.users == s.users + [User(id, email, passwordHash)]
              && t.published == s.published + [Announcement(q, id, email)]
         else t.flows[q] == Refused && t.users == s.users && t.published == s.published
  {
    NormaliseSettles(rawEmail);
    var found := FindByEmail(s.users, Normalise(rawEmail));
    if found.None? {
      assert forall u :: u in s.users ==> u.email != Normalise(rawEmail);
      assert Insertable(s.users, id, Normalise(rawEmail));
    }
  }
}
