/** Refresh-token rotation over Redis as a machine over single Redis commands. A token
    stands for its hashed key. The clock counts milliseconds and is shared. */
module SessionMachine {
  import opened Options

  datatype Record = Record(user: nat, family: nat)

  datatype Stored = Stored(record: Record, expiresAt: int)

  type Store = map<nat, Stored>

  predicate Live(store: Store, token: nat, now: int) {
    token in store && now < store[token].expiresAt
  }

  /** What GET answers: an expired key is as good as absent. */
  function Find(store: Store, token: nat, now: int): Option<Record> {
    if Live(store, token, now) then Some(store[token].record) else None
  }

  /** SET with EX, skipped for a lifetime that is not positive. */
  function Put(store: Store, token: nat, record: Record, ttl: int, now: int): Store {
    if ttl <= 0 then store else store[token := Stored(record, now + 1000 * ttl)]
  }

  /** A refresh request between two Redis commands. `Stalled` crashed after its GET,
      `Dropped` after its DEL. */
  datatype Pc =
    | Got(token: nat, record: Record)
    | Taken(token: nat, record: Record)
    | Rotated(token: nat, record: Record)
    | Stalled(token: nat, record: Record)
    | Dropped(token: nat, record: Record)
    | Refused

  /** `saved` holds every token ever handed to `save`, `deleted` every key a DEL named,
      `taken` those a refresh deleted, `spent` those a refresh exchanged, `rotations` the
      family of each successful refresh, `signedFor` the users an access token names. */
  datatype State = State(
    now: int,
    redis: Store,
    requests: map<nat, Pc>,
    saved: map<nat, Record>,
    deleted: set<nat>,
    taken: set<nat>,
    spent: set<nat>,
    rotations: seq<nat>,
    owner: map<nat, nat>,
    signedFor: set<nat>)

  const EMPTY := State(0, map[], map[], map[], {}, {}, {}, [], map[], {})

  datatype Event =
    | Tick(ms: nat)
    | Open(user: nat, token: nat, family: nat, ttl: int)
    | Get(request: nat, token: nat)
    | Del(request: nat)
    | Issue(request: nat, token: nat, ttl: int)
    | Crash(request: nat)
    | Revoke(token: nat)

  /** 32 random bytes: a new token was never handed out and never named before. */
  predicate Fresh(s: State, token: nat) {
    token !in s.saved && token !in s.deleted
  }

  /** `issue`: sign an access token, then save a new refresh token in the family. */
  function ApplyIssue(s: State, token: nat, record: Record, ttl: int): State {
    s.(redis := Put(s.redis, token, record, ttl, s.now),
       saved := s.saved[token := record],
       owner := s.owner[record.family := record.user],
       signedFor := s.signedFor + {record.user})
  }

  function ApplyGet(s: State, q: nat, token: nat): State {
    if q in s.requests then s
    else
      match Find(s.redis, token, s.now)
      case None => s.(requests := s.requests[q := Refused])
      case Some(record) => s.(requests := s.requests[q := Got(token, record)])
  }

  function ApplyDel(s: State, q: nat): State {
    if q in s.requests && s.requests[q].Got? then
      var token := s.requests[q].token;
      s.(redis := s.redis - {token}, deleted := s.deleted + {token}, taken := s.taken + {token},
         requests := s.requests[q := Taken(token, s.requests[q].record)])
    else s
  }

  function ApplyRotate(s: State, q: nat, token: nat, ttl: int): State {
    if q in s.requests && s.requests[q].Taken? && Fresh(s, token) then
      var pc := s.requests[q];
      ApplyIssue(s, token, pc.record, ttl)
        .(requests := s.requests[q := Rotated(pc.token, pc.record)],
          spent := s.spent + {pc.token}, rotations := s.rotations + [pc.record.family])
    else s
  }

  function ApplyCrash(s: State, q: nat): State {
    if q in s.requests && s.requests[q].Got? then
      s.(requests := s.requests[q := Stalled(s.requests[q].token, s.requests[q].record)])
    else if q in s.requests && s.requests[q].Taken? then
      s.(requests := s.requests[q := Dropped(s.requests[q].token, s.requests[q].record)])
    else s
  }

  function Apply(s: State, e: Event): State {
    match e
    case Tick(ms) => s.(now := s.now + ms)
    case Open(u, token, f, ttl) =>
      if Fresh(s, token) && f !in s.owner then ApplyIssue(s, token, Record(u, f), ttl) else s
    case Get(q, token) => ApplyGet(s, q, token)
    case Del(q) => ApplyDel(s, q)
    case Issue(q, token, ttl) => ApplyRotate(s, q, token, ttl)
    case Crash(q) => ApplyCrash(s, q)
    case Revoke(token) => s.(redis := s.redis - {token}, deleted := s.deleted + {token})
  }

  function Exec(es: seq<Event>): State {
    if es == [] then EMPTY else Apply(Exec(es[..|es| - 1]), es[|es| - 1])
  }

  lemma ExecSnoc(es: seq<Event>, e: Event)
    ensures Exec(es + [e]) == Apply(Exec(es), e)
  {
    assert (es + [e])[..|es|] == es;
  }

  /** A continuation ends with its last event. */
  lemma ExecMore(es: seq<Event>, more: seq<Event>)
    requires more != []
    ensures Exec(es + more) == Apply(Exec(es + more[..|more| - 1]), more[|more| - 1])
  {
    assert (es + more)[..|es + more| - 1] == es + more[..|more| - 1];
  }

  // ---------- what the state says about a family ----------

  function Rotations(log: seq<nat>, f: nat): nat {
    if log == [] then 0 else Rotations(log[..|log| - 1], f) + if log[|log| - 1] == f then 1 else 0
  }

  function SavedIn(s: State, f: nat): set<nat> {
    set t | t in s.saved && s.saved[t].family == f
  }

  function LiveIn(s: State, f: nat): set<nat> {
    set t | t in s.redis && Live(s.redis, t, s.now) && s.redis[t].record.family == f
  }

  function TakenIn(s: State, f: nat): set<nat> {
    set t | t in s.taken && t in SavedIn(s, f)
  }

  function SpentIn(s: State, f: nat): set<nat> {
    set t | t in s.spent && t in SavedIn(s, f)
  }

  /** The request's GET found the token. */
  predicate Won(s: State, q: nat, token: nat) {
    q in s.requests && !s.requests[q].Refused? && s.requests[q].token == token
  }

  /** A refresh of the family has its record and may still issue. */
  predicate Refreshing(s: State, q: nat, f: nat) {
    q in s.requests && (s.requests[q].Got? || s.requests[q].Taken?) && s.requests[q].record.family == f
  }
}
