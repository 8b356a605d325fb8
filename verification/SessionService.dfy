/** The token stores and the session use cases as objects updated in place. Every step of
    `SessionService` is proved to be the step of the session machine. */
module SessionService {
  import opened Options
  import opened SessionMachine
  import opened AtomicStore

  /** The Redis store: `take` is a GET and, when it found the key, a DEL. */
  class RedisRefreshTokenStore {
    var keys: Store

    constructor ()
      ensures keys == map[]
    {
      keys := map[];
    }

    method Save(token: nat, record: Record, ttl: int, now: int)
      modifies this
      ensures keys == Put(old(keys), token, record, ttl, now)
    {
      if ttl <= 0 { return; }
      keys := keys[token := Stored(record, now + 1000 * ttl)];
    }

    method Get(token: nat, now: int) returns (answer: Option<Record>)
      ensures answer == Find(keys, token, now)
    {
      answer := if token in keys && now < keys[token].expiresAt then Some(keys[token].record) else None;
    }

    method Revoke(token: nat)
      modifies this
      ensures keys == old(keys) - {token}
    {
      keys := keys - {token};
    }

    /** With nothing between the two commands: a live token is answered once and gone. */
    method Take(token: nat, now: int) returns (answer: Option<Record>)
      modifies this
      ensures answer == Find(old(keys), token, now)
      ensures answer.Some? <==> Live(old(keys), token, now)
      ensures keys == if answer.Some? then old(keys) - {token} else old(keys)
      ensures !Live(keys, token, now)
    {
      answer := Get(token, now);
      if answer.None? { return; }
      Revoke(token);
    }
  }

  /** The store of the unit tests, with expiry added. */
  class InMemoryRefreshTokenStore {
    var byToken: Store
    ghost var answers: map<nat, Option<Record>>

    ghost function View(now: int): Atomic
      reads this
    {
      Atomic(now, byToken, answers)
    }

    constructor ()
      ensures byToken == map[] && answers == map[]
    {
      byToken, answers := map[], map[];
    }

    method Save(token: nat, record: Record, ttl: int, now: int)
      modifies this
      ensures View(now) == Do(old(View(now)), Op.Save(token, record, ttl))
    {
      byToken := byToken[token := Stored(record, now + 1000 * ttl)];
    }

    method Take(ghost q: nat, token: nat, now: int) returns (answer: Option<Record>)
      modifies this
      ensures View(now) == Do(old(View(now)), Op.Take(q, token))
      ensures answer == Find(old(byToken), token, now)
    {
      if token in byToken && now < byToken[token].expiresAt {
        answer := Some(byToken[token].record);
        byToken := byToken - {token};
      } else {
        answer := None;
      }
      answers := answers[q := answer];
    }

    method Revoke(token: nat, now: int)
      modifies this
      ensures View(now) == Do(old(View(now)), Op.Remove(token))
    {
      byToken := byToken - {token};
    }

    method Has(token: nat, now: int) returns (found: bool)
      ensures found == Live(byToken, token, now)
    {
      found := token in byToken && now < byToken[token].expiresAt;
    }
  }

  class SessionService {
    const store: RedisRefreshTokenStore
    var now: int
    var requests: map<nat, Pc>
    ghost var saved: map<nat, Record>
    ghost var deleted: set<nat>
    ghost var taken: set<nat>
    ghost var spent: set<nat>
    ghost var rotations: seq<nat>
    ghost var owner: map<nat, nat>
    ghost var signedFor: set<nat>

    ghost function View(): State
      reads this, store
    {
      State(now, store.keys, requests, saved, deleted, taken, spent, rotations, owner, signedFor)
    }

    constructor (store: RedisRefreshTokenStore)
      requires store.keys == map[]
      ensures this.store == store && View() == Exec([])
    {
      this.store := store;
      now, requests, saved, rotations, owner := 0, map[], map[], [], map[];
      deleted, taken, spent, signedFor := {}, {}, {}, {};
    }

    method Tick(ms: nat)
      modifies this
      ensures View() == Apply(old(View()), Event.Tick(ms))
    {
      now := now + ms;
    }

    /** Signs an access token for the user and saves a new refresh token in the family. */
    method Issue(token: nat, record: Record, ttl: int)
      modifies this, store
      ensures View() == ApplyIssue(old(View()), token, record, ttl)
    {
      signedFor := signedFor + {record.user};
      store.Save(token, record, ttl, now);
      saved := saved[token := record];
      owner := owner[record.family := record.user];
    }

    /** A sign-in or sign-up opens a family of its own. */
    method Open(user: nat, token: nat, family: nat, ttl: int)
      requires Fresh(View(), token) && family !in owner
      modifies this, store
      ensures View() == Apply(old(View()), Event.Open(user, token, family, ttl))
    {
      Issue(token, Record(user, family), ttl);
    }

    method Get(q: nat, token: nat)
      requires q !in requests
      modifies this
      ensures View() == Apply(old(View()), Event.Get(q, token))
    {
      var answer := store.Get(token, now);
      match answer {
        case None => requests := requests[q := Refused];
        case Some(record) => requests := requests[q := Got(token, record)];
      }
    }

    method Del(q: nat)
      modifies this, store
      ensures View() == Apply(old(View()), Event.Del(q))
    {
      if q in requests && requests[q].Got? {
        var token, record := requests[q].token, requests[q].record;
        store.Revoke(token);
        deleted, taken := deleted + {token}, taken + {token};
        requests := requests[q := Taken(token, record)];
      }
    }

    method Rotate(q: nat, token: nat, ttl: int)
      requires Fresh(View(), token)
      modifies this, store
      ensures View() == Apply(old(View()), Event.Issue(q, token, ttl))
    {
      if q in requests && requests[q].Taken? {
        var used, record := requests[q].token, requests[q].record;
        Issue(token, record, ttl);
        spent, rotations := spent + {used}, rotations + [record.family];
        requests := requests[q := Rotated(used, record)];
      }
    }

    method Crash(q: nat)
      modifies this
      ensures View() == Apply(old(View()), Event.Crash(q))
    {
      if q in requests && requests[q].Got? {
        requests := requests[q := Stalled(requests[q].token, requests[q].record)];
      } else if q in requests && requests[q].Taken? {
        requests := requests[q := Dropped(requests[q].token, requests[q].record)];
      }
    }

    method Revoke(token: nat)
      modifies this, store
      ensures View() == Apply(old(View()), Event.Revoke(token))
    {
      store.Revoke(token);
      deleted := deleted + {token};
    }

    /** `RefreshSessionUseCase` run to its end with nothing in between: it succeeds exactly
        on a live token, which it exchanges for the new one in the same family. */
    method Refresh(q: nat, presented: nat, token: nat, ttl: int) returns (ok: bool)
      requires q !in requests && Fresh(View(), token) && token != presented
      modifies this, store
      ensures ok <==> Live(old(store.keys), presented, old(now))
      ensures ok ==>
        store.keys == Put(old(store.keys) - {presented}, token, old(store.keys)[presented].record, ttl, old(now))
      ensures !ok ==> store.keys == old(store.keys)
      ensures View()
        == Apply(Apply(Apply(old(View()), Event.Get(q, presented)), Event.Del(q)), Event.Issue(q, token, ttl))
    {
      Get(q, presented);
      Del(q);
      Rotate(q, token, ttl);
      ok := requests[q].Rotated?;
    }
  }
}
