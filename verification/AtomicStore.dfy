/** The one-step store of the unit tests, extended with expiry: the specification that the
    GET-then-DEL of the Redis store is compared with. */
module AtomicStore {
  import opened Options
  import opened SessionMachine

  datatype Atomic = Atomic(now: int, byToken: Store, answers: map<nat, Option<Record>>)

  const NO_TOKENS := Atomic(0, map[], map[])

  datatype Op =
    | Save(token: nat, record: Record, ttl: int)
    | Take(request: nat, token: nat)
    | Remove(token: nat)
    | Wait(ms: nat)
    | Skip

  function Do(a: Atomic, op: Op): Atomic {
    match op
    case Save(token, record, ttl) => a.(byToken := a.byToken[token := Stored(record, a.now + 1000 * ttl)])
    case Take(q, token) =>
      a.(byToken := if Live(a.byToken, token, a.now) then a.byToken - {token} else a.byToken,
         answers := a.answers[q := Find(a.byToken, token, a.now)])
    case Remove(token) => a.(byToken := a.byToken - {token})
    case Wait(ms) => a.(now := a.now + ms)
    case Skip => a
  }

  function Run(ops: seq<Op>): Atomic {
    if ops == [] then NO_TOKENS else Do(Run(ops[..|ops| - 1]), ops[|ops| - 1])
  }

  predicate NotSaved(ops: seq<Op>, i: nat, token: nat)
    requires i <= |ops|
  {
    forall k :: i <= k < |ops| && ops[k].Save? ==> ops[k].token != token
  }

  /** Whatever the order of operations: after a take, a token that is not saved again is
      answered by no other take. So no order at all explains two successes. */
  lemma {:induction false} AtomicTakeOnce(ops: seq<Op>, i: nat, token: nat)
    requires i < |ops| && ops[i].Take? && ops[i].token == token && NotSaved(ops, i + 1, token)
    ensures Find(Run(ops).byToken, token, Run(ops).now) == None
  {
    var n := |ops| - 1;
    if i < n { AtomicTakeOnce(ops[..n], i, token); }
  }
}
