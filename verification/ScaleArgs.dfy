/** How replica counts reach Compose: the `--scale` arguments of `cmdUp` and `cmdDev`. */
module ScaleArgs {
  import opened Options
  import opened Text
  import opened Services
  import opened Planner

  /** `counts[name] ?? 1`. */
  function CountOf(counts: map<string, int>, name: string): int {
    if name in counts then counts[name] else 1
  }

  function ScaleArg(name: string, n: nat): string {
    name + "=" + Decimal(n)
  }

  function ArgsFor(name: string, n: int): seq<string> {
    if n > 1 then ["--scale", ScaleArg(name, n)] else []
  }

  function Args(counts: map<string, int>, names: seq<string>): seq<string> {
    if names == [] then []
    else Args(counts, names[..|names| - 1]) + ArgsFor(names[|names| - 1], CountOf(counts, names[|names| - 1]))
  }

  method ScaleArgsFor(counts: map<string, int>, names: seq<string>) returns (args: seq<string>)
    ensures args == Args(counts, names)
  {
    args := [];
    for i := 0 to |names|
      invariant args == Args(counts, names[..i])
    {
      assert names[..i + 1][..i] == names[..i];
      var n := if names[i] in counts then counts[names[i]] else 1;
      if n > 1 { args := args + ["--scale", names[i] + "=" + Decimal(n)]; }
    }
    assert names[..|names|] == names;
  }

  // ---------- reading the arguments back ----------

  /** The replica counts a list of `--scale` arguments sets. */
  function Decode(args: seq<string>): map<string, nat> {
    if |args| < 2 then map[]
    else
      var rest := Decode(args[..|args| - 2]);
      var (flag, value) := (args[|args| - 2], args[|args| - 1]);
      var eq := IndexOf(value, '=');
      if flag == "--scale" && eq != -1 && NumberOf(value[eq + 1..]).Some?
      then rest[value[..eq] := NumberOf(value[eq + 1..]).value]
      else rest
  }

  lemma DecodePush(args: seq<string>, name: string, n: nat)
    requires '=' !in name
    ensures Decode(args + ["--scale", ScaleArg(name, n)]) == Decode(args)[name := n]
  {
    var value := ScaleArg(name, n);
    var all := args + ["--scale", value];
    assert all[..|all| - 2] == args && all[|all| - 2] == "--scale" && all[|all| - 1] == value;
    assert value[..|name|] == name && value[|name| + 1..] == Decimal(n);
    IndexOfFirst(value, '=', |name|);
    NumberOfDecimal(n);
  }

  /** Decoding gives exactly the listed names that want more than one replica, with their
      counts. */
  lemma {:induction false} DecodeHolds(counts: map<string, int>, names: seq<string>, name: string)
    requires forall i :: 0 <= i < |names| ==> '=' !in names[i]
    ensures var d := Decode(Args(counts, names));
      && (name in d <==> name in names && CountOf(counts, name) > 1)
      && (name in d ==> d[name] == CountOf(counts, name))
  {
    if names != [] {
      var n := |names| - 1;
      DecodeHolds(counts, names[..n], name);
      Snoc(names);
      DecodeNext(counts, names[..n], names[n], name);
      ArgsPush(counts, names[..n], names[n]);
      assert name in names <==> name in names[..n] || name == names[n];
    }
  }

  lemma DecodeNext(counts: map<string, int>, names: seq<string>, last: string, name: string)
    requires '=' !in last
    ensures var d, e := Decode(Args(counts, names)), Decode(Args(counts, names) + ArgsFor(last, CountOf(counts, last)));
      if name == last && CountOf(counts, last) > 1
      then name in e && e[name] == CountOf(counts, last)
      else (name in e <==> name in d) && (name in e ==> e[name] == d[name])
  {
    if CountOf(counts, last) > 1 {
      DecodePush(Args(counts, names), last, CountOf(counts, last));
    } else {
      assert Args(counts, names) + ArgsFor(last, CountOf(counts, last)) == Args(counts, names);
    }
  }

  /** Nothing is lost: with default 1, every listed name gets back its count, or 1
      if it has none. */
  lemma ArgsLoseNothing(counts: map<string, int>, names: seq<string>, name: string)
    requires forall i :: 0 <= i < |names| ==> '=' !in names[i]
    requires name in names && (name in counts ==> counts[name] >= 1)
    ensures var d := Decode(Args(counts, names));
      (if name in d then d[name] else 1) == if name in counts then counts[name] else 1
  {
    DecodeHolds(counts, names, name);
  }

  lemma {:induction false} ArgsDistribute(counts: map<string, int>, a: seq<string>, b: seq<string>)
    ensures Args(counts, a + b) == Args(counts, a) + Args(counts, b)
    decreases |b|
  {
    if b == [] {
      NothingMore(counts, a, b);
    } else {
      var n := |b| - 1;
      ArgsDistribute(counts, a, b[..n]);
      assert b == b[..n] + [b[n]] by { Snoc(b); }
      OneMore(counts, a, b[..n], b[n]);
    }
  }

  lemma Snoc<T>(s: seq<T>)
    requires s != []
    ensures s == s[..|s| - 1] + [s[|s| - 1]]
  {
  }

  lemma NothingMore(counts: map<string, int>, a: seq<string>, b: seq<string>)
    requires b == []
    ensures Args(counts, a + b) == Args(counts, a) + Args(counts, b)
  {
    assert a + b == a;
  }

  lemma OneMore(counts: map<string, int>, a: seq<string>, b: seq<string>, name: string)
    requires Args(counts, a + b) == Args(counts, a) + Args(counts, b)
    ensures Args(counts, a + (b + [name])) == Args(counts, a) + Args(counts, b + [name])
  {
    assert a + (b + [name]) == (a + b) + [name];
    ArgsPush(counts, a + b, name);
    ArgsPush(counts, b, name);
    Associates(Args(counts, a), Args(counts, b), ArgsFor(name, CountOf(counts, name)));
  }

  lemma ArgsPush(counts: map<string, int>, names: seq<string>, name: string)
    ensures Args(counts, names + [name]) == Args(counts, names) + ArgsFor(name, CountOf(counts, name))
  {
    assert (names + [name])[..|names|] == names;
  }

  lemma Associates<T>(a: seq<T>, b: seq<T>, c: seq<T>)
    ensures (a + b) + c == a + (b + c)
  {
  }

  lemma SameArg(a: string, m: nat, b: string, n: nat)
    requires '=' !in a && '=' !in b && ScaleArg(a, m) == ScaleArg(b, n)
    ensures a == b && m == n
  {
    ArgParts(a, m);
    ArgParts(b, n);
  }

  lemma ArgParts(name: string, n: nat)
    requires '=' !in name
    ensures var arg := ScaleArg(name, n);
      var eq := IndexOf(arg, '=');
      eq == |name| && arg[..eq] == name && NumberOf(arg[eq + 1..]) == Some(n) && arg != "--scale"
  {
    var arg := ScaleArg(name, n);
    assert arg[..|name|] == name && arg[|name| + 1..] == Decimal(n) && arg[|name|] == '=';
    IndexOfFirst(arg, '=', |name|);
    NumberOfDecimal(n);
  }

  /** How often one name's argument is passed: as often as the name is listed if it wants that
      count and more than one, and otherwise never. */
  lemma {:induction false} ArgTimes(counts: map<string, int>, names: seq<string>, name: string, n: nat)
    requires '=' !in name && forall i :: 0 <= i < |names| ==> '=' !in names[i]
    ensures multiset(Args(counts, names))[ScaleArg(name, n)]
         == if n > 1 && CountOf(counts, name) == n then multiset(names)[name] else 0
  {
    if names != [] {
      var k := |names| - 1;
      ArgTimes(counts, names[..k], name, n);
      Snoc(names);
      ArgsPush(counts, names[..k], names[k]);
      LastArgTimes(counts, names[k], name, n);
    }
  }

  lemma LastArgTimes(counts: map<string, int>, last: string, name: string, n: nat)
    requires '=' !in name && '=' !in last
    ensures multiset(ArgsFor(last, CountOf(counts, last)))[ScaleArg(name, n)]
         == if n > 1 && CountOf(counts, name) == n && last == name then 1 else 0
  {
    ArgParts(name, n);
    var m := CountOf(counts, last);
    if m > 1 {
      assert ArgsFor(last, m) == ["--scale", ScaleArg(last, m)];
      if ScaleArg(last, m) == ScaleArg(name, n) { SameArg(last, m, name, n); }
    }
  }

  // ---------- how `cmdUp` and `cmdDev` split the plan ----------

  /** `cmdUp` starts the long-running part; `cmdDev` the detached and the foreground part.
      Both start the load test on its own. */
  datatype Part = LongRunning | Detached | Foreground | OneShot

  predicate Belongs(s: Service, part: Part) {
    match part
    case LongRunning => s != Loadtest
    case Detached => s !in JS_SERVICES && s != Loadtest
    case Foreground => s in JS_SERVICES
    case OneShot => s == Loadtest
  }

  /** `services.filter(...)`, in the order of the plan. */
  function Filter(services: seq<Service>, part: Part): seq<Service> {
    if services == [] then []
    else
      var n := |services| - 1;
      Filter(services[..n], part) + if Belongs(services[n], part) then [services[n]] else []
  }

  /** Each part holds its services, as often as the plan does. */
  lemma {:induction false} FilterHolds(services: seq<Service>, part: Part)
    ensures forall s :: multiset(Filter(services, part))[s] == if Belongs(s, part) then multiset(services)[s] else 0
  {
    if services != [] {
      var n := |services| - 1;
      FilterHolds(services[..n], part);
      assert services == services[..n] + [services[n]];
    }
  }

  /** Positions of a part in the plan are increasing: the split keeps the order. */
  lemma {:induction false} FilterKeepsOrder(services: seq<Service>, part: Part) returns (at: seq<nat>)
    ensures |at| == |Filter(services, part)|
    ensures forall i :: 0 <= i < |at| ==> at[i] < |services| && services[at[i]] == Filter(services, part)[i]
    ensures forall i, j :: 0 <= i < j < |at| ==> at[i] < at[j]
  {
    at := [];
    if services != [] {
      var n := |services| - 1;
      var before := FilterKeepsOrder(services[..n], part);
      at := before;
      if Belongs(services[n], part) { at := before + [n]; }
    }
  }

  /** `cmdDev` runs the four JS services in the foreground and everything else but the load test
      detached; `cmdUp` runs everything but the load test. */
  lemma PartsExactly(services: seq<Service>, s: Service)
    ensures var js := s in {Gateway, UserService, NotificationService, MediaService};
      && (s in Filter(services, Foreground) <==> s in services && js)
      && (s in Filter(services, Detached) <==> s in services && !js && s != Loadtest)
      && (s in Filter(services, OneShot) <==> s in services && s == Loadtest)
      && (s in Filter(services, LongRunning) <==> s in services && s != Loadtest)
  {
    JsServices(s);
    InPart(services, Foreground, s);
    InPart(services, Detached, s);
    InPart(services, OneShot, s);
    InPart(services, LongRunning, s);
  }

  lemma JsServices(s: Service)
    ensures s in JS_SERVICES <==> s in {Gateway, UserService, NotificationService, MediaService}
  {
    assert JS_SERVICES[0] == Gateway && JS_SERVICES[1] == UserService;
    assert JS_SERVICES[2] == NotificationService && JS_SERVICES[3] == MediaService;
  }

  function Times(services: seq<Service>, part: Part, s: Service): nat {
    multiset(Filter(services, part))[s]
  }

  function DevTimes(services: seq<Service>, s: Service): nat {
    Times(services, Detached, s) + Times(services, Foreground, s) + Times(services, OneShot, s)
  }

  lemma PartCount(services: seq<Service>, part: Part, s: Service)
    ensures Times(services, part, s) == if Belongs(s, part) then multiset(services)[s] else 0
  {
    FilterHolds(services, part);
  }

  lemma BelongsOnce(s: Service)
    ensures One(Belongs(s, Detached)) + One(Belongs(s, Foreground)) + One(Belongs(s, OneShot)) == 1
    ensures One(Belongs(s, LongRunning)) + One(Belongs(s, OneShot)) == 1
  {
  }

  /** The three parts of `cmdDev`, and the two of `cmdUp`, are the plan: every planned
      service is in exactly one, as often as in the plan. */
  lemma PartsPartition(services: seq<Service>)
    ensures forall s :: multiset(services)[s] == DevTimes(services, s)
    ensures forall s :: multiset(services)[s] == Times(services, LongRunning, s) + Times(services, OneShot, s)
  {
    forall s
      ensures multiset(services)[s] == DevTimes(services, s)
      ensures multiset(services)[s] == Times(services, LongRunning, s) + Times(services, OneShot, s)
    {
      PartCount(services, LongRunning, s);
      PartCount(services, Detached, s);
      PartCount(services, Foreground, s);
      PartCount(services, OneShot, s);
      BelongsOnce(s);
    }
  }

  /** How often a part of the plan passes one argument. */
  function Passed(p: Plan, part: Part, arg: string): nat {
    multiset(Args(NamedCounts(p.counts), Names(Filter(p.services, part))))[arg]
  }

  /** Every replica count above one is passed exactly once over the two `up` commands of
      `cmdDev` and exactly once in that of `cmdUp`, and no other count is passed at all; the
      load test, which gets none, never needs one. */
  lemma DevPassesEachCountOnce(scale: Scale, s: Service, n: nat)
    ensures var p := PlanOf(scale, CATALOGUE);
      var once := if n > 1 && s in p.counts && p.counts[s] == n then 1 else 0;
      && Passed(p, Detached, ScaleArg(Name(s), n)) + Passed(p, Foreground, ScaleArg(Name(s), n)) == once
      && Passed(p, LongRunning, ScaleArg(Name(s), n)) == once
  {
    var p := PlanOf(scale, CATALOGUE);
    PlanWellFormed(scale);
    PartPasses(p, Detached, s, n);
    PartPasses(p, Foreground, s, n);
    PartPasses(p, LongRunning, s, n);
    BelongsOnce(s);
    if s == Loadtest { NotScalable(); }
  }

  lemma PartPasses(p: Plan, part: Part, s: Service, n: nat)
    requires Distinct(p.services) && forall t :: t in p.counts <==> t in p.services
    ensures Passed(p, part, ScaleArg(Name(s), n))
         == if n > 1 && s in p.counts && p.counts[s] == n && Belongs(s, part) then 1 else 0
  {
    var names := Names(Filter(p.services, part));
    NameHasNoEquals(s);
    NamesHold(Filter(p.services, part), s);
    NamedCount(p.counts, s);
    ArgTimes(NamedCounts(p.counts), names, Name(s), n);
    NameTimes(Filter(p.services, part), s);
    PartCount(p.services, part, s);
    DistinctTimes(p.services, s);
  }

  lemma {:induction false} NameTimes(services: seq<Service>, s: Service)
    ensures multiset(Names(services))[Name(s)] == multiset(services)[s]
  {
    if services != [] {
      var k := |services| - 1;
      NameTimes(services[..k], s);
      assert services == services[..k] + [services[k]];
      if s != services[k] { NamesDiffer(s, services[k]); }
    }
  }

  lemma {:induction false} DistinctTimes(services: seq<Service>, s: Service)
    requires Distinct(services)
    ensures multiset(services)[s] == if s in services then 1 else 0
  {
    if services != [] {
      var k := |services| - 1;
      DistinctTimes(services[..k], s);
      assert services == services[..k] + [services[k]];
    }
  }

  /** Read back, the two commands of `cmdDev` set exactly the counts above one. */
  lemma DevCountsReadBack(scale: Scale, s: Service)
    ensures var p := PlanOf(scale, CATALOGUE);
      var d, f := Decode(Args(NamedCounts(p.counts), Names(Filter(p.services, Detached)))),
                  Decode(Args(NamedCounts(p.counts), Names(Filter(p.services, Foreground))));
      && ((Name(s) in d || Name(s) in f) <==> s in p.counts && p.counts[s] > 1)
      && !(Name(s) in d && Name(s) in f)
      && (Name(s) in d ==> s in p.counts && d[Name(s)] == p.counts[s])
      && (Name(s) in f ==> s in p.counts && f[Name(s)] == p.counts[s])
  {
    var p := PlanOf(scale, CATALOGUE);
    PlanWellFormed(scale);
    PassesPart(p, Detached, s);
    PassesPart(p, Foreground, s);
    BelongsOnce(s);
    if s == Loadtest { NotScalable(); }
  }

  /** `cmdUp` passes every replica count above one in its single `up` command. */
  lemma UpPassesEachCount(scale: Scale, s: Service)
    ensures var p := PlanOf(scale, CATALOGUE);
      var d := Decode(Args(NamedCounts(p.counts), Names(Filter(p.services, LongRunning))));
      && (Name(s) in d <==> s in p.counts && p.counts[s] > 1)
      && (Name(s) in d ==> d[Name(s)] == p.counts[s])
  {
    var p := PlanOf(scale, CATALOGUE);
    PlanWellFormed(scale);
    PassesPart(p, LongRunning, s);
    if s == Loadtest { NotScalable(); }
  }

  lemma NotScalable()
    ensures !Scalable(Loadtest)
  {
  }

  lemma PassesPart(p: Plan, part: Part, s: Service)
    requires forall t :: t in p.counts <==> t in p.services
    ensures var d := Decode(Args(NamedCounts(p.counts), Names(Filter(p.services, part))));
      && (Name(s) in d <==> s in p.counts && Belongs(s, part) && p.counts[s] > 1)
      && (Name(s) in d ==> d[Name(s)] == p.counts[s])
  {
    InPart(p.services, part, s);
    NamesHold(Filter(p.services, part), s);
    NamedCount(p.counts, s);
    DecodeHolds(NamedCounts(p.counts), Names(Filter(p.services, part)), Name(s));
  }

  /** The plan's counts under the names of its services. */
  function NamedCounts(counts: map<Service, int>): map<string, int> {
    UniqueNames();
    map s | s in counts :: Name(s) := counts[s]
  }

  lemma UniqueNames()
    ensures forall a: Service, b: Service :: Name(a) == Name(b) ==> a == b
  {
    forall a: Service, b: Service | a != b ensures Name(a) != Name(b) { NamesDiffer(a, b); }
  }

  lemma NamedCount(counts: map<Service, int>, s: Service)
    ensures Name(s) in NamedCounts(counts) <==> s in counts
    ensures s in counts ==> NamedCounts(counts)[Name(s)] == counts[s]
  {
    UniqueNames();
  }

  function Names(services: seq<Service>): seq<string> {
    if services == [] then [] else Names(services[..|services| - 1]) + [Name(services[|services| - 1])]
  }

  lemma {:induction false} NamesHold(services: seq<Service>, s: Service)
    ensures forall i :: 0 <= i < |Names(services)| ==> '=' !in Names(services)[i]
    ensures Name(s) in Names(services) <==> s in services
  {
    if services != [] {
      var n := |services| - 1;
      NamesHold(services[..n], s);
      NameHasNoEquals(services[n]);
      assert services == services[..n] + [services[n]];
      if s != services[n] { NamesDiffer(s, services[n]); }
    }
  }

  lemma {:induction false} InPart(services: seq<Service>, part: Part, s: Service)
    ensures s in Filter(services, part) <==> s in services && Belongs(s, part)
  {
    if services != [] {
      var n := |services| - 1;
      InPart(services[..n], part, s);
      assert services == services[..n] + [services[n]];
    }
  }
}
