/** What `planFromConf` plans: for every scale map, and as the scale map grows. */
module Planner {
  import opened Text
  import opened Services
  import Config

  datatype Warning =
    | HostPort(service: Service, count: int)
    | LoadtestIgnored

  datatype Plan = Plan(services: seq<Service>, counts: map<Service, int>, warnings: seq<Warning>)

  const NO_PLAN := Plan([], map[], [])

  function Get(scale: Scale, key: Key): int {
    if key in scale then scale[key] else 0
  }

  /** How many replicas of a service a scale map asks for; nothing unless positive. */
  function Wanted(scale: Scale, s: Service): int {
    match s
    case Tempo | OtelCollector | Loki | Grafana | Prometheus => One(Get(scale, Obs) > 0)
    case PostgresExporter => One(Get(scale, Obs) > 0 && Get(scale, Of(Postgres)) > 0)
    case RedisExporter => One(Get(scale, Obs) > 0 && Get(scale, Of(Redis)) > 0)
    case GatewayLb => One(Get(scale, Of(Gateway)) > 0)
    case UserMigrate => One(Get(scale, Of(UserService)) > 0)
    case MediaMigrate => One(Get(scale, Of(MediaService)) > 0)
    case Loadtest => One(Get(scale, Of(Loadtest)) > 0 && Get(scale, Of(Gateway)) > 0)
    case _ => Get(scale, Of(s))
  }

  function One(b: bool): int { if b then 1 else 0 }

  /** The order in which services are considered. */
  const CATALOGUE: seq<Service> := [
    Postgres, Redis, Rabbitmq, S3mock,
    Tempo, OtelCollector, Loki, Grafana, Prometheus, PostgresExporter, RedisExporter,
    Gateway, UserService, NotificationService, MediaService, HotelService, BookingService,
    GatewayLb, UserMigrate, MediaMigrate, Loadtest]

  lemma CatalogueOrder()
    ensures CATALOGUE == [] + CORE_INFRA_SERVICES + OBS_CORE_SERVICES + [PostgresExporter] + [RedisExporter]
      + JS_SERVICES + PYTHON_SERVICES + [GatewayLb] + [UserMigrate] + [MediaMigrate] + [Loadtest]
  {
  }

  function AddTo(p: Plan, s: Service, count: int): Plan {
    if count <= 0 then p
    else Plan(p.services + [s], p.counts[s := count],
              if count > 1 && s in HOST_PORT_SERVICES then p.warnings + [HostPort(s, count)] else p.warnings)
  }

  function PlanOf(scale: Scale, considered: seq<Service>): Plan {
    if considered == [] then NO_PLAN
    else
      var n := |considered| - 1;
      AddTo(PlanOf(scale, considered[..n]), considered[n], Wanted(scale, considered[n]))
  }

  lemma PlanPush(scale: Scale, done: seq<Service>, s: Service)
    ensures PlanOf(scale, done + [s]) == AddTo(PlanOf(scale, done), s, Wanted(scale, s))
  {
    assert (done + [s])[..|done|] == done;
  }

  /** The balancer and the migrations, each with its service. */
  function WithHelpers(scale: Scale, p: Plan): Plan {
    AddTo(AddTo(AddTo(p, GatewayLb, Wanted(scale, GatewayLb)), UserMigrate, Wanted(scale, UserMigrate)),
          MediaMigrate, Wanted(scale, MediaMigrate))
  }

  lemma PlanHelpers(scale: Scale, done: seq<Service>)
    ensures PlanOf(scale, done + [GatewayLb] + [UserMigrate] + [MediaMigrate])
      == WithHelpers(scale, PlanOf(scale, done))
  {
    PlanPush(scale, done, GatewayLb);
    PlanPush(scale, done + [GatewayLb], UserMigrate);
    PlanPush(scale, done + [GatewayLb] + [UserMigrate], MediaMigrate);
  }

  lemma PlanGrow(scale: Scale, done: seq<Service>, names: seq<Service>, i: nat)
    requires i < |names|
    ensures PlanOf(scale, done + names[..i + 1])
      == AddTo(PlanOf(scale, done + names[..i]), names[i], Wanted(scale, names[i]))
  {
    PlanPush(scale, done + names[..i], names[i]);
    assert done + names[..i + 1] == done + names[..i] + [names[i]];
  }

  lemma {:induction false} Unwanted(scale: Scale, done: seq<Service>, more: seq<Service>)
    requires forall s :: s in more ==> Wanted(scale, s) <= 0
    ensures PlanOf(scale, done + more) == PlanOf(scale, done)
    decreases |more|
  {
    if more == [] {
      assert done + more == done;
    } else {
      Unwanted(scale, done, more[..|more| - 1]);
      UnwantedLast(scale, done, more);
    }
  }

  lemma UnwantedLast(scale: Scale, done: seq<Service>, more: seq<Service>)
    requires more != [] && Wanted(scale, more[|more| - 1]) <= 0
    ensures PlanOf(scale, done + more) == PlanOf(scale, done + more[..|more| - 1])
  {
    assert (done + more)[..|done + more| - 1] == done + more[..|more| - 1];
  }

  lemma ObservabilityUnwanted(scale: Scale)
    requires Get(scale, Obs) <= 0
    ensures Wanted(scale, PostgresExporter) == Wanted(scale, RedisExporter) == 0
    ensures forall s :: s in OBS_CORE_SERVICES ==> Wanted(scale, s) == 0
  {
  }

  lemma NoObservability(scale: Scale, done: seq<Service>)
    requires Get(scale, Obs) <= 0
    ensures PlanOf(scale, done + OBS_CORE_SERVICES + [PostgresExporter] + [RedisExporter]) == PlanOf(scale, done)
  {
    ObservabilityUnwanted(scale);
    Unwanted(scale, done, OBS_CORE_SERVICES);
    PlanPush(scale, done + OBS_CORE_SERVICES, PostgresExporter);
    PlanPush(scale, done + OBS_CORE_SERVICES + [PostgresExporter], RedisExporter);
  }

  /** Services whose replica count the scale map gives. */
  predicate Scalable(s: Service) {
    s in CORE_INFRA_SERVICES || s in JS_SERVICES || s in PYTHON_SERVICES
  }

  lemma ScaledByName(scale: Scale)
    ensures forall s :: Scalable(s) ==> Wanted(scale, s) == Get(scale, Of(s))
  {
  }

  class PlanBuilder {
    const environment: Config.Environment
    var services: seq<Service>
    var counts: map<Service, int>
    var warnings: seq<Warning>

    ghost function View(): Plan
      reads this
    {
      Plan(services, counts, warnings)
    }

    constructor (environment: Config.Environment)
      ensures View() == NO_PLAN && this.environment == environment
    {
      services, counts, warnings, this.environment := [], map[], [], environment;
    }

    method Add(s: Service, count: int)
      modifies this
      ensures View() == AddTo(old(View()), s, count)
    {
      if count <= 0 { return; }
      services := services + [s];
      counts := counts[s := count];
      if count > 1 && s in HOST_PORT_SERVICES {
        warnings := warnings + [HostPort(s, count)];
      }
    }

    /** Adds the services named in the scale map, in order. */
    method AddScaled(scale: Scale, names: seq<Service>, ghost done: seq<Service>)
      requires View() == PlanOf(scale, done)
      requires forall s :: s in names ==> Wanted(scale, s) == Get(scale, Of(s))
      modifies this
      ensures View() == PlanOf(scale, done + names)
    {
      assert done + names[..0] == done;
      for i := 0 to |names|
        invariant View() == PlanOf(scale, done + names[..i])
      {
        PlanGrow(scale, done, names, i);
        Add(names[i], Get(scale, Of(names[i])));
      }
      assert names[..|names|] == names;
    }

    /** Adds one replica of each. */
    method AddOnes(ghost scale: Scale, names: seq<Service>, ghost done: seq<Service>)
      requires View() == PlanOf(scale, done)
      requires forall s :: s in names ==> Wanted(scale, s) == 1
      modifies this
      ensures View() == PlanOf(scale, done + names)
    {
      assert done + names[..0] == done;
      for i := 0 to |names|
        invariant View() == PlanOf(scale, done + names[..i])
      {
        PlanGrow(scale, done, names, i);
        assert Wanted(scale, names[i]) == 1;
        Add(names[i], 1);
      }
      assert names[..|names|] == names;
    }

    method AddIf(wanted: bool, s: Service)
      modifies this
      ensures View() == AddTo(old(View()), s, One(wanted))
    {
      if wanted { Add(s, 1); }
    }

    method AddObservability(scale: Scale, ghost done: seq<Service>)
      requires View() == PlanOf(scale, done)
      modifies this
      ensures View() == PlanOf(scale, done + OBS_CORE_SERVICES + [PostgresExporter] + [RedisExporter])
    {
      if Get(scale, Obs) > 0 {
        AddOnes(scale, OBS_CORE_SERVICES, done);
        ghost var all := done + OBS_CORE_SERVICES;
        PlanPush(scale, all, PostgresExporter);
        AddIf(Get(scale, Of(Postgres)) > 0, PostgresExporter);
        PlanPush(scale, all + [PostgresExporter], RedisExporter);
        AddIf(Get(scale, Of(Redis)) > 0, RedisExporter);
      } else {
        NoObservability(scale, done);
      }
    }

    method AddHelpers(scale: Scale)
      modifies this
      ensures View() == WithHelpers(scale, old(View()))
    {
      AddIf(Get(scale, Of(Gateway)) > 0, GatewayLb);
      AddIf(Get(scale, Of(UserService)) > 0, UserMigrate);
      AddIf(Get(scale, Of(MediaService)) > 0, MediaMigrate);
    }

    /** The load test needs the gateway; its default load goes to the environment. */
    method AddLoadtest(scale: Scale)
      modifies this, environment
      ensures Plan(services, counts, []) == AddTo(old(View()).(warnings := []), Loadtest, Wanted(scale, Loadtest))
      ensures warnings == old(warnings)
        + if Get(scale, Of(Loadtest)) > 0 && Get(scale, Of(Gateway)) <= 0 then [LoadtestIgnored] else []
      ensures environment.vars ==
        if Get(scale, Of(Loadtest)) > 1 && Get(scale, Of(Gateway)) > 0 && "LOADTEST_VUS" !in old(environment.vars)
        then old(environment.vars)["LOADTEST_VUS" := Decimal(Get(scale, Of(Loadtest)))]
        else old(environment.vars)
    {
      var loadtestN := Get(scale, Of(Loadtest));
      if loadtestN > 0 {
        if Get(scale, Of(Gateway)) <= 0 {
          warnings := warnings + [LoadtestIgnored];
        } else {
          Add(Loadtest, 1);
          if loadtestN > 1 && "LOADTEST_VUS" !in environment.vars {
            environment.vars := environment.vars["LOADTEST_VUS" := Decimal(loadtestN)];
          }
        }
      }
    }

    method AddMain(scale: Scale) returns (ghost done: seq<Service>)
      requires View() == NO_PLAN
      requires forall s :: Scalable(s) ==> Wanted(scale, s) == Get(scale, Of(s))
      modifies this
      ensures View() == PlanOf(scale, done)
      ensures done == [] + CORE_INFRA_SERVICES + OBS_CORE_SERVICES + [PostgresExporter] + [RedisExporter]
        + JS_SERVICES + PYTHON_SERVICES
    {
      done := [];
      AddScaled(scale, CORE_INFRA_SERVICES, done);
      done := done + CORE_INFRA_SERVICES;
      AddObservability(scale, done);
      done := done + OBS_CORE_SERVICES + [PostgresExporter] + [RedisExporter];
      AddScaled(scale, JS_SERVICES, done);
      done := done + JS_SERVICES;
      AddScaled(scale, PYTHON_SERVICES, done);
      done := done + PYTHON_SERVICES;
    }

    /** The plan for a scale map, and the default load of the load test. */
    method PlanFromConf(scale: Scale)
      requires View() == NO_PLAN
      modifies this, environment
      ensures services == PlanOf(scale, CATALOGUE).services && counts == PlanOf(scale, CATALOGUE).counts
      ensures warnings == PlanOf(scale, CATALOGUE).warnings
        + if Get(scale, Of(Loadtest)) > 0 && Get(scale, Of(Gateway)) <= 0 then [LoadtestIgnored] else []
      ensures environment.vars ==
        if Get(scale, Of(Loadtest)) > 1 && Get(scale, Of(Gateway)) > 0 && "LOADTEST_VUS" !in old(environment.vars)
        then old(environment.vars)["LOADTEST_VUS" := Decimal(Get(scale, Of(Loadtest)))]
        else old(environment.vars)
    {
      CatalogueOrder();
      ScaledByName(scale);
      ghost var done := AddMain(scale);
      AddHelpers(scale);
      PlanHelpers(scale, done);
      done := done + [GatewayLb] + [UserMigrate] + [MediaMigrate];
      PlanPush(scale, done, Loadtest);
      AddLoadtest(scale);
    }
  }

  // ---------- what a plan is ----------

  ghost predicate Distinct(ss: seq<Service>) {
    forall i, j :: 0 <= i < j < |ss| ==> ss[i] != ss[j]
  }

  /** A plan holds exactly the considered services that are wanted, each once, with the
      wanted count. */
  lemma {:induction false} PlanHolds(scale: Scale, considered: seq<Service>, s: Service)
    ensures var p := PlanOf(scale, considered);
      && (s in p.services <==> s in considered && Wanted(scale, s) > 0)
      && (s in p.counts <==> s in p.services)
      && (s in p.counts ==> p.counts[s] == Wanted(scale, s))
  {
    if considered != [] {
      var n := |considered| - 1;
      PlanHolds(scale, considered[..n], s);
      assert considered == considered[..n] + [considered[n]];
    }
  }

  /** A warning names exactly the planned host-port services with more than one replica. */
  lemma {:induction false} PortWarningsExactly(scale: Scale, considered: seq<Service>, s: Service, n: int)
    ensures HostPort(s, n) in PlanOf(scale, considered).warnings
       <==> s in considered && s in HOST_PORT_SERVICES && n > 1 && Wanted(scale, s) == n
  {
    if considered != [] {
      var k := |considered| - 1;
      PortWarningsExactly(scale, considered[..k], s, n);
      assert considered == considered[..k] + [considered[k]];
    }
  }

  lemma {:induction false} PlanDistinct(scale: Scale, considered: seq<Service>)
    requires Distinct(considered)
    ensures Distinct(PlanOf(scale, considered).services)
  {
    if considered != [] {
      var n := |considered| - 1;
      PlanDistinct(scale, considered[..n]);
      PlanHolds(scale, considered[..n], considered[n]);
    }
  }

  /** Over the whole catalogue, planned means wanted. */
  lemma PlannedMeansWanted(scale: Scale)
    ensures var p := PlanOf(scale, CATALOGUE);
      forall s :: (s in p.services <==> Wanted(scale, s) > 0) && (s in p.counts <==> s in p.services)
        && (s in p.counts ==> p.counts[s] == Wanted(scale, s))
  {
    CatalogueComplete();
    forall s { PlanHolds(scale, CATALOGUE, s); }
  }

  /** Where a service stands in the catalogue. */
  function Position(s: Service): nat {
    match s
    case Postgres => 0 case Redis => 1 case Rabbitmq => 2 case S3mock => 3
    case Tempo => 4 case OtelCollector => 5 case Loki => 6 case Grafana => 7 case Prometheus => 8
    case PostgresExporter => 9 case RedisExporter => 10
    case Gateway => 11 case UserService => 12 case NotificationService => 13 case MediaService => 14
    case HotelService => 15 case BookingService => 16
    case GatewayLb => 17 case UserMigrate => 18 case MediaMigrate => 19 case Loadtest => 20
  }

  lemma CatalogueComplete()
    ensures Distinct(CATALOGUE) && forall s: Service :: s in CATALOGUE
  {
    forall s: Service ensures s in CATALOGUE { assert CATALOGUE[Position(s)] == s; }
    assert forall i :: 0 <= i < |CATALOGUE| ==> Position(CATALOGUE[i]) == i;
  }

  const FROM_SHARED_IMAGE: set<Service> :=
    {Gateway, UserService, NotificationService, MediaService, UserMigrate, MediaMigrate}

  predicate NeedsGatewayImage(services: seq<Service>) {
    exists i :: 0 <= i < |services| && services[i] in FROM_SHARED_IMAGE
  }

  /** Every scale map gives a well-formed plan: duplicate-free, with a positive count for
      exactly its services. */
  lemma PlanWellFormed(scale: Scale)
    ensures var p := PlanOf(scale, CATALOGUE);
      && Distinct(p.services)
      && (forall s :: s in p.counts <==> s in p.services)
      && (forall s :: s in p.counts ==> p.counts[s] > 0 && (!Scalable(s) ==> p.counts[s] == 1))
  {
    CatalogueComplete();
    PlanDistinct(scale, CATALOGUE);
    PlannedMeansWanted(scale);
    forall s: Service ensures Scalable(s) || Wanted(scale, s) <= 1 { WantedOne(scale, s); }
  }

  lemma WantedOne(scale: Scale, s: Service)
    ensures Scalable(s) || Wanted(scale, s) <= 1
  {
    assert CORE_INFRA_SERVICES[0] == Postgres && CORE_INFRA_SERVICES[1] == Redis;
    assert CORE_INFRA_SERVICES[2] == Rabbitmq && CORE_INFRA_SERVICES[3] == S3mock;
    assert JS_SERVICES[0] == Gateway && JS_SERVICES[1] == UserService;
    assert JS_SERVICES[2] == NotificationService && JS_SERVICES[3] == MediaService;
    assert PYTHON_SERVICES[0] == HotelService && PYTHON_SERVICES[1] == BookingService;
  }

  /** What the scale map plans, entry by entry: observability with `obs`, each exporter also with
      its datastore, the helpers with their service, the load test with `loadtest` and `gateway`,
      and each scalable service with its own entry, which is its count. */
  lemma PlannedExactly(scale: Scale)
    ensures var p := PlanOf(scale, CATALOGUE);
      && (forall s :: s in {Tempo, OtelCollector, Loki, Grafana, Prometheus} ==>
            (s in p.services <==> Get(scale, Obs) > 0))
      && (PostgresExporter in p.services <==> Get(scale, Obs) > 0 && Get(scale, Of(Postgres)) > 0)
      && (RedisExporter in p.services <==> Get(scale, Obs) > 0 && Get(scale, Of(Redis)) > 0)
      && (GatewayLb in p.services <==> Get(scale, Of(Gateway)) > 0)
      && (UserMigrate in p.services <==> Get(scale, Of(UserService)) > 0)
      && (MediaMigrate in p.services <==> Get(scale, Of(MediaService)) > 0)
      && (Loadtest in p.services <==> Get(scale, Of(Loadtest)) > 0 && Get(scale, Of(Gateway)) > 0)
      && (forall s :: s in SCALABLE ==>
            (s in p.services <==> Get(scale, Of(s)) > 0) && (s in p.counts ==> p.counts[s] == Get(scale, Of(s))))
  {
    PlannedMeansWanted(scale);
    HelpersWanted(scale);
    forall s | s in SCALABLE ensures Wanted(scale, s) == Get(scale, Of(s)) { ScalableWanted(scale, s); }
  }

  lemma ScalableWanted(scale: Scale, s: Service)
    requires s in SCALABLE
    ensures Wanted(scale, s) == Get(scale, Of(s))
  {
  }

  lemma HelpersWanted(scale: Scale)
    ensures forall s :: s in {Tempo, OtelCollector, Loki, Grafana, Prometheus} ==>
      (Wanted(scale, s) > 0 <==> Get(scale, Obs) > 0)
    ensures Wanted(scale, PostgresExporter) > 0 <==> Get(scale, Obs) > 0 && Get(scale, Of(Postgres)) > 0
    ensures Wanted(scale, RedisExporter) > 0 <==> Get(scale, Obs) > 0 && Get(scale, Of(Redis)) > 0
    ensures Wanted(scale, GatewayLb) > 0 <==> Get(scale, Of(Gateway)) > 0
    ensures Wanted(scale, UserMigrate) > 0 <==> Get(scale, Of(UserService)) > 0
    ensures Wanted(scale, MediaMigrate) > 0 <==> Get(scale, Of(MediaService)) > 0
    ensures Wanted(scale, Loadtest) > 0 <==> Get(scale, Of(Loadtest)) > 0 && Get(scale, Of(Gateway)) > 0
  {
  }

  const SCALABLE: set<Service> := {
    Postgres, Redis, Rabbitmq, S3mock, Gateway, UserService, NotificationService, MediaService,
    HotelService, BookingService}

  /** The same over the parsed file: a key that is missing counts as 0. */
  function Entry(conf: map<string, nat>, name: string): int {
    if name in conf then conf[name] else 0
  }

  lemma ConfEntries(conf: map<string, nat>)
    ensures Get(ScaleFrom(conf), Obs) == Entry(conf, "obs")
    ensures Get(ScaleFrom(conf), Of(Loadtest)) == Entry(conf, "loadtest")
    ensures forall s :: s in SCALABLE ==> Get(ScaleFrom(conf), Of(s)) == Entry(conf, Name(s))
  {
  }

  /** Without a `services.conf` everything runs once, except the load test, which is off. */
  lemma DefaultPlan()
    ensures var p := PlanOf(ScaleFrom(Config.DEFAULT_SCALE), CATALOGUE);
      forall s :: (s in p.services <==> s != Loadtest) && (s in p.counts ==> p.counts[s] == 1)
  {
    var scale := ScaleFrom(Config.DEFAULT_SCALE);
    PlannedMeansWanted(scale);
    ConfEntries(Config.DEFAULT_SCALE);
    forall s: Service ensures Wanted(scale, s) == if s == Loadtest then 0 else 1 { DefaultWanted(s); }
  }

  lemma DefaultWanted(s: Service)
    ensures Wanted(ScaleFrom(Config.DEFAULT_SCALE), s) == if s == Loadtest then 0 else 1
  {
    var scale := ScaleFrom(Config.DEFAULT_SCALE);
    ConfEntries(Config.DEFAULT_SCALE);
    forall t | t in SCALABLE ensures Get(scale, Of(t)) == 1 { DefaultEntry(t); }
    assert Get(scale, Obs) == 1 && Get(scale, Of(Loadtest)) == 0;
    if s in SCALABLE { ScalableWanted(scale, s); } else { AllOnWanted(scale, s); }
  }

  lemma AllOnWanted(scale: Scale, s: Service)
    requires Get(scale, Obs) == 1 && Get(scale, Of(Loadtest)) == 0 && s !in SCALABLE
    requires forall t :: t in SCALABLE ==> Get(scale, Of(t)) == 1
    ensures Wanted(scale, s) == if s == Loadtest then 0 else 1
  {
  }

  lemma DefaultEntry(s: Service)
    requires s in SCALABLE
    ensures Entry(Config.DEFAULT_SCALE, Name(s)) == 1
  {
  }

  /** A plan lists its services in the fixed order: infrastructure, observability, JS, Python,
      helpers, load test. */
  lemma PlanInOrder(scale: Scale)
    ensures var services := PlanOf(scale, CATALOGUE).services;
      forall i, j :: 0 <= i < j < |services| ==> Position(services[i]) < Position(services[j])
  {
    assert forall i :: 0 <= i < |CATALOGUE| ==> Position(CATALOGUE[i]) == i;
    PlanSorted(scale, CATALOGUE);
  }

  ghost predicate Sorted(ss: seq<Service>) {
    forall i, j :: 0 <= i < j < |ss| ==> Position(ss[i]) < Position(ss[j])
  }

  lemma {:induction false} PlanSorted(scale: Scale, considered: seq<Service>)
    requires Sorted(considered)
    ensures Sorted(PlanOf(scale, considered).services)
    ensures forall s :: s in PlanOf(scale, considered).services ==> s in considered
  {
    if considered != [] {
      var n := |considered| - 1;
      PlanSorted(scale, considered[..n]);
      assert considered == considered[..n] + [considered[n]];
      forall s | s in PlanOf(scale, considered[..n]).services ensures Position(s) < Position(considered[n]) {
        var i :| 0 <= i < n && considered[..n][i] == s;
        assert considered[i] == s;
      }
    }
  }

  /** Over the whole plan a host-port warning names exactly one of the five services that publish
      a port and can be scaled; the others with a port never have more than one replica. */
  lemma PortWarnings(scale: Scale, s: Service, n: int)
    ensures HostPort(s, n) in PlanOf(scale, CATALOGUE).warnings
       <==> s in {Postgres, Redis, Rabbitmq, HotelService, BookingService} && n > 1 && Get(scale, Of(s)) == n
  {
    CatalogueComplete();
    PortWarningsExactly(scale, CATALOGUE, s, n);
    HostPorts(s);
    if s in SCALABLE { ScalableWanted(scale, s); } else { HelperWantedOnce(scale, s); }
  }

  lemma HostPorts(s: Service)
    ensures s in HOST_PORT_SERVICES && s in SCALABLE <==> s in {Postgres, Redis, Rabbitmq, HotelService, BookingService}
  {
  }

  lemma HelperWantedOnce(scale: Scale, s: Service)
    requires s !in SCALABLE
    ensures Wanted(scale, s) <= 1
  {
  }

  /** Every helper is planned exactly with what it serves, and the load test only behind the
      load balancer. */
  lemma PlanClosed(scale: Scale)
    ensures var services := PlanOf(scale, CATALOGUE).services;
      && (GatewayLb in services <==> Gateway in services)
      && (UserMigrate in services <==> UserService in services)
      && (MediaMigrate in services <==> MediaService in services)
      && (PostgresExporter in services <==> Prometheus in services && Postgres in services)
      && (RedisExporter in services <==> Prometheus in services && Redis in services)
      && (Tempo in services <==> Prometheus in services) && (OtelCollector in services <==> Prometheus in services)
      && (Loki in services <==> Prometheus in services) && (Grafana in services <==> Prometheus in services)
      && (Loadtest in services ==> GatewayLb in services)
  {
    PlannedExactly(scale);
  }

  /** The service whose presence brings one that runs from the shared image. */
  function ImageOwner(s: Service): Service {
    if s == UserMigrate then UserService else if s == MediaMigrate then MediaService else s
  }

  lemma ImageOwners(s: Service)
    ensures s in FROM_SHARED_IMAGE ==> ImageOwner(s) in JS_SERVICES
    ensures s in JS_SERVICES ==> s in FROM_SHARED_IMAGE
  {
    assert JS_SERVICES[0] == Gateway && JS_SERVICES[1] == UserService;
    assert JS_SERVICES[2] == NotificationService && JS_SERVICES[3] == MediaService;
  }

  /** The shared image is built exactly when a service that runs from it is planned. */
  lemma GatewayImageExactly(scale: Scale)
    ensures var services := PlanOf(scale, CATALOGUE).services;
      NeedsGatewayImage(services) <==> exists s :: s in JS_SERVICES && s in services
  {
    PlanClosed(scale);
    var services := PlanOf(scale, CATALOGUE).services;
    forall s | s in services && s in JS_SERVICES ensures NeedsGatewayImage(services) {
      ImageOwners(s);
      var i :| 0 <= i < |services| && services[i] == s;
    }
    if NeedsGatewayImage(services) {
      var i :| 0 <= i < |services| && services[i] in FROM_SHARED_IMAGE;
      ImageOwners(services[i]);
      assert ImageOwner(services[i]) in services;
    }
  }

  /** Raising entries of the scale map removes no service and lowers no count. */
  lemma PlanMonotone(low: Scale, high: Scale)
    requires forall key :: Get(low, key) <= Get(high, key)
    ensures var p, q := PlanOf(low, CATALOGUE), PlanOf(high, CATALOGUE);
      forall s :: s in p.services ==> s in q.services && s in p.counts && s in q.counts && p.counts[s] <= q.counts[s]
  {
    PlannedMeansWanted(low);
    PlannedMeansWanted(high);
    forall s: Service ensures Wanted(low, s) <= Wanted(high, s) { WantedMonotone(low, high, s); }
  }

  lemma WantedMonotone(low: Scale, high: Scale, s: Service)
    requires forall key :: Get(low, key) <= Get(high, key)
    ensures Wanted(low, s) <= Wanted(high, s)
  {
    assert Get(low, Of(s)) <= Get(high, Of(s));
    assert Get(low, Obs) <= Get(high, Obs);
    assert Get(low, Of(Gateway)) <= Get(high, Of(Gateway)) && Get(low, Of(Loadtest)) <= Get(high, Of(Loadtest));
    assert Get(low, Of(Postgres)) <= Get(high, Of(Postgres)) && Get(low, Of(Redis)) <= Get(high, Of(Redis));
    assert Get(low, Of(UserService)) <= Get(high, Of(UserService));
    assert Get(low, Of(MediaService)) <= Get(high, Of(MediaService));
  }

  /** So raising or adding entries in `services.conf` never takes anything away. */
  lemma ConfMonotone(low: map<string, nat>, high: map<string, nat>)
    requires forall key :: key in low ==> key in high && low[key] <= high[key]
    ensures var p, q := PlanOf(ScaleFrom(low), CATALOGUE), PlanOf(ScaleFrom(high), CATALOGUE);
      forall s :: s in p.services ==> s in q.services && s in p.counts && s in q.counts && p.counts[s] <= q.counts[s]
  {
    forall k ensures Get(ScaleFrom(low), k) <= Get(ScaleFrom(high), k) { RaisedKey(low, high, k); }
    PlanMonotone(ScaleFrom(low), ScaleFrom(high));
  }

  lemma RaisedKey(low: map<string, nat>, high: map<string, nat>, k: Key)
    requires forall key :: key in low ==> key in high && low[key] <= high[key]
    ensures Get(ScaleFrom(low), k) <= Get(ScaleFrom(high), k)
  {
    var name := KeyName(k);
    assert name in low ==> name in high && low[name] <= high[name];
  }
}
