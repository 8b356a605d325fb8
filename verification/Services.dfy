/** The services of the compose files and what a scale map asks of each. */
module Services {
  import opened Text

  datatype Service =
    | Postgres | Redis | Rabbitmq | S3mock
    | Tempo | OtelCollector | Loki | Grafana | Prometheus
    | PostgresExporter | RedisExporter
    | Gateway | UserService | NotificationService | MediaService
    | HotelService | BookingService
    | GatewayLb | UserMigrate | MediaMigrate | Loadtest

  function Name(s: Service): string {
    match s
    case Postgres => "postgres"
    case Redis => "redis"
    case Rabbitmq => "rabbitmq"
    case S3mock => "s3mock"
    case Tempo => "tempo"
    case OtelCollector => "otel-collector"
    case Loki => "loki"
    case Grafana => "grafana"
    case Prometheus => "prometheus"
    case PostgresExporter => "postgres-exporter"
    case RedisExporter => "redis-exporter"
    case Gateway => "gateway"
    case UserService => "user-service"
    case NotificationService => "notification-service"
    case MediaService => "media-service"
    case HotelService => "hotel-service"
    case BookingService => "booking-service"
    case GatewayLb => "gateway-lb"
    case UserMigrate => "user-migrate"
    case MediaMigrate => "media-migrate"
    case Loadtest => "loadtest"
  }

  /** The keys of `services.conf` that planning reads. */
  datatype Key = Obs | Of(service: Service)

  type Scale = map<Key, int>

  function KeyName(k: Key): string {
    if k == Obs then "obs" else Name(k.service)
  }

  const KEYS: set<Key> := {
    Obs, Of(Postgres), Of(Redis), Of(Rabbitmq), Of(S3mock), Of(Gateway), Of(UserService),
    Of(NotificationService), Of(MediaService), Of(HotelService), Of(BookingService), Of(Loadtest)}

  /** The part of a parsed `services.conf` that planning reads. */
  function ScaleFrom(conf: map<string, nat>): Scale {
    map k | k in KEYS && KeyName(k) in conf :: conf[KeyName(k)]
  }

  /** Two names differ in length or in one of a few characters. */
  lemma NamesDiffer(a: Service, b: Service)
    requires a != b
    ensures Name(a) != Name(b)
  {
    var m, n := Name(a), Name(b);
    if |m| == |n| {
      assert m[0] != n[0] || m[1] != n[1] || m[2] != n[2] || (|m| > 6 && m[6] != n[6]);
    }
  }

  lemma NameHasNoEquals(s: Service)
    ensures '=' !in Name(s)
  {
    match s
    case Postgres => case Redis => case Rabbitmq => case S3mock =>
    case _ =>
  }

  const CORE_INFRA_SERVICES: seq<Service> := [Postgres, Redis, Rabbitmq, S3mock]
  const OBS_CORE_SERVICES: seq<Service> := [Tempo, OtelCollector, Loki, Grafana, Prometheus]
  const JS_SERVICES: seq<Service> := [Gateway, UserService, NotificationService, MediaService]
  const PYTHON_SERVICES: seq<Service> := [HotelService, BookingService]
  const HOST_PORT_SERVICES: set<Service> := {
    Postgres, Redis, Rabbitmq, GatewayLb, HotelService, BookingService,
    Tempo, OtelCollector, Loki, Grafana, Prometheus}
}
