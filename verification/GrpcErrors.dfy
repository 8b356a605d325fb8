/** How a domain error of user-service crosses gRPC and becomes an HTTP error again at the
    gateway: `rethrowAsRpc` on one side, `mapUserServiceGrpcError` on the other. */
module GrpcErrors {
  import opened Options
  import opened Text

  // ---------- reading a status out of an unknown error ----------

  /** A `code` field: missing, a finite number, a text, or anything else. */
  datatype Scalar = Absent | Number(n: nat) | Text(s: string) | Other

  /** What the client catches: not an object, or an object with the fields that are read.
      `error` is its nested error object, `status` the `code` of its nested status. */
  datatype Err =
    | NotAnObject
    | Err(code: Scalar, error: Option<Err>, status: Option<Scalar>, details: Option<string>, message: Option<string>)

  const GRPC_CODE_BY_NAME: seq<(string, nat)> := [
    ("OK", 0), ("CANCELLED", 1), ("UNKNOWN", 2), ("INVALID_ARGUMENT", 3), ("NOT_FOUND", 5),
    ("ALREADY_EXISTS", 6), ("PERMISSION_DENIED", 7), ("UNAUTHENTICATED", 16), ("INTERNAL", 13),
    ("UNAVAILABLE", 14)]

  function CodeByName(table: seq<(string, nat)>, name: string): Option<nat> {
    if table == [] then None
    else if table[0].0 == name then Some(table[0].1)
    else CodeByName(table[1..], name)
  }

  function ReadCode(value: Scalar): Option<nat> {
    match value
    case Number(n) => Some(n)
    case Text(s) => if NumberOf(Trim(s)).Some? then NumberOf(Trim(s)) else CodeByName(GRPC_CODE_BY_NAME, s)
    case _ => None
  }

  /** The character classes of the two patterns. */
  datatype Class = Digit | Space | Upper

  predicate In(k: Class, c: char) {
    match k
    case Digit => IsDigit(c)
    case Space => IsSpace(c)
    case Upper => 'A' <= c <= 'Z' || c == '_'
  }

  /** How many leading characters are in the class. */
  function Run(k: Class, s: string): (n: nat)
    ensures n <= |s|
    ensures forall i :: 0 <= i < n ==> In(k, s[i])
    ensures n < |s| ==> !In(k, s[n])
  {
    if s != "" && In(k, s[0]) then 1 + Run(k, s[1..]) else 0
  }

  datatype Prefix = Prefix(digits: string, name: string, rest: string)

  /** A match of `^(\d+)\s+([A-Z_]+)` and what follows it. The three classes are disjoint,
      so the greedy match is the only one. */
  function MatchPrefix(s: string): Option<Prefix> {
    var d := Run(Digit, s);
    var w := Run(Space, s[d..]);
    var u := Run(Upper, s[d..][w..]);
    if d == 0 || w == 0 || u == 0 then None
    else Some(Prefix(s[..d], s[d..][w..][..u], s[d..][w..][u..]))
  }

  predicate Includes(s: string, part: string) {
    exists i :: 0 <= i <= |s| && part <= s[i..]
  }

  function NameIncluded(table: seq<(string, nat)>, msg: string): Option<nat> {
    if table == [] then None
    else if table[0].0 != "OK" && Includes(msg, table[0].0) then Some(table[0].1)
    else NameIncluded(table[1..], msg)
  }

  function StatusFromText(msg: string): Option<nat> {
    match MatchPrefix(msg)
    case Some(p) => if NumberOf(p.digits).Some? then NumberOf(p.digits) else CodeByName(GRPC_CODE_BY_NAME, p.name)
    case None => NameIncluded(GRPC_CODE_BY_NAME, msg)
  }

  /** `grpcStatusCode`: the own code, the nested error's, the status', then the text. */
  function GrpcStatusCode(err: Err): Option<nat> {
    if err.NotAnObject? then None
    else if ReadCode(err.code).Some? then ReadCode(err.code)
    else
      var nested := if err.error.Some? then GrpcStatusCode(err.error.value) else None;
      var fromStatus := if err.status.Some? then ReadCode(err.status.value) else None;
      if nested.Some? then nested
      else if fromStatus.Some? then fromStatus
      else
        StatusFromText(
          if err.details.Some? then err.details.value
          else if err.message.Some? then err.message.value
          else "")
  }

  /** Removes a match of `^\d+\s+[A-Z_]+:\s*`. */
  function StripPrefix(raw: string): string {
    match MatchPrefix(raw)
    case Some(p) => if p.rest != "" && p.rest[0] == ':' then TrimStart(p.rest[1..]) else raw
    case None => raw
  }

  const DEFAULT_MESSAGE := "user-service gRPC error"

  /** The first of `details` and `message` that is not empty. */
  function RawMessage(err: Err): string
    requires err.Err?
  {
    if err.details.Some? && err.details.value != "" then err.details.value
    else if err.message.Some? && err.message.value != "" then err.message.value
    else DEFAULT_MESSAGE
  }

  function ErrorMessage(err: Err): string {
    if err.NotAnObject? then DEFAULT_MESSAGE else StripPrefix(RawMessage(err))
  }

  datatype Http = Http(status: nat, message: string)

  /** The switch over the status. */
  function HttpFor(code: Option<nat>, message: string): Http {
    match code
    case Some(6) => Http(409, message)
    case Some(16) => Http(401, message)
    case Some(5) => Http(404, message)
    case Some(3) => Http(400, message)
    case _ => Http(502, message)
  }

  function MapUserServiceGrpcError(err: Err): Http {
    HttpFor(GrpcStatusCode(err), ErrorMessage(err))
  }

  /** The answer over every error: four statuses have an HTTP status of their own, and anything
      else - another status, none at all, not even an object - is a 502. */
  lemma StatusExactly(err: Err)
    ensures var http, code := MapUserServiceGrpcError(err), GrpcStatusCode(err);
      && http.message == ErrorMessage(err)
      && (http.status == 409 <==> code == Some(6))
      && (http.status == 401 <==> code == Some(16))
      && (http.status == 404 <==> code == Some(5))
      && (http.status == 400 <==> code == Some(3))
      && (http.status == 502 <==> code !in {Some(6), Some(16), Some(5), Some(3)})
  {
    HttpForExactly(GrpcStatusCode(err), ErrorMessage(err));
  }

  lemma HttpForExactly(code: Option<nat>, message: string)
    ensures var http := HttpFor(code, message);
      && http.message == message
      && (http.status == 409 <==> code == Some(6))
      && (http.status == 401 <==> code == Some(16))
      && (http.status == 404 <==> code == Some(5))
      && (http.status == 400 <==> code == Some(3))
      && (http.status == 502 <==> code !in {Some(6), Some(16), Some(5), Some(3)})
  {
  }

  // ---------- where the status comes from ----------

  /** The named statuses of gRPC that the client knows, with their numbers. */
  const GRPC_STATUS: map<string, nat> := map[
    "OK" := 0, "CANCELLED" := 1, "UNKNOWN" := 2, "INVALID_ARGUMENT" := 3, "NOT_FOUND" := 5,
    "ALREADY_EXISTS" := 6, "PERMISSION_DENIED" := 7, "INTERNAL" := 13, "UNAVAILABLE" := 14,
    "UNAUTHENTICATED" := 16]

  lemma CodeByNameExactly(name: string)
    ensures CodeByName(GRPC_CODE_BY_NAME, name) == if name in GRPC_STATUS then Some(GRPC_STATUS[name]) else None
  {
    NameRowsHold(GRPC_CODE_BY_NAME, name);
    forall i | 0 <= i < |GRPC_CODE_BY_NAME|
      ensures GRPC_CODE_BY_NAME[i].0 in GRPC_STATUS && GRPC_STATUS[GRPC_CODE_BY_NAME[i].0] == GRPC_CODE_BY_NAME[i].1
    {
      RowInStatus(i);
    }
    if name in GRPC_STATUS { StatusHasRow(name); }
  }

  lemma RowInStatus(i: nat)
    requires i < |GRPC_CODE_BY_NAME|
    ensures GRPC_CODE_BY_NAME[i].0 in GRPC_STATUS && GRPC_STATUS[GRPC_CODE_BY_NAME[i].0] == GRPC_CODE_BY_NAME[i].1
  {
  }

  lemma StatusHasRow(name: string)
    requires name in GRPC_STATUS
    ensures exists i :: 0 <= i < |GRPC_CODE_BY_NAME| && GRPC_CODE_BY_NAME[i].0 == name
  {
    assert GRPC_CODE_BY_NAME[0].0 == "OK" && GRPC_CODE_BY_NAME[1].0 == "CANCELLED";
    assert GRPC_CODE_BY_NAME[2].0 == "UNKNOWN" && GRPC_CODE_BY_NAME[3].0 == "INVALID_ARGUMENT";
    assert GRPC_CODE_BY_NAME[4].0 == "NOT_FOUND" && GRPC_CODE_BY_NAME[5].0 == "ALREADY_EXISTS";
    assert GRPC_CODE_BY_NAME[6].0 == "PERMISSION_DENIED" && GRPC_CODE_BY_NAME[7].0 == "UNAUTHENTICATED";
    assert GRPC_CODE_BY_NAME[8].0 == "INTERNAL" && GRPC_CODE_BY_NAME[9].0 == "UNAVAILABLE";
  }

  lemma {:induction false} NameRowsHold(table: seq<(string, nat)>, name: string)
    ensures match CodeByName(table, name)
      case Some(code) => exists i :: 0 <= i < |table| && table[i] == (name, code)
      case None => forall i :: 0 <= i < |table| ==> table[i].0 != name
  {
    if table != [] && table[0].0 != name {
      NameRowsHold(table[1..], name);
      forall i | 0 < i < |table| ensures table[i] == table[1..][i - 1] {}
      if CodeByName(table, name).Some? {
        var i :| 0 <= i < |table[1..]| && table[1..][i] == (name, CodeByName(table, name).value);
        assert table[i + 1] == (name, CodeByName(table, name).value);
      }
    }
  }

  /** A `code` is read as the number it is, as the number its text is, blanks aside, or by its
      name, and otherwise not at all. */
  lemma ReadCodeExactly(value: Scalar)
    ensures match value
      case Number(n) => ReadCode(value) == Some(n)
      case Text(s) =>
        if NumberOf(Trim(s)).Some? then ReadCode(value) == NumberOf(Trim(s))
        else if s in GRPC_STATUS then ReadCode(value) == Some(GRPC_STATUS[s])
        else ReadCode(value) == None
      case _ => ReadCode(value) == None
  {
    if value.Text? { CodeByNameExactly(value.s); }
  }

  /** Every place a status can stand, in the order in which they count: the own code, the nested
      error's places, the nested status, the text. */
  function Candidates(err: Err): seq<Option<nat>> {
    if err.NotAnObject? then []
    else
      [ReadCode(err.code)]
      + (if err.error.Some? then Candidates(err.error.value) else [])
      + (if err.status.Some? then [ReadCode(err.status.value)] else [])
      + [StatusFromText(if err.details.Some? then err.details.value else MessageOrNothing(err.message))]
  }

  function MessageOrNothing(message: Option<string>): string {
    if message.Some? then message.value else ""
  }

  function FirstSome(xs: seq<Option<nat>>): Option<nat> {
    if xs == [] then None else if xs[0].Some? then xs[0] else FirstSome(xs[1..])
  }

  lemma {:induction false} FirstSomeOf(xs: seq<Option<nat>>, ys: seq<Option<nat>>)
    ensures FirstSome(xs + ys) == if FirstSome(xs).Some? then FirstSome(xs) else FirstSome(ys)
  {
    if xs == [] {
      assert xs + ys == ys;
    } else {
      assert (xs + ys)[1..] == xs[1..] + ys;
      FirstSomeOf(xs[1..], ys);
    }
  }

  /** The status is the first that any of these places gives. */
  lemma {:induction false} StatusIsFirstCandidate(err: Err)
    ensures GrpcStatusCode(err) == FirstSome(Candidates(err))
  {
    if err.Err? {
      var own := [ReadCode(err.code)];
      var nested := if err.error.Some? then Candidates(err.error.value) else [];
      var status := if err.status.Some? then [ReadCode(err.status.value)] else [];
      var text := [StatusFromText(if err.details.Some? then err.details.value else MessageOrNothing(err.message))];
      if err.error.Some? { StatusIsFirstCandidate(err.error.value); }
      FirstSomeOf(own + nested + status, text);
      FirstSomeOf(own + nested, status);
      FirstSomeOf(own, nested);
    }
  }

  // ---------- the text round trip ----------

  /** What grpc-js puts in `message`: "6 ALREADY_EXISTS: ...". */
  function StatusText(code: nat, name: string, message: string): string {
    Decimal(code) + " " + name + ": " + message
  }

  predicate StatusName(name: string) {
    name != "" && forall i :: 0 <= i < |name| ==> In(Upper, name[i])
  }

  lemma {:induction false} RunOf(k: Class, a: string, b: string)
    requires forall i :: 0 <= i < |a| ==> In(k, a[i])
    requires b == "" || !In(k, b[0])
    ensures Run(k, a + b) == |a|
  {
    if a == "" {
      assert a + b == b;
    } else {
      assert (a + b)[1..] == a[1..] + b;
      RunOf(k, a[1..], b);
    }
  }

  lemma PrefixOfStatusText(code: nat, name: string, message: string)
    requires StatusName(name)
    ensures MatchPrefix(StatusText(code, name, message)) == Some(Prefix(Decimal(code), name, ": " + message))
  {
    var digits, tail := Decimal(code), name + (": " + message);
    assert StatusText(code, name, message) == digits + (" " + tail);
    RunOf(Digit, digits, " " + tail);
    RunOf(Space, " ", tail);
    RunOf(Upper, name, ": " + message);
    Parts(digits, " " + tail);
    Parts(" ", tail);
    Parts(name, ": " + message);
  }

  lemma Parts(a: string, b: string)
    ensures (a + b)[..|a|] == a && (a + b)[|a|..] == b
  {
  }

  lemma {:induction false} TrimStartKeeps(s: string)
    ensures TrimStart(s) == s <==> s == "" || !IsSpace(s[0])
    ensures |TrimStart(s)| <= |s|
  {
    if s != "" && IsSpace(s[0]) { TrimStartKeeps(s[1..]); }
  }

  /** Parsing "<code> <NAME>: <message>" with no `code` and no `details` gives back the code,
      and gives back the message exactly when it has no leading white space. */
  lemma StatusTextRoundTrip(code: nat, name: string, message: string)
    requires StatusName(name)
    ensures var err := Err(Absent, None, None, None, Some(StatusText(code, name, message)));
      && GrpcStatusCode(err) == Some(code)
      && (ErrorMessage(err) == message <==> message == "" || !IsSpace(message[0]))
  {
    PrefixOfStatusText(code, name, message);
    StripStatusText(code, name, message);
    NumberOfDecimal(code);
    TrimStartKeeps(message);
  }

  /** Stripping a status prefix also strips white space that leads the message. */
  lemma StripStatusText(code: nat, name: string, message: string)
    requires StatusName(name)
    ensures StripPrefix(StatusText(code, name, message)) == TrimStart(message)
    ensures StatusText(code, name, message) != ""
  {
    PrefixOfStatusText(code, name, message);
    StripAfterPrefix(StatusText(code, name, message), ": " + message);
    SkipBlank(message);
  }

  lemma StripAfterPrefix(raw: string, rest: string)
    requires MatchPrefix(raw).Some? && MatchPrefix(raw).value.rest == rest && rest != "" && rest[0] == ':'
    ensures StripPrefix(raw) == TrimStart(rest[1..]) && raw != ""
  {
  }

  lemma SkipBlank(message: string)
    ensures TrimStart((": " + message)[1..]) == TrimStart(message)
  {
    assert (": " + message)[1..] == " " + message && (" " + message)[1..] == message;
  }

  predicate AllIn(k: Class, s: string) { forall i :: 0 <= i < |s| ==> In(k, s[i]) }

  /** Digits, blanks and a name, each at least one character, and the name not cut short. */
  predicate Splits(s: string, p: Prefix, blanks: string) {
    && s == p.digits + (blanks + (p.name + p.rest))
    && p.digits != "" && AllIn(Digit, p.digits) && blanks != "" && AllIn(Space, blanks)
    && p.name != "" && AllIn(Upper, p.name) && (p.rest == "" || !In(Upper, p.rest[0]))
  }

  /** Exactly which texts have a numeric prefix, and how it splits them. */
  lemma PrefixExactly(s: string, p: Prefix)
    ensures MatchPrefix(s) == Some(p) <==> exists blanks :: Splits(s, p, blanks)
  {
    if MatchPrefix(s) == Some(p) { var blanks := MatchSplits(s, p); }
    forall blanks | Splits(s, p, blanks) ensures MatchPrefix(s) == Some(p) {
      SplitMatches(s, p, blanks);
    }
  }

  lemma MatchSplits(s: string, p: Prefix) returns (blanks: string)
    requires MatchPrefix(s) == Some(p)
    ensures Splits(s, p, blanks)
  {
    var after, word := s[Run(Digit, s)..], s[Run(Digit, s)..][Run(Space, s[Run(Digit, s)..])..];
    blanks := after[..Run(Space, after)];
    RunSplits(Digit, s);
    RunSplits(Space, after);
    RunSplits(Upper, word);
  }

  lemma RunSplits(k: Class, s: string)
    ensures s == s[..Run(k, s)] + s[Run(k, s)..] && |s[..Run(k, s)]| == Run(k, s)
    ensures AllIn(k, s[..Run(k, s)]) && (s[Run(k, s)..] == "" || !In(k, s[Run(k, s)..][0]))
  {
  }

  lemma SplitMatches(s: string, p: Prefix, blanks: string)
    requires Splits(s, p, blanks)
    ensures MatchPrefix(s) == Some(p)
  {
    assert In(Space, blanks[0]) && In(Upper, p.name[0]);
    RunOf(Digit, p.digits, blanks + (p.name + p.rest));
    RunOf(Space, blanks, p.name + p.rest);
    RunOf(Upper, p.name, p.rest);
    Parts(p.digits, blanks + (p.name + p.rest));
    Parts(blanks, p.name + p.rest);
    Parts(p.name, p.rest);
  }

  /** An error without a text of its own gets the client's. */
  lemma DefaultMessageExactly(err: Err)
    requires err.Err? ==> err.details in {None, Some("")} && err.message in {None, Some("")}
    ensures MapUserServiceGrpcError(err).message == "user-service gRPC error"
  {
    DefaultKept();
    HttpForExactly(GrpcStatusCode(err), ErrorMessage(err));
  }

  /** After a numeric prefix the lookup by name never runs: a run of digits is a number. */
  lemma ByNameNeverRuns(msg: string)
    requires MatchPrefix(msg).Some?
    ensures NumberOf(MatchPrefix(msg).value.digits).Some?
    ensures StatusFromText(msg) == Some(DigitsValue(msg[..Run(Digit, msg)]))
  {
    assert MatchPrefix(msg).value.digits == msg[..Run(Digit, msg)];
    DigitsAreNumber(msg[..Run(Digit, msg)]);
  }

  lemma DigitsAreNumber(s: string)
    requires s != "" && forall i :: 0 <= i < |s| ==> In(Digit, s[i])
    ensures AllDigits(s) && NumberOf(s) == Some(DigitsValue(s))
  {
    assert In(Digit, s[0]);
  }

  /** Without a numeric prefix the first name of the table, `OK` apart, that occurs in the
      text decides, and no name means no status. */
  lemma {:induction false} NameIncludedIsFirst(table: seq<(string, nat)>, msg: string)
    ensures match NameIncluded(table, msg)
      case Some(code) => exists i :: 0 <= i < |table| && Named(table[i], msg) && table[i].1 == code
                                     && forall j :: 0 <= j < i ==> !Named(table[j], msg)
      case None => forall i :: 0 <= i < |table| ==> !Named(table[i], msg)
  {
    if table != [] && !Named(table[0], msg) {
      NameIncludedIsFirst(table[1..], msg);
      forall j | 0 <= j < |table| ensures j == 0 || table[j] == table[1..][j - 1] {}
      if NameIncluded(table, msg).Some? {
        var i :| 0 <= i < |table[1..]| && Named(table[1..][i], msg) && table[1..][i].1 == NameIncluded(table, msg).value
                 && forall j :: 0 <= j < i ==> !Named(table[1..][j], msg);
        assert Named(table[i + 1], msg);
      }
    }
  }

  /** So a text without a numeric prefix gives the code of the first known name in it. */
  lemma NameDecides(msg: string)
    requires MatchPrefix(msg) == None
    ensures match StatusFromText(msg)
      case Some(code) => exists i :: 0 <= i < |GRPC_CODE_BY_NAME| && Named(GRPC_CODE_BY_NAME[i], msg)
                                     && GRPC_CODE_BY_NAME[i].1 == code
                                     && forall j :: 0 <= j < i ==> !Named(GRPC_CODE_BY_NAME[j], msg)
      case None => forall i :: 0 <= i < |GRPC_CODE_BY_NAME| ==> !Named(GRPC_CODE_BY_NAME[i], msg)
  {
    NameIncludedIsFirst(GRPC_CODE_BY_NAME, msg);
  }

  predicate Named(entry: (string, nat), msg: string) {
    entry.0 != "OK" && Includes(msg, entry.0)
  }

  // ---------- error transport ----------

  datatype DomainError =
    | UserNotFound(id: string)
    | UserAlreadyExists(email: string)
    | InvalidCredentials
    | InvalidRefreshToken

  function ErrorName(e: DomainError): string {
    match e
    case UserNotFound(_) => "UserNotFoundError"
    case UserAlreadyExists(_) => "UserAlreadyExistsError"
    case InvalidCredentials => "InvalidCredentialsError"
    case InvalidRefreshToken => "InvalidRefreshTokenError"
  }

  function Message(e: DomainError): string {
    match e
    case UserNotFound(id) => "User not found: " + id
    case UserAlreadyExists(email) => "User already exists: " + email
    case InvalidCredentials => "Invalid email or password"
    case InvalidRefreshToken => "Invalid or expired refresh token"
  }

  /** What a handler can throw. */
  datatype Thrown =
    | Rpc(code: nat, message: string)
    | Error(name: string, message: string)
    | Value(text: string)

  function ToGrpcStatusCode(name: string): nat {
    if name == "UserAlreadyExistsError" then 6
    else if name == "InvalidCredentialsError" || name == "InvalidRefreshTokenError" then 16
    else if name == "UserNotFoundError" then 5
    else 13
  }

  /** An RPC exception passes unchanged; anything else becomes one, by its error name. */
  function RethrowAsRpc(thrown: Thrown): Thrown {
    match thrown
    case Rpc(_, _) => thrown
    case Error(name, message) => Rpc(ToGrpcStatusCode(name), message)
    case Value(text) => Rpc(ToGrpcStatusCode("Error"), text)
  }

  /** Whatever is thrown leaves as an RPC exception with its own text: one that is already an RPC
      exception unchanged, a domain error with its code, anything else as INTERNAL. */
  lemma RethrownExactly(thrown: Thrown)
    ensures var rpc := RethrowAsRpc(thrown);
      && rpc.Rpc? && RethrowAsRpc(rpc) == rpc
      && match thrown
         case Rpc(code, message) => rpc == Rpc(code, message)
         case Value(text) => rpc == Rpc(13, text)
         case Error(name, message) =>
           rpc.message == message
           && (rpc.code == 13 <==> name !in {"UserAlreadyExistsError", "InvalidCredentialsError",
                                             "InvalidRefreshTokenError", "UserNotFoundError"})
  {
    if thrown.Value? { assert |"Error"| == 5; }
  }

  /** The answer user-service itself gives over HTTP. */
  function OwnHttp(e: DomainError): Http {
    match e
    case UserAlreadyExists(_) => Http(409, Message(e))
    case InvalidCredentials | InvalidRefreshToken => Http(401, Message(e))
    case UserNotFound(_) => Http(404, Message(e))
  }

  /** The first object along the nested `error` chain whose `code` can be read has this one. */
  predicate FirstCode(err: Err, code: nat) {
    err.Err? && (
      if ReadCode(err.code).Some? then ReadCode(err.code) == Some(code)
      else err.error.Some? && FirstCode(err.error.value, code))
  }

  /** A code anywhere along the chain wins over every status and every text on the way. */
  lemma {:induction false} FirstCodeIsFound(err: Err, code: nat)
    requires FirstCode(err, code)
    ensures GrpcStatusCode(err) == Some(code)
  {
    if ReadCode(err.code).None? { FirstCodeIsFound(err.error.value, code); }
  }

  /** Where a client error can carry the message: in `details`, in `message` as it is, or in
      `message` behind a status. An empty `details` is passed over, so it carries a message only
      when `message` says nothing else. */
  datatype Carrier = InDetails | InMessage | StatusLine(name: string)

  predicate Carries(err: Err, thrown: Thrown, via: Carrier) {
    thrown.Rpc? && err.Err? &&
    match via
    case InDetails => err.details == Some(thrown.message) && (thrown.message == "" ==> err.message in {None, Some("")})
    case InMessage => err.details in {None, Some("")} && err.message == Some(thrown.message)
    case StatusLine(name) =>
      && StatusName(name) && err.details in {None, Some("")}
      && err.message == Some(StatusText(thrown.code, name, thrown.message))
  }

  /** `StripPrefix` has something to strip. */
  predicate HasStatusPrefix(m: string) {
    MatchPrefix(m).Some? && MatchPrefix(m).value.rest != "" && MatchPrefix(m).value.rest[0] == ':'
  }

  lemma StrippedExactly(m: string)
    ensures StripPrefix(m) == m <==> !HasStatusPrefix(m)
  {
    if HasStatusPrefix(m) {
      var rest := MatchPrefix(m).value.rest;
      TrimStartKeeps(rest[1..]);
      assert |rest| <= |m|;
    }
  }

  lemma MessageKept(e: DomainError)
    ensures Message(e) != "" && !IsSpace(Message(e)[0]) && StripPrefix(Message(e)) == Message(e)
  {
    var m := Message(e);
    match e
    case UserNotFound(id) => assert m[0] == "User not found: "[0];
    case UserAlreadyExists(email) => assert m[0] == "User already exists: "[0];
    case _ =>
  }

  /** For every domain error, and every id or email in it, the gateway answers with the
      status and the message user-service itself would have answered with, wherever along
      the nested `error` chain the code first appears. */
  lemma TransportPreservesMeaning(e: DomainError, err: Err, via: Carrier)
    requires var rpc := RethrowAsRpc(Error(ErrorName(e), Message(e)));
      FirstCode(err, rpc.code) && Carries(err, rpc, via)
    ensures MapUserServiceGrpcError(err) == OwnHttp(e)
  {
    var rpc := RethrowAsRpc(Error(ErrorName(e), Message(e)));
    FirstCodeIsFound(err, rpc.code);
    MessageKept(e);
    StrippedExactly(Message(e));
    MessageSurvivesExactly(err, rpc, via);
    CodeToHttp(e);
  }

  /** Exactly when a carried message comes out of the gateway unchanged: behind a status, if it
      does not start with white space; otherwise, if it is not empty and does not itself look
      like a status. */
  lemma MessageSurvivesExactly(err: Err, thrown: Thrown, via: Carrier)
    requires Carries(err, thrown, via)
    ensures ErrorMessage(err) == thrown.message <==> Survives(thrown.message, via)
  {
    CarriedRaw(err, thrown, via);
    if via.StatusLine? {
      StripStatusText(thrown.code, via.name, thrown.message);
      TrimStartKeeps(thrown.message);
    } else if thrown.message == "" {
      DefaultKept();
    } else {
      StrippedExactly(thrown.message);
    }
  }

  lemma CarriedRaw(err: Err, thrown: Thrown, via: Carrier)
    requires Carries(err, thrown, via)
    ensures RawMessage(err) ==
      if via.StatusLine? then StatusText(thrown.code, via.name, thrown.message)
      else if thrown.message == "" then DEFAULT_MESSAGE
      else thrown.message
  {
    if via.StatusLine? { StripStatusText(thrown.code, via.name, thrown.message); }
  }

  predicate Survives(message: string, via: Carrier) {
    if via.StatusLine? then message == "" || !IsSpace(message[0])
    else message != "" && !HasStatusPrefix(message)
  }

  lemma DefaultKept()
    ensures StripPrefix(DEFAULT_MESSAGE) == DEFAULT_MESSAGE != ""
  {
    assert DEFAULT_MESSAGE[0] == 'u';
  }

  lemma GrpcCodeOf(e: DomainError)
    ensures ToGrpcStatusCode(ErrorName(e)) ==
      match e
      case UserAlreadyExists(_) => 6
      case UserNotFound(_) => 5
      case _ => 16
  {
    match e
    case UserNotFound(_) => assert |ErrorName(e)| == 17;
    case UserAlreadyExists(_) => assert |ErrorName(e)| == 22;
    case InvalidCredentials => assert |ErrorName(e)| == 23;
    case InvalidRefreshToken => assert |ErrorName(e)| == 24;
  }

  lemma CodeToHttp(e: DomainError)
    ensures HttpFor(Some(ToGrpcStatusCode(ErrorName(e))), Message(e)) == OwnHttp(e)
  {
    GrpcCodeOf(e);
  }

  /** An error of which only the status text survived, in `details` or in `message`. */
  function TextOnly(text: string, inDetails: bool): Err {
    if inDetails then Err(Absent, None, None, Some(text), None) else Err(Absent, None, None, None, Some(text))
  }

  lemma TextOnlyReads(code: nat, name: string, message: string, inDetails: bool)
    requires StatusName(name)
    ensures var err := TextOnly(StatusText(code, name, message), inDetails);
      GrpcStatusCode(err) == Some(code) && ErrorMessage(err) == TrimStart(message)
  {
    PrefixOfStatusText(code, name, message);
    StripStatusText(code, name, message);
    NumberOfDecimal(code);
  }

  /** The same when no code survived and the status text alone carries the error. */
  lemma TextAlonePreservesMeaning(e: DomainError, name: string, inDetails: bool)
    requires StatusName(name)
    ensures var code := ToGrpcStatusCode(ErrorName(e));
      MapUserServiceGrpcError(TextOnly(StatusText(code, name, Message(e)), inDetails)) == OwnHttp(e)
  {
    TextOnlyReads(ToGrpcStatusCode(ErrorName(e)), name, Message(e), inDetails);
    assert TrimStart(Message(e)) == Message(e) by {
      MessageKept(e);
      TrimStartKeeps(Message(e));
    }
    CodeToHttp(e);
  }

  lemma OtherCode(name: string, message: string)
    requires name !in {"UserAlreadyExistsError", "InvalidCredentialsError", "InvalidRefreshTokenError",
                       "UserNotFoundError"}
    ensures RethrowAsRpc(Error(name, message)) == Rpc(13, message)
  {
  }

  lemma InternalIsBadGateway(message: string)
    ensures HttpFor(Some(13), message) == Http(502, message)
  {
  }

  /** Any other error crosses as INTERNAL and the gateway answers 502, with the thrown message
      exactly if it survives the reading. */
  lemma OtherErrorsAreBadGateway(name: string, message: string, err: Err, via: Carrier)
    requires name !in {"UserAlreadyExistsError", "InvalidCredentialsError", "InvalidRefreshTokenError",
                       "UserNotFoundError"}
    requires var rpc := RethrowAsRpc(Error(name, message));
      rpc.Rpc? && FirstCode(err, rpc.code) && Carries(err, rpc, via)
    ensures MapUserServiceGrpcError(err).status == 502
    ensures MapUserServiceGrpcError(err).message == message <==> Survives(message, via)
  {
    OtherCode(name, message);
    FirstCodeIsFound(err, 13);
    InternalIsBadGateway(ErrorMessage(err));
    MessageSurvivesExactly(err, Rpc(13, message), via);
  }

  /** A message that looks like a status loses its beginning. */
  lemma StatusLikeMessageIsStripped(code: nat, name: string, rest: string)
    requires StatusName(name)
    ensures RethrowAsRpc(Error("Error", StatusText(code, name, rest))) == Rpc(13, StatusText(code, name, rest))
    ensures MapUserServiceGrpcError(Err(Number(13), None, None, Some(StatusText(code, name, rest)), None))
         == Http(502, TrimStart(rest))
  {
    var err := Err(Number(13), None, None, Some(StatusText(code, name, rest)), None);
    PlainErrorCode(StatusText(code, name, rest));
    FirstCodeIsFound(err, 13);
    InternalIsBadGateway(ErrorMessage(err));
    StripStatusText(code, name, rest);
  }

  lemma PlainErrorCode(message: string)
    ensures RethrowAsRpc(Error("Error", message)) == Rpc(13, message)
  {
    assert |"Error"| == 5;
  }

  /** An error thrown with the message "6 X: hi" reaches the client as "hi". */
  lemma ShortenedMessage()
    ensures RethrowAsRpc(Error("Error", "6 X: hi")) == Rpc(13, "6 X: hi")
    ensures MapUserServiceGrpcError(Err(Number(13), None, None, Some("6 X: hi"), None)) == Http(502, "hi")
  {
    assert Decimal(6) == "6";
    assert StatusText(6, "X", "hi") == "6 X: hi";
    StatusLikeMessageIsStripped(6, "X", "hi");
    TrimStartKeeps("hi");
  }
}
