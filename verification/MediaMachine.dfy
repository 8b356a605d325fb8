/** Media uploads over object storage and a database. An upload validates and puts its
    object, then saves its row; an upload that crashes simply takes no further step. */
module MediaMachine {
  import opened Options
  import opened Text

  const ALLOWED_MIME: set<string> := {"image/jpeg", "image/png", "image/webp", "image/gif", "application/pdf"}

  datatype Input = Input(mimetype: string, originalName: string, size: nat)

  datatype Object = Object(contentType: string, size: nat)

  /** `size` is stored as decimal text. */
  datatype Row = Row(id: string, storageKey: string, contentType: string, size: string, originalName: string)

  datatype Upload =
    | Putting(row: Row)
    | Uploaded(id: string)
    | Invalid

  datatype State = State(storage: map<string, Object>, rows: map<string, Row>, uploads: map<nat, Upload>)

  const EMPTY := State(map[], map[], map[])

  datatype Event =
    | Put(upload: nat, input: Input, id: string, maxBytes: nat)
    | Save(upload: nat)

  // ---------- names ----------

  function LastIndexOf(s: string, c: char): (i: int)
    ensures i == -1 <==> c !in s
    ensures i != -1 ==> 0 <= i < |s| && s[i] == c && c !in s[i + 1..]
  {
    if s == "" then -1
    else if s[|s| - 1] == c then |s| - 1
    else
      var i := LastIndexOf(s[..|s| - 1], c);
      assert s == s[..|s| - 1] + [s[|s| - 1]];
      assert i != -1 ==> s[i + 1..] == s[..|s| - 1][i + 1..] + [s[|s| - 1]];
      i
  }

  /** `^\.[a-z0-9]{1,8}$` */
  predicate PlainExtension(s: string) {
    2 <= |s| <= 9 && s[0] == '.' && forall i :: 1 <= i < |s| ==> 'a' <= s[i] <= 'z' || IsDigit(s[i])
  }

  /** From the last dot on, in lower case; nothing without a dot. */
  function NameExtension(originalName: string): string {
    var dot := LastIndexOf(originalName, '.');
    if dot == -1 then "" else ToLower(originalName[dot..])
  }

  function TypeExtension(mime: string): string {
    if mime == "image/jpeg" then ".jpg"
    else if mime == "image/png" then ".png"
    else if mime == "image/webp" then ".webp"
    else if mime == "image/gif" then ".gif"
    else if mime == "application/pdf" then ".pdf"
    else ""
  }

  function ExtensionFor(originalName: string, mime: string): string {
    var fromName := NameExtension(originalName);
    if PlainExtension(fromName) then fromName else TypeExtension(mime)
  }

  /** The last segment after a slash or backslash. */
  function BaseName(name: string): (base: string)
    ensures '/' !in base && '\\' !in base
  {
    if name == "" then ""
    else if name[|name| - 1] in {'/', '\\'} then ""
    else BaseName(name[..|name| - 1]) + [name[|name| - 1]]
  }

  function TruncateName(name: string): string {
    var base := BaseName(name);
    if |base| <= 255 then base else base[..255]
  }

  function StorageKey(id: string, ext: string): string {
    "uploads/" + id + ext
  }

  // ---------- steps ----------

  /** A UUID, in the lower case it is generated in, that no upload has used. */
  predicate FreshId(s: State, id: string) {
    && |id| == 36 && ToLower(id) == id && id !in s.rows
    && forall u :: u in s.uploads && s.uploads[u].Putting? ==> s.uploads[u].row.id != id
  }

  function RowFor(input: Input, id: string): Row {
    Row(id, StorageKey(id, ExtensionFor(input.originalName, input.mimetype)), input.mimetype,
        Decimal(input.size), TruncateName(input.originalName))
  }

  function ApplyPut(s: State, u: nat, input: Input, id: string, maxBytes: nat): State {
    if u in s.uploads || !FreshId(s, id) then s
    else if input.size > maxBytes || input.mimetype !in ALLOWED_MIME then s.(uploads := s.uploads[u := Invalid])
    else
      var row := RowFor(input, id);
      s.(storage := s.storage[row.storageKey := Object(input.mimetype, input.size)],
         uploads := s.uploads[u := Putting(row)])
  }

  function ApplySave(s: State, u: nat): State {
    if u in s.uploads && s.uploads[u].Putting? then
      var row := s.uploads[u].row;
      s.(rows := s.rows[row.id := row], uploads := s.uploads[u := Uploaded(row.id)])
    else s
  }

  function Apply(s: State, e: Event): State {
    match e
    case Put(u, input, id, maxBytes) => ApplyPut(s, u, input, id, maxBytes)
    case Save(u) => ApplySave(s, u)
  }

  function Exec(es: seq<Event>): State {
    if es == [] then EMPTY else Apply(Exec(es[..|es| - 1]), es[|es| - 1])
  }

  lemma ExecSnoc(es: seq<Event>, e: Event)
    ensures Exec(es + [e]) == Apply(Exec(es), e)
  {
    assert (es + [e])[..|es|] == es;
  }

  /** A continuation ends with its last event. */
  lemma ExecMore(es: seq<Event>, more: seq<Event>)
    requires more != []
    ensures Exec(es + more) == Apply(Exec(es + more[..|more| - 1]), more[|more| - 1])
  {
    assert (es + more)[..|es + more| - 1] == es + more[..|more| - 1];
  }

  // ---------- lookup ----------

  datatype Record = Record(id: string, contentType: string, size: nat, originalName: string)

  function ToRecord(row: Row): Record {
    Record(row.id, row.contentType, if NumberOf(row.size).Some? then NumberOf(row.size).value else 0, row.originalName)
  }

  /** The first occurrences of the non-empty ids. */
  function Unique(ids: seq<string>): seq<string> {
    if ids == [] then []
    else
      var n := |ids| - 1;
      Unique(ids[..n]) + if ids[n] != "" && ids[n] !in ids[..n] then [ids[n]] else []
  }

  /** The rows by their ids; of two with one id the later counts. */
  function ById(rows: seq<Row>): map<string, Row> {
    if rows == [] then map[] else ById(rows[..|rows| - 1])[rows[|rows| - 1].id := rows[|rows| - 1]]
  }

  function Pick(ids: seq<string>, byId: map<string, Row>): seq<Record> {
    if ids == [] then []
    else
      var n := |ids| - 1;
      Pick(ids[..n], byId) + if ids[n] in byId then [ToRecord(byId[ids[n]])] else []
  }

  /** `getById`: the id column is a UUID, which the database compares without regard to case. */
  function GetById(rows: map<string, Row>, id: string): Option<Record> {
    if ToLower(id) in rows then Some(ToRecord(rows[ToLower(id)])) else None
  }

  /** `lookup` on what the database returned for the unique ids. */
  function Lookup(ids: seq<string>, fetched: seq<Row>): seq<Record> {
    if Unique(ids) == [] then [] else Pick(Unique(ids), ById(fetched))
  }
}
