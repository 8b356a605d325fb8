/** Rows and stored objects agree on every run, and lookup does not depend on the order in
    which the database answers. */
module MediaSafety {
  import opened Options
  import opened Text
  import opened MediaMachine

  /** An allowed type always gets an extension, of a dot and at most eight characters. */
  lemma ExtensionShape(name: string, mime: string)
    requires mime in ALLOWED_MIME
    ensures PlainExtension(ExtensionFor(name, mime))
  {
    DefaultsPlain();
  }

  lemma DefaultsPlain()
    ensures PlainExtension(".jpg") && PlainExtension(".png") && PlainExtension(".webp")
    ensures PlainExtension(".gif") && PlainExtension(".pdf")
  {
  }

  /** A name's own extension is kept, in lower case, whenever it is plain. */
  lemma ExtensionKept(stem: string, ext: string, mime: string)
    requires PlainExtension(ToLower(ext))
    ensures ExtensionFor(stem + ext, mime) == ToLower(ext)
  {
    var name := stem + ext;
    var dot := LastIndexOf(name, '.');
    assert name[|stem|] == ext[0] && Lower(ext[0]) == '.' && ext[0] == '.';
    forall i | |stem| < i < |name| ensures name[i] != '.' { assert ToLower(ext)[i - |stem|] == Lower(name[i]); }
    assert dot == |stem| by { assert '.' in name; }
    assert name[dot..] == ext;
  }

  const DEFAULT_EXTENSIONS: map<string, string> := map[
    "image/jpeg" := ".jpg", "image/png" := ".png", "image/webp" := ".webp", "image/gif" := ".gif",
    "application/pdf" := ".pdf"]

  /** A name without a dot gets the extension of its type. */
  lemma ExtensionByType(name: string, mime: string)
    requires '.' !in name && mime in ALLOWED_MIME
    ensures mime in DEFAULT_EXTENSIONS && ExtensionFor(name, mime) == DEFAULT_EXTENSIONS[mime]
  {
    ExtensionOfType(mime);
  }

  lemma {:induction false} LastIndexAt(s: string, c: char, i: nat)
    requires i < |s| && s[i] == c && c !in s[i + 1..]
    ensures LastIndexOf(s, c) == i
  {
    var n := |s| - 1;
    if i < n {
      assert s[n] == s[i + 1..][n - i - 1];
      assert s[..n][i + 1..] == s[i + 1..][..n - i - 1];
      LastIndexAt(s[..n], c, i);
    }
  }

  predicate LetterOrDigit(c: char) {
    'a' <= c <= 'z' || 'A' <= c <= 'Z' || '0' <= c <= '9'
  }

  /** One to eight letters or digits. */
  predicate ShortPlain(ext: string) {
    1 <= |ext| <= 8 && forall i :: 0 <= i < |ext| ==> LetterOrDigit(ext[i])
  }

  lemma PlainExactly(ext: string)
    ensures PlainExtension(ToLower("." + ext)) <==> ShortPlain(ext)
    ensures ToLower("." + ext) == "." + ToLower(ext)
  {
    var low := ToLower("." + ext);
    forall i | 0 <= i < |ext| ensures low[i + 1] == Lower(ext[i]) {}
    if PlainExtension(low) {
      forall i | 0 <= i < |ext| ensures LetterOrDigit(ext[i]) { assert low[i + 1] == Lower(ext[i]); }
    }
  }

  /** What follows the last dot of a name is kept in lower case if it is one to eight letters or
      digits, and otherwise the extension of the type stands in for it. */
  lemma ExtensionExactly(stem: string, ext: string, mime: string)
    requires '.' !in ext && mime in ALLOWED_MIME
    ensures mime in DEFAULT_EXTENSIONS
    ensures ExtensionFor(stem + "." + ext, mime)
         == if ShortPlain(ext) then "." + ToLower(ext) else DEFAULT_EXTENSIONS[mime]
  {
    NameExtensionOf(stem, ext);
    PlainExactly(ext);
    ExtensionOfType(mime);
  }

  lemma NameExtensionOf(stem: string, ext: string)
    requires '.' !in ext
    ensures NameExtension(stem + "." + ext) == ToLower("." + ext)
  {
    var name := stem + "." + ext;
    assert name[|stem|] == '.' && name[|stem|..] == "." + ext && name[|stem| + 1..] == ext;
    LastIndexAt(name, '.', |stem|);
  }

  lemma ExtensionOfType(mime: string)
    requires mime in ALLOWED_MIME
    ensures mime in DEFAULT_EXTENSIONS && TypeExtension(mime) == DEFAULT_EXTENSIONS[mime]
  {
  }

  /** The five types that have an extension are exactly the allowed ones. */
  lemma AllowedExactly(mime: string)
    ensures mime in ALLOWED_MIME <==> mime in DEFAULT_EXTENSIONS
  {
  }

  /** The base name is what follows the last separator. */
  lemma {:induction false} BaseNameIsLastSegment(dir: string, base: string)
    requires '/' !in base && '\\' !in base
    requires dir == "" || dir[|dir| - 1] in {'/', '\\'}
    ensures BaseName(dir + base) == base
  {
    if base == "" {
      assert dir + base == dir;
    } else {
      var n := |base| - 1;
      assert base == base[..n] + [base[n]];
      assert (dir + base)[..|dir + base| - 1] == dir + base[..n];
      BaseNameIsLastSegment(dir, base[..n]);
    }
  }

  /** The stored name is the last segment, or its first 255 characters. */
  lemma TruncateNameExactly(dir: string, base: string)
    requires '/' !in base && '\\' !in base
    requires dir == "" || dir[|dir| - 1] in {'/', '\\'}
    ensures TruncateName(dir + base) <= base
    ensures |TruncateName(dir + base)| == if |base| <= 255 then |base| else 255
  {
    BaseNameIsLastSegment(dir, base);
  }

  /** What the database keeps of an upload. */
  ghost predicate RowOk(row: Row) {
    && |row.id| == 36 && ToLower(row.id) == row.id && row.contentType in ALLOWED_MIME
    && (exists ext :: PlainExtension(ext) && row.storageKey == StorageKey(row.id, ext))
    && |row.originalName| <= 255 && '/' !in row.originalName && '\\' !in row.originalName
    && (exists n: nat :: row.size == Decimal(n))
  }

  ghost predicate InStorage(s: State, row: Row) {
    row.storageKey in s.storage && s.storage[row.storageKey].contentType == row.contentType
    && row.size == Decimal(s.storage[row.storageKey].size)
  }

  ghost predicate Consistent(s: State) {
    && (forall id :: id in s.rows ==> s.rows[id].id == id && RowOk(s.rows[id]) && InStorage(s, s.rows[id]))
    && (forall u :: u in s.uploads && s.uploads[u].Putting? ==>
          RowOk(s.uploads[u].row) && InStorage(s, s.uploads[u].row))
  }

  /** Ids have one length, so the id can be read off the key. */
  lemma KeysDistinct(a: Row, b: Row)
    requires RowOk(a) && RowOk(b) && a.storageKey == b.storageKey
    ensures a.id == b.id
  {
    var e :| PlainExtension(e) && a.storageKey == StorageKey(a.id, e);
    var f :| PlainExtension(f) && b.storageKey == StorageKey(b.id, f);
    assert StorageKey(a.id, e)[8..44] == a.id && StorageKey(b.id, f)[8..44] == b.id;
  }

  lemma NewRow(input: Input, id: string)
    requires |id| == 36 && ToLower(id) == id && input.mimetype in ALLOWED_MIME
    ensures RowOk(RowFor(input, id))
  {
    ExtensionShape(input.originalName, input.mimetype);
    var row := RowFor(input, id);
    assert row.storageKey == StorageKey(row.id, ExtensionFor(input.originalName, input.mimetype));
    assert row.size == Decimal(input.size);
  }

  lemma ConsistentStep(s: State, e: Event)
    requires Consistent(s)
    ensures Consistent(Apply(s, e))
  {
    match e
    case Put(u, input, id, maxBytes) => PutStep(s, u, input, id, maxBytes);
    case Save(u) =>
  }

  lemma PutStep(s: State, u: nat, input: Input, id: string, maxBytes: nat)
    requires Consistent(s)
    ensures Consistent(ApplyPut(s, u, input, id, maxBytes))
  {
    if u !in s.uploads && FreshId(s, id) && input.size <= maxBytes && input.mimetype in ALLOWED_MIME {
      NewRow(input, id);
      forall other: Row | RowOk(other) && other.id != id ensures other.storageKey != RowFor(input, id).storageKey {
        if other.storageKey == RowFor(input, id).storageKey { KeysDistinct(other, RowFor(input, id)); }
      }
    }
  }

  lemma {:induction false} AlwaysConsistent(es: seq<Event>)
    ensures Consistent(Exec(es))
  {
    if es != [] {
      AlwaysConsistent(es[..|es| - 1]);
      ConsistentStep(Exec(es[..|es| - 1]), es[|es| - 1]);
    }
  }

  /** On every interleaving of uploads, with crashes: the object of every row is in storage
      with the row's type and size, and different rows have different keys, each of them the
      id and a plain extension. */
  lemma MediaConsistent(es: seq<Event>)
    ensures var s := Exec(es);
      && (forall id :: id in s.rows ==> s.rows[id].id == id && RowOk(s.rows[id]) && InStorage(s, s.rows[id]))
      && (forall a, b :: a in s.rows && b in s.rows && a != b ==> s.rows[a].storageKey != s.rows[b].storageKey)
  {
    AlwaysConsistent(es);
    var s := Exec(es);
    forall a, b | a in s.rows && b in s.rows && a != b ensures s.rows[a].storageKey != s.rows[b].storageKey {
      if s.rows[a].storageKey == s.rows[b].storageKey { KeysDistinct(s.rows[a], s.rows[b]); }
    }
  }

  /** The row of the id and the object under its key are in both states, and the same. */
  predicate Keeps(s: State, t: State, id: string)
    requires id in s.rows
  {
    && id in t.rows && t.rows[id] == s.rows[id]
    && s.rows[id].storageKey in s.storage && s.rows[id].storageKey in t.storage
    && t.storage[s.rows[id].storageKey] == s.storage[s.rows[id].storageKey]
  }

  /** Once saved, a row and its object are never changed or lost. */
  lemma {:induction false} RowsKept(es: seq<Event>, more: seq<Event>, id: string)
    requires id in Exec(es).rows
    ensures Keeps(Exec(es), Exec(es + more), id)
    decreases |more|
  {
    AlwaysConsistent(es);
    if more == [] {
      assert es + more == es;
    } else {
      var n := |more| - 1;
      RowsKept(es, more[..n], id);
      AlwaysConsistent(es + more[..n]);
      IdsUnused(es + more[..n]);
      RowKept(Exec(es + more[..n]), more[n], id);
      ExecMore(es, more);
    }
  }

  lemma RowKept(s: State, e: Event, id: string)
    requires Consistent(s) && IdsApart(s) && id in s.rows
    ensures Keeps(s, Apply(s, e), id)
  {
    match e
    case Put(u, input, other, maxBytes) => PutKeepsRow(s, u, input, other, maxBytes, id);
    case Save(u) =>
  }

  lemma PutKeepsRow(s: State, u: nat, input: Input, other: string, maxBytes: nat, id: string)
    requires Consistent(s) && id in s.rows
    ensures Keeps(s, ApplyPut(s, u, input, other, maxBytes), id)
  {
    if FreshId(s, other) && input.mimetype in ALLOWED_MIME {
      NewRow(input, other);
      OtherKey(s.rows[id], RowFor(input, other));
    }
  }

  lemma OtherKey(a: Row, b: Row)
    requires RowOk(a) && RowOk(b) && a.id != b.id
    ensures a.storageKey != b.storageKey
  {
    if a.storageKey == b.storageKey { KeysDistinct(a, b); }
  }

  /** An upload that has yet to save has an id of its own. */
  ghost predicate IdsApart(s: State) {
    && (forall u :: u in s.uploads && s.uploads[u].Putting? ==> s.uploads[u].row.id !in s.rows)
    && (forall u, v :: u in s.uploads && v in s.uploads && u != v && s.uploads[u].Putting? && s.uploads[v].Putting?
          ==> s.uploads[u].row.id != s.uploads[v].row.id)
  }

  lemma {:induction false} IdsUnused(es: seq<Event>)
    ensures IdsApart(Exec(es))
  {
    if es != [] { IdsUnused(es[..|es| - 1]); }
  }

  // ---------- lookup ----------

  /** `fetched` lists the stored rows of the given ids, in any order. The id column is a UUID:
      an id matches in any case, and the row comes back with its id in lower case. */
  ghost predicate Answers(fetched: seq<Row>, rows: map<string, Row>, ids: seq<string>) {
    && (forall i :: 0 <= i < |fetched| ==>
          && fetched[i].id in rows && rows[fetched[i].id] == fetched[i]
          && exists id :: id in ids && ToLower(id) == fetched[i].id)
    && (forall id :: id in ids && ToLower(id) in rows ==> rows[ToLower(id)] in fetched)
  }

  /** How the table holds its rows. */
  ghost predicate Stored(rows: map<string, Row>) {
    forall id :: id in rows ==> id != "" && rows[id].id == id && ToLower(id) == id
  }

  lemma AlwaysStored(es: seq<Event>)
    ensures Stored(Exec(es).rows)
  {
    AlwaysConsistent(es);
    forall id | id in Exec(es).rows ensures id != "" && ToLower(id) == id { assert RowOk(Exec(es).rows[id]); }
  }

  lemma {:induction false} ByIdHolds(rows: seq<Row>, id: string)
    ensures id in ById(rows) ==> ById(rows)[id] in rows && ById(rows)[id].id == id
    ensures id !in ById(rows) ==> forall i :: 0 <= i < |rows| ==> rows[i].id != id
  {
    if rows != [] {
      ByIdHolds(rows[..|rows| - 1], id);
      assert rows == rows[..|rows| - 1] + [rows[|rows| - 1]];
    }
  }

  lemma {:induction false} PickAgrees(ids: seq<string>, a: map<string, Row>, b: map<string, Row>)
    requires forall id :: id in ids ==> (id in a <==> id in b) && (id in a ==> a[id] == b[id])
    ensures Pick(ids, a) == Pick(ids, b)
  {
    if ids != [] { PickAgrees(ids[..|ids| - 1], a, b); }
  }

  /** Whatever order the database answers in, and in whatever case the ids are asked for,
      `lookup` is the rows stored under exactly the deduplicated ids, in the order of the ids. */
  lemma LookupIgnoresRowOrder(ids: seq<string>, rows: map<string, Row>, fetched: seq<Row>)
    requires Stored(rows) && Answers(fetched, rows, Unique(ids))
    ensures Lookup(ids, fetched) == Pick(Unique(ids), rows)
  {
    forall id | id in Unique(ids)
      ensures (id in ById(fetched) <==> id in rows) && (id in rows ==> ById(fetched)[id] == rows[id])
    {
      ByIdHolds(fetched, id);
    }
    PickAgrees(Unique(ids), ById(fetched), rows);
  }

  /** The positions in the list of what `Pick` reports. */
  lemma {:induction false} PickPositions(ids: seq<string>, rows: map<string, Row>) returns (at: seq<nat>)
    ensures |at| == |Pick(ids, rows)|
    ensures forall k :: 0 <= k < |at| ==>
      at[k] < |ids| && ids[at[k]] in rows && Pick(ids, rows)[k] == ToRecord(rows[ids[at[k]]])
    ensures forall j, k :: 0 <= j < k < |at| ==> at[j] < at[k]
  {
    at := [];
    if ids != [] {
      var n := |ids| - 1;
      var before := PickPositions(ids[..n], rows);
      at := before;
      if ids[n] in rows { at := before + [n]; }
    }
  }

  /** Whatever order the database answers in: every record is that of a listed, stored id, the
      records stand in the order in which their ids first occur in the list, so none twice, and
      no stored id of the list is missing. */
  lemma LookupInOrder(ids: seq<string>, rows: map<string, Row>, fetched: seq<Row>)
    requires Stored(rows) && Answers(fetched, rows, Unique(ids))
    ensures var out := Lookup(ids, fetched);
      && (forall i :: 0 <= i < |out| ==>
            out[i].id in ids && out[i].id in rows && out[i] == ToRecord(rows[out[i].id]))
      && (forall i, j :: 0 <= i < j < |out| ==> FirstIndex(ids, out[i].id) < FirstIndex(ids, out[j].id))
      && (forall id :: id in ids && id in rows ==> ToRecord(rows[id]) in out)
  {
    LookupIgnoresRowOrder(ids, rows, fetched);
    UniqueIsFirstOccurrences(ids);
    var at := PickPositions(Unique(ids), rows);
    var out := Lookup(ids, fetched);
    forall i | 0 <= i < |out| ensures out[i].id == Unique(ids)[at[i]] {
      assert rows[Unique(ids)[at[i]]].id == Unique(ids)[at[i]];
    }
    forall id | id in ids && id in rows ensures ToRecord(rows[id]) in out { ReportedExactly(ids, rows, id); }
  }

  /** Exactly when `lookup` reports every stored row it was asked for: when each id that names a
      row, in whatever case, also stands in the list in lower case. */
  lemma LookupCompleteExactly(ids: seq<string>, rows: map<string, Row>, fetched: seq<Row>)
    requires Stored(rows) && Answers(fetched, rows, Unique(ids))
    ensures (forall id :: id in ids && ToLower(id) in rows ==> ToRecord(rows[ToLower(id)]) in Lookup(ids, fetched))
       <==> (forall id :: id in ids && ToLower(id) in rows ==> ToLower(id) in ids)
  {
    LookupIgnoresRowOrder(ids, rows, fetched);
    UniqueIsFirstOccurrences(ids);
    forall id | id in ids && ToLower(id) in rows
      ensures ToRecord(rows[ToLower(id)]) in Lookup(ids, fetched) <==> ToLower(id) in ids
    {
      ReportedExactly(ids, rows, ToLower(id));
    }
  }

  lemma ReportedExactly(ids: seq<string>, rows: map<string, Row>, id: string)
    requires Stored(rows) && id in rows
    ensures ToRecord(rows[id]) in Pick(Unique(ids), rows) <==> id in ids
  {
    UniqueIsFirstOccurrences(ids);
    PickedOf(Unique(ids), rows, ToRecord(rows[id]));
    if id in ids { assert id in Unique(ids); }
    forall other | other in rows && ToRecord(rows[other]) == ToRecord(rows[id]) ensures other == id {
      assert rows[other].id == rows[id].id;
    }
  }

  /** A row asked for only in another case is found by `getById` and dropped by `lookup`. */
  lemma OtherCaseIsDropped(id: string, rows: map<string, Row>)
    requires Stored(rows) && ToLower(id) in rows && ToLower(id) != id
    ensures Answers([rows[ToLower(id)]], rows, Unique([id]))
    ensures GetById(rows, id).Some? && Lookup([id], [rows[ToLower(id)]]) == []
  {
    var row := rows[ToLower(id)];
    assert [id][..0] == [] && [row][..0] == [];
    assert |ToLower(id)| == |id|;
    assert Unique([id]) == [id];
    assert id !in ById([row]);
    assert Pick([], ById([row])) == [];
    assert Pick([id], ById([row])) == Pick([id][..0], ById([row])) + [];
  }

  const UPPER_CASE_ID := "3F2504E0-4F89-41D3-9A0C-0305E82C3301"

  /** Such an id, which a UUID validator accepts. */
  lemma UpperCaseIdIsDropped(rows: map<string, Row>)
    requires Stored(rows) && ToLower(UPPER_CASE_ID) in rows
    ensures GetById(rows, UPPER_CASE_ID).Some?
    ensures Lookup([UPPER_CASE_ID], [rows[ToLower(UPPER_CASE_ID)]]) == []
  {
    assert ToLower(UPPER_CASE_ID)[1] == Lower('F') == 'f';
    OtherCaseIsDropped(UPPER_CASE_ID, rows);
  }

  function FirstIndex(ids: seq<string>, id: string): nat
    requires id in ids
  {
    if ids[0] == id then 0 else 1 + FirstIndex(ids[1..], id)
  }

  lemma {:induction false} FirstIndexAt(ids: seq<string>, id: string, i: nat)
    requires i < |ids| && ids[i] == id && id !in ids[..i]
    ensures FirstIndex(ids, id) == i
  {
    if i > 0 {
      assert ids[0] == ids[..i][0];
      assert ids[1..][..i - 1] == ids[..i][1..];
      FirstIndexAt(ids[1..], id, i - 1);
    }
  }

  lemma {:induction false} FirstIndexInPrefix(ids: seq<string>, n: nat, id: string)
    requires n <= |ids| && id in ids[..n]
    ensures FirstIndex(ids, id) == FirstIndex(ids[..n], id) < n
  {
    assert ids[0] == ids[..n][0];
    if ids[0] != id {
      assert ids[1..][..n - 1] == ids[..n][1..];
      FirstIndexInPrefix(ids[1..], n - 1, id);
    }
  }

  /** Deduplication keeps exactly the non-empty ids, each once, ordered by where each first
      occurs. */
  lemma {:induction false} UniqueIsFirstOccurrences(ids: seq<string>)
    ensures forall id :: id in Unique(ids) <==> id in ids && id != ""
    ensures forall i, j :: 0 <= i < j < |Unique(ids)| ==>
      && Unique(ids)[i] in ids && Unique(ids)[j] in ids
      && FirstIndex(ids, Unique(ids)[i]) < FirstIndex(ids, Unique(ids)[j])
  {
    if ids != [] {
      var n := |ids| - 1;
      UniqueIsFirstOccurrences(ids[..n]);
      assert ids == ids[..n] + [ids[n]];
      var u, v := Unique(ids[..n]), Unique(ids);
      forall id | id in ids[..n] ensures FirstIndex(ids, id) == FirstIndex(ids[..n], id) < n {
        FirstIndexInPrefix(ids, n, id);
      }
      if ids[n] != "" && ids[n] !in ids[..n] { FirstIndexAt(ids, ids[n], n); }
      forall i | 0 <= i < |u| ensures u[i] in ids[..n] && v[i] == u[i] {}
    }
  }

  lemma {:induction false} PickedOf(ids: seq<string>, rows: map<string, Row>, r: Record)
    ensures r in Pick(ids, rows) <==> exists id :: id in ids && id in rows && r == ToRecord(rows[id])
  {
    if ids != [] {
      var n := |ids| - 1;
      PickedOf(ids[..n], rows, r);
      assert ids == ids[..n] + [ids[n]];
    }
  }

  /** The upload is saved, or has put its object and will save this row. */
  predicate Held(s: State, u: nat, row: Row) {
    (u in s.uploads && s.uploads[u] == Putting(row)) || (row.id in s.rows && s.rows[row.id] == row)
  }

  lemma HeldKept(s: State, e: Event, u: nat, row: Row)
    requires IdsApart(s) && Held(s, u, row)
    ensures Held(Apply(s, e), u, row)
  {
    if e.Save? && e.upload in s.uploads && s.uploads[e.upload].Putting? {
      assert s.uploads[e.upload].row.id !in s.rows;
    }
  }

  lemma HeldSaves(s: State, u: nat, row: Row)
    requires IdsApart(s) && Held(s, u, row)
    ensures row.id in ApplySave(s, u).rows && ApplySave(s, u).rows[row.id] == row
  {
  }

  lemma {:induction false} HeldStays(es: seq<Event>, more: seq<Event>, u: nat, row: Row)
    requires Held(Exec(es), u, row)
    ensures Held(Exec(es + more), u, row)
    decreases |more|
  {
    if more == [] {
      assert es + more == es;
    } else {
      var n := |more| - 1;
      HeldStays(es, more[..n], u, row);
      IdsUnused(es + more[..n]);
      HeldKept(Exec(es + more[..n]), more[n], u, row);
      ExecMore(es, more);
    }
  }

  /** What was uploaded is what lookup reports - type, size and base name - whatever else
      happens between the two steps of the upload and after them, for every list with the id. */
  lemma UploadLooksUp(es: seq<Event>, u: nat, input: Input, id: string, maxBytes: nat,
                      mid: seq<Event>, more: seq<Event>, ids: seq<string>, fetched: seq<Row>)
    requires u !in Exec(es).uploads && FreshId(Exec(es), id) && input.size <= maxBytes && input.mimetype in ALLOWED_MIME
    requires id in ids
    requires Answers(fetched, Exec(es + [Put(u, input, id, maxBytes)] + mid + [Save(u)] + more).rows, Unique(ids))
    ensures Record(id, input.mimetype, input.size, TruncateName(input.originalName)) in Lookup(ids, fetched)
  {
    var row := RowFor(input, id);
    UploadSaves(es, u, input, id, maxBytes, mid);
    var saved := es + [Put(u, input, id, maxBytes)] + mid + [Save(u)];
    RowsKept(saved, more, id);
    AlwaysStored(saved + more);
    LookupIgnoresRowOrder(ids, Exec(saved + more).rows, fetched);
    ReportedExactly(ids, Exec(saved + more).rows, id);
    NumberOfDecimal(input.size);
    assert ToRecord(row) == Record(id, input.mimetype, input.size, TruncateName(input.originalName));
  }

  lemma UploadSaves(es: seq<Event>, u: nat, input: Input, id: string, maxBytes: nat, mid: seq<Event>)
    requires u !in Exec(es).uploads && FreshId(Exec(es), id) && input.size <= maxBytes && input.mimetype in ALLOWED_MIME
    ensures var rows := Exec(es + [Put(u, input, id, maxBytes)] + mid + [Save(u)]).rows;
      id in rows && rows[id] == RowFor(input, id)
  {
    var put := es + [Put(u, input, id, maxBytes)];
    ExecSnoc(es, Put(u, input, id, maxBytes));
    HeldStays(put, mid, u, RowFor(input, id));
    IdsUnused(put + mid);
    HeldSaves(Exec(put + mid), u, RowFor(input, id));
    ExecSnoc(put + mid, Save(u));
  }

  /** And `getById` reports the same, on every continuation and for the id in any case. */
  lemma UploadGetsById(es: seq<Event>, u: nat, input: Input, id: string, maxBytes: nat, mid: seq<Event>,
                       more: seq<Event>, asked: string)
    requires u !in Exec(es).uploads && FreshId(Exec(es), id) && input.size <= maxBytes && input.mimetype in ALLOWED_MIME
    requires ToLower(asked) == id
    ensures GetById(Exec(es + [Put(u, input, id, maxBytes)] + mid + [Save(u)] + more).rows, asked)
         == Some(Record(id, input.mimetype, input.size, TruncateName(input.originalName)))
  {
    UploadSaves(es, u, input, id, maxBytes, mid);
    RowsKept(es + [Put(u, input, id, maxBytes)] + mid + [Save(u)], more, id);
    NumberOfDecimal(input.size);
  }
}
