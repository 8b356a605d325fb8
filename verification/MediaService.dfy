/** The media service over its storage and its table, updated in place; each step is proved
    to be the step of the media machine. */
module MediaService {
  import opened Options
  import opened Text
  import opened MediaMachine
  import opened MediaSafety

  class MediaService {
    const maxBytes: nat
    var storage: map<string, Object>
    var rows: map<string, Row>
    var uploads: map<nat, Upload>

    ghost function View(): State
      reads this
    {
      State(storage, rows, uploads)
    }

    constructor (maxBytes: nat)
      ensures View() == Exec([]) && this.maxBytes == maxBytes
    {
      this.maxBytes, storage, rows, uploads := maxBytes, map[], map[], map[];
    }

    /** Validates the upload and puts its object. */
    method Put(u: nat, input: Input, id: string)
      requires u !in uploads && FreshId(View(), id)
      modifies this
      ensures View() == Apply(old(View()), Event.Put(u, input, id, maxBytes))
    {
      if input.size > maxBytes || input.mimetype !in ALLOWED_MIME {
        uploads := uploads[u := Invalid];
        return;
      }
      var key := "uploads/" + id + ExtensionFor(input.originalName, input.mimetype);
      storage := storage[key := Object(input.mimetype, input.size)];
      var row := Row(id, key, input.mimetype, Decimal(input.size), TruncateName(input.originalName));
      uploads := uploads[u := Putting(row)];
    }

    method Save(u: nat)
      modifies this
      ensures View() == Apply(old(View()), Event.Save(u))
    {
      if u in uploads && uploads[u].Putting? {
        var row := uploads[u].row;
        rows := rows[row.id := row];
        uploads := uploads[u := Uploaded(row.id)];
      }
    }

    /** `upload` run to its end: a refusal (400) leaves storage and table alone, a success
        (201) adds one object and one row and changes no other row. */
    method Upload(u: nat, input: Input, id: string) returns (status: nat)
      requires u !in uploads && FreshId(View(), id)
      modifies this
      ensures status == if input.size > maxBytes || input.mimetype !in ALLOWED_MIME then 400 else 201
      ensures status == 201 ==>
        && rows.Keys == old(rows).Keys + {id} && (forall k :: k in old(rows) ==> rows[k] == old(rows)[k])
        && rows[id].storageKey in storage && storage[rows[id].storageKey] == Object(input.mimetype, input.size)
      ensures status == 400 ==> rows == old(rows) && storage == old(storage)
    {
      Put(u, input, id);
      Save(u);
      status := if uploads[u].Invalid? then 400 else 201;
    }

    /** `openContent`: an unknown id is a 404, and so is a missing file - which never happens
        in a consistent state, and every run is consistent. The database matches the id in any
        case. */
    method OpenContent(id: string) returns (status: nat, content: Option<Object>)
      ensures status == if ToLower(id) in rows && rows[ToLower(id)].storageKey in storage then 200 else 404
      ensures content == if status == 200 then Some(storage[rows[ToLower(id)].storageKey]) else None
      ensures Consistent(View()) ==> (status == 200 <==> ToLower(id) in rows)
      ensures Consistent(View()) && status == 200 ==> content.value.contentType == rows[ToLower(id)].contentType
    {
      content := None;
      var key := ToLower(id);
      if key in rows && rows[key].storageKey in storage {
        content := Some(storage[rows[key].storageKey]);
      }
      status := if content.Some? then 200 else 404;
    }
  }
}
