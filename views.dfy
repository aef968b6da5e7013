/** What the view functions share: their responses, `JsonResponse` with an
    encoder, and the write-path step that replaces a natural key in the request
    body by the related row or answers 400. */
module Views {
  import opened Wrappers
  import opened Dicts
  import opened Json
  import opened Store

  /** An exception a view does not catch, which the server turns into a 500. */
  datatype Fault =
    | KeyError(key: string)            // the body lacks a key the view reads
    | DoesNotExist                     // an unguarded get() found no row
    | MultipleObjectsReturned          // a get() found several rows
    | Unserializable(error: Error)     // the encoder raised while writing the body

  datatype Response = Response(status: nat, body: Json) | ServerError(fault: Fault)

  /** `JsonResponse(v, encoder=enc)`: status 200 with `v` written by `enc`. */
  function Render(enc: Encoder, v: Value): Response {
    match Serialize(enc, v)
    case Ok(j) => Response(200, j)
    case Err(e) => ServerError(Unserializable(e))
  }

  /** `JsonResponse({"message": message}, status=400)`. */
  function BadRequest(message: string): Response {
    Response(400, JObject([("message", JStr(message))]))
  }

  /** `JsonResponse({"delete": "successful"})`. */
  function Deleted(): Response {
    Response(200, JObject([("delete", JStr("successful"))]))
  }

  /** `JsonResponse({key: <query set>}, encoder=enc)`, as the list views answer. */
  function ListResponse(enc: Encoder, key: string, rows: seq<Value>): Response {
    Render(enc, Dict([(key, QuerySet(rows))]))
  }

  /** A list view answers 200 with one key whose value is the array of the
      rows, each written by the encoder, in query order; no rows give `[]`. */
  lemma ListResponseShape(enc: Encoder, key: string, rows: seq<Value>)
    ensures ListResponse(enc, key, rows).Response? <==>
      forall i :: 0 <= i < |rows| ==> Serialize(enc, rows[i]).Ok?
    ensures ListResponse(enc, key, rows).Response? ==>
      var resp := ListResponse(enc, key, rows);
      && resp.status == 200
      && resp.body.JObject? && |resp.body.members| == 1 && resp.body.members[0].0 == key
      && resp.body.members[0].1.JArray?
      && |resp.body.members[0].1.items| == |rows|
      && forall i :: 0 <= i < |rows| ==> resp.body.members[0].1.items[i] == Serialize(enc, rows[i]).value
    ensures rows == [] ==> ListResponse(enc, key, rows) == Response(200, JObject([(key, JArray([]))]))
  {
    var entries := [(key, QuerySet(rows))];
    SerializeQuerySet(enc, rows);
    EntriesBelow(entries);
    var ms := SerializeMembers(enc, entries, Depth(Dict(entries)));
    assert Serialize(enc, Dict(entries)) == if ms.Ok? then Ok(JObject(ms.value)) else Err(ms.error);
  }

  /** `get(id=id)` then `JsonResponse(row, encoder=enc)`: the show views and
      the answer after an update. The `get` is not guarded. */
  function Detail(t: Table, id: nat, enc: Encoder): (r: Response)
    ensures Get(t, "id", Int(id)).Found? ==> r == Render(enc, Get(t, "id", Int(id)).row)
    ensures Get(t, "id", Int(id)).NoMatch? <==> r == ServerError(DoesNotExist)
    ensures Get(t, "id", Int(id)).ManyMatches? <==> r == ServerError(MultipleObjectsReturned)
  {
    match Get(t, "id", Int(id))
    case Found(row) => Render(enc, row)
    case NoMatch => ServerError(DoesNotExist)
    case ManyMatches => ServerError(MultipleObjectsReturned)
  }

  /** What a show view answers for the row `get(id=id)` finds, in a table of
      the encoder's model: 200 with the JSON object of the dict the encoder's
      `default` builds, same keys in the same order and each value written in
      turn. It fails exactly when `default` raises or a value cannot be
      written. */
  lemma DetailShape(t: Table, id: nat, enc: Encoder)
    requires WellFormed(t) && t.kind == enc.model && Get(t, "id", Int(id)).Found?
    ensures var row := Get(t, "id", Int(id)).row;
      IsModel(enc, row) && row in t.rows && Holds(row, "id", Int(id))
    ensures var row := Get(t, "id", Int(id)).row;
      Detail(t, id, enc).Response? <==>
        Encode(enc, row).Ok? && forall i :: 0 <= i < |EntriesOf(enc, row)| ==> Serialize(enc, EntriesOf(enc, row)[i].1).Ok?
    ensures var row := Get(t, "id", Int(id)).row;
      Detail(t, id, enc).Response? ==>
        && Detail(t, id, enc).status == 200
        && Detail(t, id, enc).body.JObject?
        && Keys(Detail(t, id, enc).body.members) == Keys(EntriesOf(enc, row))
        && forall i :: 0 <= i < |EntriesOf(enc, row)| ==>
             Detail(t, id, enc).body.members[i] == (EntriesOf(enc, row)[i].0, Serialize(enc, EntriesOf(enc, row)[i].1).value)
  {
    var row := Get(t, "id", Int(id)).row;
    assert row in Filter(t.rows, "id", Int(id));
    SerializeInstance(enc, row);
  }

  /** The outcome of the natural-key step: the body to write, or the answer. */
  datatype Resolution = Resolved(content: Dict<Value>) | Stop(response: Response)

  /** `content[key] = T.objects.get(field=v)` inside
      `try ... except T.DoesNotExist: return 400 {"message": message}`. */
  function Attach(t: Table, field: string, v: Value, content: Dict<Value>, key: string, message: string)
    : (r: Resolution)
    ensures r == Stop(BadRequest(message)) <==> forall x :: x in t.rows ==> !Holds(x, field, v)
    ensures r == Stop(ServerError(MultipleObjectsReturned)) <==> |Filter(t.rows, field, v)| >= 2
    ensures r.Resolved? ==>
      && Get(t, field, v).Found?
      && Lookup(r.content, key) == Some(Get(t, field, v).row)
      && (forall j :: j != key ==> Lookup(r.content, j) == Lookup(content, j))
  {
    match Get(t, field, v)
    case Found(row) =>
      SetLookupAll(content, key, row);
      SetLookup(content, key, row, key);
      Resolved(Set(content, key, row))
    case NoMatch => Stop(BadRequest(message))
    case ManyMatches => Stop(ServerError(MultipleObjectsReturned))
  }

  /** The natural-key step of a write view. When the body has `key`, its value
      is looked up by `field` in `t`: the row found replaces it, no row answers
      400 with `message`. When the body lacks `key`, a required key raises
      `KeyError` and an optional one leaves the body as it is. */
  function Resolve(t: Table, field: string, content: Dict<Value>, key: string, message: string, required: bool)
    : (r: Resolution)
    ensures r == Stop(BadRequest(message)) <==>
      key in Keys(content) && forall x :: x in t.rows ==> !Holds(x, field, Lookup(content, key).value)
    ensures r == Stop(ServerError(KeyError(key))) <==> required && key !in Keys(content)
    ensures r.Resolved? && key !in Keys(content) ==> !required && r.content == content
    ensures r.Resolved? && key in Keys(content) ==>
      var row := Get(t, field, Lookup(content, key).value);
      && row.Found? && row.row in t.rows && Holds(row.row, field, Lookup(content, key).value)
      && Lookup(r.content, key) == Some(row.row)
    ensures r.Resolved? ==> forall j :: j != key ==> Lookup(r.content, j) == Lookup(content, j)
  {
    if key !in Keys(content) then
      if required then Stop(ServerError(KeyError(key))) else Resolved(content)
    else
      var r := Attach(t, field, Lookup(content, key).value, content, key, message);
      if r.Resolved? then
        var row := Get(t, field, Lookup(content, key).value).row;
        assert row in Filter(t.rows, field, Lookup(content, key).value);
        r
      else r
  }
}
