/** The database the views read and write, reduced to what the views rely on:
    one table of rows per model, looked up with `get(field=value)`, narrowed
    with `filter(field=value)`, grown with `create(**fields)`, patched with
    `filter(id=...).update(**fields)` and shrunk with `delete()`. A row is a
    model instance (`Value.Entity`) whose `"id"` attribute is its primary key;
    a foreign key holds the related row. */
module Store {
  import opened Wrappers
  import opened Dicts
  import opened Json

  /** One model's rows in query order, and the next primary key to hand out. */
  datatype Table = Table(kind: string, rows: seq<Value>, nextId: nat)

  /** What `Model.objects.get(...)` does: one row, `DoesNotExist` or
      `MultipleObjectsReturned`. */
  datatype GetResult = Found(row: Value) | NoMatch | ManyMatches

  /** The lookup `field=v` holds for `row`: the attribute is `v`, or it is a
      related row whose primary key is `v` (how a foreign key compares). */
  predicate Holds(row: Value, field: string, v: Value) {
    match GetAttr(row, field)
    case Ok(x) => x == v || (x.Entity? && Lookup(x.attrs, "id") == Some(v))
    case Err(_) => false
  }

  /** The primary key of a row, or -1 when it has none. */
  function Id(row: Value): int {
    match GetAttr(row, "id")
    case Ok(Int(n)) => n
    case _ => -1
  }

  /** Every row is an instance of the table's model with a primary key below
      the next one the database hands out. */
  predicate WellFormed(t: Table) {
    forall r :: r in t.rows ==> r.Entity? && r.kind == t.kind && 0 <= Id(r) < t.nextId
  }

  /** `filter(field=v)`: the rows for which the lookup holds, in query order. */
  function Filter(rows: seq<Value>, field: string, v: Value): (r: seq<Value>)
    ensures |r| <= |rows|
    ensures forall x :: x in r <==> x in rows && Holds(x, field, v)
  {
    if rows == [] then []
    else (if Holds(rows[0], field, v) then [rows[0]] else []) + Filter(rows[1..], field, v)
  }

  /** Filtering keeps query order: the matches of a concatenation are the
      matches of each part, one after the other. */
  lemma {:induction false} FilterAppend(a: seq<Value>, b: seq<Value>, field: string, v: Value)
    ensures Filter(a + b, field, v) == Filter(a, field, v) + Filter(b, field, v)
  {
    if a != [] {
      assert (a + b)[0] == a[0];
      assert (a + b)[1..] == a[1..] + b;
      FilterAppend(a[1..], b, field, v);
    } else {
      assert a + b == b;
    }
  }

  /** `get(field=v)`. */
  function Get(t: Table, field: string, v: Value): (r: GetResult)
    ensures r.NoMatch? <==> forall x :: x in t.rows ==> !Holds(x, field, v)
    ensures r.Found? ==> Filter(t.rows, field, v) == [r.row]
    ensures r.ManyMatches? ==> |Filter(t.rows, field, v)| >= 2
  {
    var m := Filter(t.rows, field, v);
    if |m| == 0 then NoMatch
    else
      assert m[0] in m;
      if |m| == 1 then Found(m[0]) else ManyMatches
  }

  /** The row `create(**content)` inserts: the values the database fills in
      itself (`auto`: defaults and timestamps), the new primary key, then the
      body's fields over them. */
  function NewRow(t: Table, content: Dict<Value>, auto: Dict<Value>, url: Option<string>): Value {
    Entity(t.kind, Update(Set(auto, "id", Int(t.nextId)), content), url)
  }

  /** `create(**content)`: the new row is appended and the key sequence moves on. */
  function Create(t: Table, content: Dict<Value>, auto: Dict<Value>, url: Option<string>): (r: Table)
    ensures r.kind == t.kind && r.nextId == t.nextId + 1
    ensures |r.rows| == |t.rows| + 1 && r.rows[..|t.rows|] == t.rows
  {
    Table(t.kind, t.rows + [NewRow(t, content, auto, url)], t.nextId + 1)
  }

  /** A row with the body's fields written over its attributes. */
  function Patch(row: Value, content: Dict<Value>): Value {
    match row
    case Entity(kind, attrs, url) => Entity(kind, Update(attrs, content), url)
    case _ => row
  }

  /** `filter(id=id).update(**content)`: every row with that key is patched;
      the others, their order and the key sequence are untouched. */
  function UpdateWhere(t: Table, id: nat, content: Dict<Value>): (r: Table)
    ensures r.kind == t.kind && r.nextId == t.nextId && |r.rows| == |t.rows|
  {
    t.(rows := PatchRows(t.rows, id, content))
  }

  /** The rows with key `id` patched, the others as they were. */
  function PatchRows(rows: seq<Value>, id: nat, content: Dict<Value>): (r: seq<Value>)
    ensures |r| == |rows|
    ensures forall i :: 0 <= i < |rows| ==>
      r[i] == if Holds(rows[i], "id", Int(id)) then Patch(rows[i], content) else rows[i]
  {
    if rows == [] then []
    else
      [if Holds(rows[0], "id", Int(id)) then Patch(rows[0], content) else rows[0]]
      + PatchRows(rows[1..], id, content)
  }

  /** Each of `rows` patched. */
  function PatchAll(rows: seq<Value>, content: Dict<Value>): (r: seq<Value>)
    ensures |r| == |rows|
  {
    if rows == [] then [] else [Patch(rows[0], content)] + PatchAll(rows[1..], content)
  }

  /** The rows for which the lookup does not hold, in query order. */
  function Without(rows: seq<Value>, field: string, v: Value): (r: seq<Value>)
    ensures |r| <= |rows|
    ensures forall x :: x in r <==> x in rows && !Holds(x, field, v)
  {
    if rows == [] then []
    else (if Holds(rows[0], field, v) then [] else [rows[0]]) + Without(rows[1..], field, v)
  }

  /** `delete()` of the row with key `id`. */
  function DeleteWhere(t: Table, id: nat): (r: Table)
    ensures r.kind == t.kind && r.nextId == t.nextId
  {
    t.(rows := Without(t.rows, "id", Int(id)))
  }

  // ----- What the table operations promise -----

  /** `getattr` on a row reads its attribute list. */
  lemma GetAttrLookup(o: Value, name: string)
    requires o.Entity?
    ensures Lookup(o.attrs, name).Some? ==> GetAttr(o, name) == Ok(Lookup(o.attrs, name).value)
  {
  }

  /** The created row's key is the one the database handed out, unless the
      body names an id itself. */
  lemma NewRowId(t: Table, content: Dict<Value>, auto: Dict<Value>, url: Option<string>)
    requires "id" !in Keys(content)
    ensures GetAttr(NewRow(t, content, auto, url), "id") == Ok(Int(t.nextId))
    ensures Id(NewRow(t, content, auto, url)) == t.nextId
  {
    var base := Set(auto, "id", Int(t.nextId));
    SetLookup(auto, "id", Int(t.nextId), "id");
    UpdateLookupOther(base, content, "id");
    GetAttrLookup(NewRow(t, content, auto, url), "id");
  }

  /** Every field of the body is stored on the created row with the body's
      value (the last one, when the body repeats a key). */
  lemma CreateStores(t: Table, content: Dict<Value>, auto: Dict<Value>, url: Option<string>, i: nat)
    requires i < |content| && LastOf(content, i)
    ensures GetAttr(NewRow(t, content, auto, url), content[i].0) == Ok(content[i].1)
  {
    UpdateLookupLast(Set(auto, "id", Int(t.nextId)), content, i);
    GetAttrLookup(NewRow(t, content, auto, url), content[i].0);
  }

  /** In a well-formed table, a created row (whose body names no id) is the
      one row `get(id=...)` then finds under its new key, and the table stays
      well-formed. */
  lemma CreateThenGet(t: Table, content: Dict<Value>, auto: Dict<Value>, url: Option<string>)
    requires WellFormed(t) && "id" !in Keys(content)
    ensures WellFormed(Create(t, content, auto, url))
    ensures Get(Create(t, content, auto, url), "id", Int(t.nextId)) == Found(NewRow(t, content, auto, url))
  {
    var row := NewRow(t, content, auto, url);
    NewRowId(t, content, auto, url);
    forall r | r in t.rows ensures !Holds(r, "id", Int(t.nextId)) {
      KeyBelow(r, t.nextId);
    }
    FilterNone(t.rows, "id", Int(t.nextId));
    assert Holds(row, "id", Int(t.nextId));
    assert Filter([row], "id", Int(t.nextId)) == [row];
    FilterAppend(t.rows, [row], "id", Int(t.nextId));
  }

  lemma KeyBelow(r: Value, n: nat)
    requires 0 <= Id(r) < n
    ensures !Holds(r, "id", Int(n))
  {
  }

  lemma FilterNone(rows: seq<Value>, field: string, v: Value)
    requires forall r :: r in rows ==> !Holds(r, field, v)
    ensures Filter(rows, field, v) == []
  {
  }

  /** Patching with a body that names no id keeps the row's key and model. */
  lemma PatchKeepsId(row: Value, content: Dict<Value>, id: nat)
    requires "id" !in Keys(content)
    ensures Holds(Patch(row, content), "id", Int(id)) == Holds(row, "id", Int(id))
    ensures Id(Patch(row, content)) == Id(row)
    ensures row.Entity? ==> Patch(row, content).Entity? && Patch(row, content).kind == row.kind
  {
    if row.Entity? {
      UpdateLookupOther(row.attrs, content, "id");
      GetAttrLookup(row, "id");
      GetAttrLookup(Patch(row, content), "id");
    }
  }

  /** Updating a key no row has leaves the table as it was. */
  lemma UpdateMissing(t: Table, id: nat, content: Dict<Value>)
    requires forall r :: r in t.rows ==> !Holds(r, "id", Int(id))
    ensures UpdateWhere(t, id, content) == t
  {
    var u := UpdateWhere(t, id, content);
    forall i | 0 <= i < |t.rows| ensures u.rows[i] == t.rows[i] {
      assert t.rows[i] in t.rows;
    }
  }

  /** The rows `update` leaves: the patched rows are exactly the ones the key
      selects. */
  lemma {:induction false} FilterUpdated(rows: seq<Value>, id: nat, content: Dict<Value>)
    requires "id" !in Keys(content)
    ensures Filter(PatchRows(rows, id, content), "id", Int(id))
      == PatchAll(Filter(rows, "id", Int(id)), content)
  {
    if rows != [] {
      FilterUpdated(rows[1..], id, content);
      PatchKeepsId(rows[0], content, id);
      var u := PatchRows(rows, id, content);
      assert u[1..] == PatchRows(rows[1..], id, content);
      assert u == [u[0]] + u[1..];
      if Holds(rows[0], "id", Int(id)) {
        assert u[0] == Patch(rows[0], content);
        var m := Filter(rows, "id", Int(id));
        assert m == [rows[0]] + Filter(rows[1..], "id", Int(id));
        assert m[1..] == Filter(rows[1..], "id", Int(id));
        assert PatchAll(m, content) == [Patch(rows[0], content)] + PatchAll(m[1..], content);
      } else {
        assert u[0] == rows[0];
        assert Filter(u, "id", Int(id)) == Filter(u[1..], "id", Int(id));
        assert Filter(rows, "id", Int(id)) == Filter(rows[1..], "id", Int(id));
      }
    }
  }

  /** After updating the row `get(id=id)` found, `get(id=id)` finds that row
      with the body's fields written over it, and a well-formed table stays
      well-formed. */
  lemma UpdateThenGet(t: Table, id: nat, content: Dict<Value>, row: Value)
    requires "id" !in Keys(content) && Get(t, "id", Int(id)) == Found(row)
    ensures Get(UpdateWhere(t, id, content), "id", Int(id)) == Found(Patch(row, content))
    ensures WellFormed(t) ==> WellFormed(UpdateWhere(t, id, content))
  {
    FilterUpdated(t.rows, id, content);
    var u := UpdateWhere(t, id, content);
    assert PatchAll([row], content) == [Patch(row, content)];
    if WellFormed(t) {
      forall r | r in u.rows ensures r.Entity? && r.kind == t.kind && 0 <= Id(r) < t.nextId {
        var i :| 0 <= i < |u.rows| && u.rows[i] == r;
        assert t.rows[i] in t.rows;
        PatchKeepsId(t.rows[i], content, id);
      }
    }
  }

  /** After `delete()`, `get(id=id)` raises `DoesNotExist`, every other row is
      still there, and a well-formed table stays well-formed. */
  lemma DeleteThenGet(t: Table, id: nat)
    ensures Get(DeleteWhere(t, id), "id", Int(id)) == NoMatch
    ensures forall r :: r in t.rows && !Holds(r, "id", Int(id)) ==> r in DeleteWhere(t, id).rows
    ensures WellFormed(t) ==> WellFormed(DeleteWhere(t, id))
  {
  }
}
