/** The generic model-to-JSON encoder of the conference services
    (`attendees_microservice/common/json.py`): the value codecs for datetimes
    and query sets, `ModelEncoder.default` with its href / properties / nested
    encoders / extra-data steps, the fallback chain that the class bases of
    `ModelEncoder` produce, and the JSON tree walk that calls `default` on
    every value JSON cannot represent natively. */
module Json {
  import opened Wrappers
  import opened Dicts

  /** The Python values the encoder meets. */
  datatype Value =
    | Null                                       // None
    | Bool(b: bool)
    | Int(i: int)
    | Str(s: string)
    | List(items: seq<Value>)                    // list
    | Dict(entries: seq<(string, Value)>)        // dict, in insertion order
    | DateTime(isoformat: string)                // a datetime, with what its isoformat() returns
    | QuerySet(rows: seq<Value>)                 // a query result, in query order
    | Entity(kind: string, attrs: seq<(string, Value)>, apiUrl: Option<string>)
      // a model instance: its class, its attributes by name, and what
      // get_api_url() returns when the class defines it

  /** What the encoder raises. */
  datatype Error =
    | TypeError(typeName: string)      // "Object of type <typeName> is not JSON serializable"
    | AttributeError(name: string)     // getattr found no attribute of that name

  /** The JSON document the walk writes out. */
  datatype Json =
    | JNull
    | JBool(b: bool)
    | JInt(i: int)
    | JStr(s: string)
    | JArray(items: seq<Json>)
    | JObject(members: seq<(string, Json)>)

  /** The per-class `get_extra_data` hook. The only override in the services
      returns `{key: o.<relation>.<field>}`. */
  datatype ExtraHook = NoExtra | Flatten(key: string, relation: string, field: string)

  /** A `ModelEncoder` subclass: its `model`, its `properties`, its `encoders`
      (property name to nested encoder) and its `get_extra_data`. */
  datatype Encoder = Encoder(
    model: string,
    properties: seq<string>,
    encoders: map<string, Encoder>,
    extra: ExtraHook)

  function TypeName(v: Value): string {
    match v
    case Null => "NoneType"
    case Bool(_) => "bool"
    case Int(_) => "int"
    case Str(_) => "str"
    case List(_) => "list"
    case Dict(_) => "dict"
    case DateTime(_) => "datetime"
    case QuerySet(_) => "QuerySet"
    case Entity(kind, _, _) => kind
  }

  /** The values `json` writes without calling `default`. */
  predicate IsNative(v: Value) {
    v.Null? || v.Bool? || v.Int? || v.Str? || v.List? || v.Dict?
  }

  function Max(xs: seq<nat>): (m: nat)
    ensures forall i :: 0 <= i < |xs| ==> xs[i] <= m
    ensures m == 0 || m in xs
  {
    if xs == [] then 0
    else
      var t := Max(xs[1..]);
      assert forall i :: 1 <= i < |xs| ==> xs[i] == xs[1..][i - 1];
      if xs[0] < t then t else xs[0]
  }

  /** Nesting depth of a value: the measure the JSON walk decreases. */
  function Depth(v: Value): nat {
    match v
    case List(items) => 1 + Max(seq(|items|, i requires 0 <= i < |items| => Depth(items[i])))
    case QuerySet(rows) => 1 + Max(seq(|rows|, i requires 0 <= i < |rows| => Depth(rows[i])))
    case Dict(entries) => 1 + Max(seq(|entries|, i requires 0 <= i < |entries| => Depth(entries[i].1)))
    case Entity(_, attrs, _) => 1 + Max(seq(|attrs|, i requires 0 <= i < |attrs| => Depth(attrs[i].1)))
    case _ => 0
  }

  /** A dict whose values are all shallower than `n` is no deeper than `n`. */
  lemma DictDepthBound(entries: seq<(string, Value)>, n: nat)
    requires 1 <= n
    requires forall p :: p in entries ==> Depth(p.1) < n
    ensures Depth(Dict(entries)) <= n
  {
    var xs := seq(|entries|, i requires 0 <= i < |entries| => Depth(entries[i].1));
    assert forall i :: 0 <= i < |xs| ==> xs[i] < n by {
      forall i | 0 <= i < |xs| ensures xs[i] < n {
        assert entries[i] in entries;
      }
    }
  }

  /** `getattr(o, name)`: only model instances have attributes here. */
  function GetAttr(o: Value, name: string): (r: Result<Value, Error>)
    ensures r.Ok? <==> o.Entity? && name in Keys(o.attrs)
    ensures r.Err? ==> r.error == AttributeError(name)
    ensures r.Ok? ==> (name, r.value) in o.attrs && Depth(r.value) < Depth(o)
  {
    if o.Entity? && name in Keys(o.attrs) then
      var v := Lookup(o.attrs, name).value;
      var i :| 0 <= i < |o.attrs| && o.attrs[i] == (name, v);
      assert seq(|o.attrs|, j requires 0 <= j < |o.attrs| => Depth(o.attrs[j].1))[i] == Depth(v);
      Ok(v)
    else Err(AttributeError(name))
  }

  // ----- The value codecs and the fallback chain -----

  /** `JSONEncoder.default`: raises for every value. */
  function BaseDefault(o: Value): (r: Result<Value, Error>)
    ensures r == Err(TypeError(TypeName(o)))
  {
    Err(TypeError(TypeName(o)))
  }

  /** `QuerySetEncoder.default`: a query set becomes the plain list of its
      rows, same length and order, rows not encoded; anything else falls
      through to the base. */
  function QuerySetDefault(o: Value): (r: Result<Value, Error>)
    ensures r.Ok? <==> o.QuerySet?
    ensures r.Ok? ==> r.value.List? && r.value.items == o.rows
    ensures r.Err? ==> r == BaseDefault(o)
  {
    if o.QuerySet? then Ok(List(o.rows)) else BaseDefault(o)
  }

  /** `DateEncoder.default`: a datetime becomes its isoformat() string;
      anything else falls through to the next class in the chain. */
  function DateDefault(o: Value): (r: Result<Value, Error>)
    ensures o.DateTime? ==> r == Ok(Str(o.isoformat))
    ensures !o.DateTime? ==> r == QuerySetDefault(o)
  {
    if o.DateTime? then Ok(Str(o.isoformat)) else QuerySetDefault(o)
  }

  /** `isinstance(o, self.model)`. */
  predicate IsModel(enc: Encoder, o: Value) {
    o.Entity? && o.kind == enc.model
  }

  /** The dict before the properties: `"href"` when the object has `get_api_url`. */
  function HrefEntry(o: Value): (d: Dict<Value>)
    ensures |d| <= 1
  {
    if o.Entity? && o.apiUrl.Some? then [("href", Str(o.apiUrl.value))] else []
  }

  /** Pairs property names with their values. */
  function Zip(ps: seq<string>, vs: seq<Value>): (d: Dict<Value>)
    requires |ps| == |vs|
    ensures |d| == |ps| && Keys(d) == ps
    ensures forall i :: 0 <= i < |d| ==> d[i] == (ps[i], vs[i])
  {
    seq(|ps|, i requires 0 <= i < |ps| => (ps[i], vs[i]))
  }

  /** `get_extra_data(o)`. */
  function GetExtraData(hook: ExtraHook, o: Value): (r: Result<Dict<Value>, Error>)
    ensures hook.NoExtra? ==> r == Ok([])
    ensures hook.Flatten? && r.Ok? ==>
      && GetAttr(o, hook.relation).Ok?
      && GetAttr(GetAttr(o, hook.relation).value, hook.field).Ok?
      && r.value == [(hook.key, GetAttr(GetAttr(o, hook.relation).value, hook.field).value)]
    ensures hook.Flatten? ==>
      (r.Ok? <==> GetAttr(o, hook.relation).Ok? && GetAttr(GetAttr(o, hook.relation).value, hook.field).Ok?)
    ensures hook.Flatten? && GetAttr(o, hook.relation).Err? ==> r == Err(AttributeError(hook.relation))
    ensures hook.Flatten? && GetAttr(o, hook.relation).Ok? && r.Err? ==> r == Err(AttributeError(hook.field))
  {
    match hook
    case NoExtra => Ok([])
    case Flatten(key, relation, field) =>
      var related :- GetAttr(o, relation);
      var v :- GetAttr(related, field);
      Ok([(key, v)])
  }

  /** The specification of `ModelEncoder.default(o)`. For an instance of the
      model: href, then each property in order (nested encoders applied), then
      the extra data merged with `dict.update`. Otherwise the fallback chain
      date, then query set, then the base. */
  function Encode(enc: Encoder, o: Value): Result<Value, Error>
    decreases enc, 2, 0
  {
    if IsModel(enc, o) then
      var vals :- PropertyValues(enc, o, enc.properties);
      var extra :- GetExtraData(enc.extra, o);
      Ok(Dict(Update(Update(HrefEntry(o), Zip(enc.properties, vals)), extra)))
    else DateDefault(o)
  }

  /** The values of the properties `ps`, read in order; the first failure wins. */
  function PropertyValues(enc: Encoder, o: Value, ps: seq<string>): (r: Result<seq<Value>, Error>)
    decreases enc, 1, |ps|
    ensures r.Ok? ==> |r.value| == |ps|
  {
    if ps == [] then Ok([])
    else
      var init :- PropertyValues(enc, o, ps[..|ps| - 1]);
      var v :- PropertyValue(enc, o, ps[|ps| - 1]);
      Ok(init + [v])
  }

  /** `getattr(o, p)`, run through `encoders[p].default` when `p` has one. */
  function PropertyValue(enc: Encoder, o: Value, p: string): Result<Value, Error>
    decreases enc, 0, 0
  {
    var v :- GetAttr(o, p);
    if p in enc.encoders then Encode(enc.encoders[p], v) else Ok(v)
  }

  /** `ModelEncoder.default`, building the dict step by step as the source does. */
  method Default(enc: Encoder, o: Value) returns (r: Result<Value, Error>)
    ensures r == Encode(enc, o)
    decreases enc, 1
  {
    if !IsModel(enc, o) {
      return DateDefault(o);
    }
    var d: Dict<Value> := [];
    if o.apiUrl.Some? {
      d := Set(d, "href", Str(o.apiUrl.value));
    }
    var ps := enc.properties;
    ghost var vals: seq<Value> := [];
    var i := 0;
    assert ps[..0] == [];
    assert d == Update(HrefEntry(o), Zip(ps[..0], vals));
    while i < |ps|
      invariant 0 <= i <= |ps|
      invariant PropertyValues(enc, o, ps[..i]) == Ok(vals)
      invariant d == Update(HrefEntry(o), Zip(ps[..i], vals))
    {
      var value := ReadProperty(enc, o, ps[i]);
      PropertyStep(enc, o, ps, i, vals);
      if value.Err? {
        return Err(value.error);
      }
      d := Set(d, ps[i], value.value);
      vals := vals + [value.value];
      i := i + 1;
    }
    assert ps[..i] == ps;
    var extra := GetExtraData(enc.extra, o);
    if extra.Err? {
      return Err(extra.error);
    }
    d := Update(d, extra.value);
    r := Ok(Dict(d));
  }

  /** The body of the property loop of `Default`: `getattr(o, p)`, then the
      nested encoder's `default` when `p` has one. */
  method ReadProperty(enc: Encoder, o: Value, p: string) returns (r: Result<Value, Error>)
    ensures r == PropertyValue(enc, o, p)
    decreases enc, 0
  {
    r := GetAttr(o, p);
    if r.Ok? && p in enc.encoders {
      r := Default(enc.encoders[p], r.value);
    }
  }

  /** One turn of the property loop of `Default`: reading property `i` extends
      the values read so far, or its failure is the failure of all of them. */
  lemma PropertyStep(enc: Encoder, o: Value, ps: seq<string>, i: nat, vals: seq<Value>)
    requires i < |ps| && PropertyValues(enc, o, ps[..i]) == Ok(vals)
    ensures PropertyValue(enc, o, ps[i]).Err? ==>
      PropertyValues(enc, o, ps) == Err(PropertyValue(enc, o, ps[i]).error)
    ensures PropertyValue(enc, o, ps[i]).Ok? ==>
      var v := PropertyValue(enc, o, ps[i]).value;
      && PropertyValues(enc, o, ps[..i + 1]) == Ok(vals + [v])
      && Update(HrefEntry(o), Zip(ps[..i + 1], vals + [v]))
         == Set(Update(HrefEntry(o), Zip(ps[..i], vals)), ps[i], v)
  {
    assert ps[..i + 1][..i] == ps[..i];
    if PropertyValue(enc, o, ps[i]).Err? {
      PropertyValuesStopAt(enc, o, ps, i + 1);
    } else {
      var v := PropertyValue(enc, o, ps[i]).value;
      ZipSnoc(ps, i, vals, v);
      UpdateSnoc(HrefEntry(o), Zip(ps[..i], vals), ps[i], v);
    }
  }

  lemma ZipSnoc(ps: seq<string>, i: nat, vals: seq<Value>, v: Value)
    requires i < |ps| && |vals| == i
    ensures Zip(ps[..i + 1], vals + [v]) == Zip(ps[..i], vals) + [(ps[i], v)]
  {
  }

  /** A failure on a prefix of the properties is the failure of all of them. */
  lemma {:induction false} PropertyValuesStopAt(enc: Encoder, o: Value, ps: seq<string>, n: nat)
    requires n <= |ps| && PropertyValues(enc, o, ps[..n]).Err?
    ensures PropertyValues(enc, o, ps) == PropertyValues(enc, o, ps[..n])
    decreases |ps| - n
  {
    if n < |ps| {
      assert ps[..n + 1][..n] == ps[..n];
      PropertyValuesStopAt(enc, o, ps, n + 1);
    } else {
      assert ps[..n] == ps;
    }
  }

  // ----- What `default` promises for an instance of its model -----

  /** The dict `default` builds for an instance of its model, or `[]` when it raises. */
  function EntriesOf(enc: Encoder, o: Value): Dict<Value> {
    match Encode(enc, o)
    case Ok(Dict(d)) => d
    case _ => []
  }

  /** What `get_extra_data(o)` returns, or `{}` when it raises. */
  function ExtraOf(enc: Encoder, o: Value): Dict<Value> {
    match GetExtraData(enc.extra, o)
    case Ok(x) => x
    case Err(_) => []
  }

  /** The keys `"href"` contributes: one when the object has `get_api_url`. */
  function HrefKeys(o: Value): seq<string> {
    if o.Entity? && o.apiUrl.Some? then ["href"] else []
  }

  /** Unfolds `Encode` on an instance whose encoding succeeds. */
  lemma EncodeUnfold(enc: Encoder, o: Value)
    requires IsModel(enc, o) && Encode(enc, o).Ok?
    ensures PropertyValues(enc, o, enc.properties).Ok?
    ensures GetExtraData(enc.extra, o).Ok?
    ensures Encode(enc, o) == Ok(Dict(EntriesOf(enc, o)))
    ensures EntriesOf(enc, o) == Update(
      Update(HrefEntry(o), Zip(enc.properties, PropertyValues(enc, o, enc.properties).value)),
      ExtraOf(enc, o))
  {
  }

  /** The result's keys are exactly `"href"` (iff the object has
      `get_api_url`), the declared properties and the extra-data keys, each
      once. */
  lemma EncodeKeys(enc: Encoder, o: Value)
    requires IsModel(enc, o) && Encode(enc, o).Ok?
    ensures forall k :: k in Keys(EntriesOf(enc, o)) <==>
      k in HrefKeys(o) || k in enc.properties || k in Keys(ExtraOf(enc, o))
    ensures Distinct(Keys(EntriesOf(enc, o)))
  {
    EncodeUnfold(enc, o);
    var vals := PropertyValues(enc, o, enc.properties).value;
    var base := Update(HrefEntry(o), Zip(enc.properties, vals));
    assert Keys(HrefEntry(o)) == HrefKeys(o);
    UpdateEntries(HrefEntry(o), Zip(enc.properties, vals));
    UpdateEntries(base, ExtraOf(enc, o));
  }

  /** When the object has `get_api_url`, `"href"` is the first key; it holds the
      URL unless a property or the extra data of that name overwrote it. */
  lemma EncodeHrefFirst(enc: Encoder, o: Value)
    requires IsModel(enc, o) && Encode(enc, o).Ok? && o.apiUrl.Some?
    ensures |EntriesOf(enc, o)| > 0 && EntriesOf(enc, o)[0].0 == "href"
    ensures "href" !in enc.properties && "href" !in Keys(ExtraOf(enc, o)) ==>
      EntriesOf(enc, o)[0] == ("href", Str(o.apiUrl.value))
  {
    EncodeUnfold(enc, o);
    var vals := PropertyValues(enc, o, enc.properties).value;
    var h := HrefEntry(o);
    var base := Update(h, Zip(enc.properties, vals));
    var r := EntriesOf(enc, o);
    assert Keys(base)[..1] == Keys(h) == ["href"];
    assert Keys(r)[..|base|][..1] == Keys(r)[..1];
    assert Keys(r)[0] == "href";
    if "href" !in enc.properties && "href" !in Keys(ExtraOf(enc, o)) {
      UpdateLookupOther(h, Zip(enc.properties, vals), "href");
      UpdateLookupOther(base, ExtraOf(enc, o), "href");
      assert Lookup(h, "href") == Some(Str(o.apiUrl.value));
      assert FirstIndex(Keys(r), "href") == 0;
    }
  }

  /** With pairwise distinct properties not named `"href"`, the result starts
      with `"href"` (when present) and then the properties in declared order;
      the extra data cannot move them. */
  lemma EncodePropertyOrder(enc: Encoder, o: Value)
    requires IsModel(enc, o) && Encode(enc, o).Ok?
    requires Distinct(enc.properties) && "href" !in enc.properties
    ensures |HrefKeys(o) + enc.properties| <= |EntriesOf(enc, o)|
    ensures Keys(EntriesOf(enc, o))[..|HrefKeys(o) + enc.properties|] == HrefKeys(o) + enc.properties
  {
    EncodeUnfold(enc, o);
    BaseFresh(o, enc.properties, PropertyValues(enc, o, enc.properties).value);
  }

  /** Extra-data keys that are new are appended after the properties, in
      the order `get_extra_data` returns them. */
  lemma EncodeFreshExtra(enc: Encoder, o: Value)
    requires IsModel(enc, o) && Encode(enc, o).Ok?
    requires Distinct(enc.properties) && "href" !in enc.properties
    requires Distinct(Keys(ExtraOf(enc, o)))
    requires forall k :: k in Keys(ExtraOf(enc, o)) ==> k !in enc.properties && k != "href"
    ensures Keys(EntriesOf(enc, o)) == HrefKeys(o) + enc.properties + Keys(ExtraOf(enc, o))
  {
    EncodeUnfold(enc, o);
    var vals := PropertyValues(enc, o, enc.properties).value;
    var base := HrefEntry(o) + Zip(enc.properties, vals);
    var x := ExtraOf(enc, o);
    BaseFresh(o, enc.properties, vals);
    UpdateFreshKeys(base, x);
    KeysAppend(base, x);
  }

  /** Without a `get_extra_data` override the result is just the href and the
      properties, in that order. */
  lemma EncodeWithoutExtra(enc: Encoder, o: Value)
    requires IsModel(enc, o) && Encode(enc, o).Ok? && enc.extra.NoExtra?
    requires Distinct(enc.properties) && "href" !in enc.properties
    ensures Keys(EntriesOf(enc, o)) == HrefKeys(o) + enc.properties
  {
    EncodeFreshExtra(enc, o);
    assert Keys(ExtraOf(enc, o)) == [];
  }

  /** Distinct properties not named `"href"` are appended after the href. */
  lemma BaseFresh(o: Value, ps: seq<string>, vals: seq<Value>)
    requires |ps| == |vals| && Distinct(ps) && "href" !in ps
    ensures Update(HrefEntry(o), Zip(ps, vals)) == HrefEntry(o) + Zip(ps, vals)
    ensures Keys(HrefEntry(o) + Zip(ps, vals)) == HrefKeys(o) + ps
  {
    var h := HrefEntry(o);
    var z := Zip(ps, vals);
    assert Keys(h) == HrefKeys(o);
    assert forall i, j :: 0 <= i < |z| && 0 <= j < |h| ==> z[i].0 != h[j].0 by {
      forall i, j | 0 <= i < |z| && 0 <= j < |h| ensures z[i].0 != h[j].0 {
        assert h[j].0 == "href";
        assert z[i].0 == ps[i];
      }
    }
    UpdateFresh(h, z);
    KeysAppend(h, z);
  }

  /** An encoder with one plain property and no extra data writes an instance
      as that property, after its href, and fails exactly when the instance
      lacks the attribute. */
  lemma SingleProperty(enc: Encoder, o: Value, p: string)
    requires enc.properties == [p] && p !in enc.encoders && enc.extra.NoExtra? && p != "href"
    requires IsModel(enc, o)
    ensures Encode(enc, o).Ok? <==> p in Keys(o.attrs)
    ensures Encode(enc, o).Ok? ==>
      && Keys(EntriesOf(enc, o)) == HrefKeys(o) + [p]
      && Lookup(EntriesOf(enc, o), p) == Some(GetAttr(o, p).value)
  {
    if p in Keys(o.attrs) {
      PropertyValuesOk(enc, o, enc.properties, 1);
      assert enc.properties[..1] == enc.properties;
      EncodeWithoutExtra(enc, o);
      EncodeProperty(enc, o, p);
    } else {
      MissingAttribute(enc, o, 0);
    }
  }

  /** Each property value is `getattr(o, p)`, passed through
      `encoders[p].default` when `p` has a nested encoder and stored unchanged
      otherwise, unless the extra data overwrote it. */
  lemma EncodeProperty(enc: Encoder, o: Value, p: string)
    requires IsModel(enc, o) && Encode(enc, o).Ok?
    requires p in enc.properties && p !in Keys(ExtraOf(enc, o))
    ensures GetAttr(o, p).Ok?
    ensures p in enc.encoders ==>
      && Encode(enc.encoders[p], GetAttr(o, p).value).Ok?
      && Lookup(EntriesOf(enc, o), p) == Some(Encode(enc.encoders[p], GetAttr(o, p).value).value)
    ensures p !in enc.encoders ==> Lookup(EntriesOf(enc, o), p) == Some(GetAttr(o, p).value)
  {
    EncodeUnfold(enc, o);
    var ps := enc.properties;
    var vals := PropertyValues(enc, o, ps).value;
    PropertyValuesAt(enc, o, ps, LastIndex(ps, p));
    ZipLookup(o, ps, vals, p);
    UpdateLookupOther(Update(HrefEntry(o), Zip(ps, vals)), ExtraOf(enc, o), p);
  }

  /** After the property loop, a property holds the value read for its last
      occurrence. */
  lemma ZipLookup(o: Value, ps: seq<string>, vals: seq<Value>, p: string)
    requires |ps| == |vals| && p in ps
    ensures Lookup(Update(HrefEntry(o), Zip(ps, vals)), p) == Some(vals[LastIndex(ps, p)])
  {
    var z := Zip(ps, vals);
    var i := LastIndex(ps, p);
    assert Keys(z[i + 1..]) == ps[i + 1..];
    UpdateLookupLast(HrefEntry(o), z, i);
  }

  /** The extra data is merged last: each of its keys holds its value from
      `get_extra_data(o)`, whether it was new or overwrote href or a property. */
  lemma EncodeExtraWins(enc: Encoder, o: Value, i: nat)
    requires IsModel(enc, o) && Encode(enc, o).Ok?
    requires i < |ExtraOf(enc, o)| && LastOf(ExtraOf(enc, o), i)
    ensures Lookup(EntriesOf(enc, o), ExtraOf(enc, o)[i].0) == Some(ExtraOf(enc, o)[i].1)
  {
    EncodeUnfold(enc, o);
    var vals := PropertyValues(enc, o, enc.properties).value;
    UpdateLookupLast(Update(HrefEntry(o), Zip(enc.properties, vals)), ExtraOf(enc, o), i);
  }

  /** A declared property the object lacks makes `default` raise
      `AttributeError` for it (the first such failure in declared order), and
      no dict is returned. */
  lemma MissingAttribute(enc: Encoder, o: Value, i: nat)
    requires IsModel(enc, o) && i < |enc.properties|
    requires enc.properties[i] !in Keys(o.attrs)
    requires forall j :: 0 <= j < i ==> PropertyValue(enc, o, enc.properties[j]).Ok?
    ensures Encode(enc, o) == Err(AttributeError(enc.properties[i]))
  {
    var ps := enc.properties;
    PropertyValuesOk(enc, o, ps, i);
    assert ps[..i + 1][..i] == ps[..i];
    PropertyValuesStopAt(enc, o, ps, i + 1);
  }

  /** When `default` returns a dict, the instance has every declared property. */
  lemma PropertyPresent(enc: Encoder, o: Value, p: string)
    requires IsModel(enc, o) && Encode(enc, o).Ok? && p in enc.properties
    ensures p in Keys(o.attrs)
  {
    EncodeUnfold(enc, o);
    PropertyValuesAt(enc, o, enc.properties, LastIndex(enc.properties, p));
  }

  /** A value that is not an instance of the model goes down the chain of the
      class bases: a datetime becomes its isoformat() string, otherwise a
      query set becomes the list of its rows, otherwise `TypeError`. */
  lemma FallbackOrder(enc: Encoder, o: Value)
    requires !IsModel(enc, o)
    ensures o.DateTime? ==> Encode(enc, o) == Ok(Str(o.isoformat))
    ensures o.QuerySet? ==> Encode(enc, o) == Ok(List(o.rows))
    ensures !o.DateTime? && !o.QuerySet? ==> Encode(enc, o) == Err(TypeError(TypeName(o)))
  {
  }

  /** The last position of `p` in `ps`. */
  function LastIndex(ps: seq<string>, p: string): (i: nat)
    requires p in ps
    ensures i < |ps| && ps[i] == p && p !in ps[i + 1..]
  {
    if ps[|ps| - 1] == p then |ps| - 1
    else
      assert p in ps[..|ps| - 1] by {
        var j :| 0 <= j < |ps| && ps[j] == p;
        assert ps[..|ps| - 1][j] == p;
      }
      var i := LastIndex(ps[..|ps| - 1], p);
      assert ps[i + 1..] == ps[..|ps| - 1][i + 1..] + [ps[|ps| - 1]];
      i
  }

  /** The values read for the properties are the properties' values, in order. */
  lemma {:induction false} PropertyValuesAt(enc: Encoder, o: Value, ps: seq<string>, i: nat)
    requires PropertyValues(enc, o, ps).Ok? && i < |ps|
    ensures PropertyValue(enc, o, ps[i]).Ok?
    ensures PropertyValues(enc, o, ps).value[i] == PropertyValue(enc, o, ps[i]).value
    decreases |ps|
  {
    var n := |ps| - 1;
    if i < n {
      assert ps[..n][i] == ps[i];
      PropertyValuesAt(enc, o, ps[..n], i);
    }
  }

  /** Properties that each read successfully read successfully together. */
  lemma {:induction false} PropertyValuesOk(enc: Encoder, o: Value, ps: seq<string>, n: nat)
    requires n <= |ps|
    requires forall j :: 0 <= j < n ==> PropertyValue(enc, o, ps[j]).Ok?
    ensures PropertyValues(enc, o, ps[..n]).Ok?
  {
    if n > 0 {
      assert ps[..n][..n - 1] == ps[..n - 1];
      PropertyValuesOk(enc, o, ps, n - 1);
    }
  }

  // ----- The JSON tree walk -----

  /** `default` returns a value `json` can write natively, no deeper than its input. */
  lemma EncodeDepth(enc: Encoder, o: Value)
    requires Encode(enc, o).Ok?
    ensures IsNative(Encode(enc, o).value)
    ensures Depth(Encode(enc, o).value) <= Depth(o)
    decreases enc, 2
  {
    if IsModel(enc, o) {
      EncodeUnfold(enc, o);
      var vals := PropertyValues(enc, o, enc.properties).value;
      PropertyValuesDepth(enc, o, enc.properties);
      var h := HrefEntry(o);
      var z := Zip(enc.properties, vals);
      ZipBelow(enc.properties, vals, Depth(o));
      ExtraBelow(enc, o);
      UpdateBelow(h, z, Depth(o));
      UpdateBelow(Update(h, z), ExtraOf(enc, o), Depth(o));
      DictDepthBound(EntriesOf(enc, o), Depth(o));
    } else if o.QuerySet? {
      assert Depth(List(o.rows)) == Depth(o);
    }
  }

  lemma ZipBelow(ps: seq<string>, vals: seq<Value>, n: nat)
    requires |ps| == |vals| && forall v :: v in vals ==> Depth(v) < n
    ensures forall q :: q in Zip(ps, vals) ==> Depth(q.1) < n
  {
    var z := Zip(ps, vals);
    forall q | q in z ensures Depth(q.1) < n {
      var i :| 0 <= i < |z| && z[i] == q;
      assert vals[i] in vals;
    }
  }

  lemma ExtraBelow(enc: Encoder, o: Value)
    requires o.Entity?
    ensures forall q :: q in HrefEntry(o) ==> Depth(q.1) < Depth(o)
    ensures forall q :: q in ExtraOf(enc, o) ==> Depth(q.1) < Depth(o)
  {
    if enc.extra.Flatten? && GetExtraData(enc.extra, o).Ok? {
      var related := GetAttr(o, enc.extra.relation).value;
      assert Depth(GetAttr(related, enc.extra.field).value) < Depth(related);
    }
  }

  lemma UpdateBelow(d: Dict<Value>, e: Dict<Value>, n: nat)
    requires forall q :: q in d ==> Depth(q.1) < n
    requires forall q :: q in e ==> Depth(q.1) < n
    ensures forall q :: q in Update(d, e) ==> Depth(q.1) < n
  {
    UpdateEntries(d, e);
  }

  lemma {:induction false} PropertyValuesDepth(enc: Encoder, o: Value, ps: seq<string>)
    requires PropertyValues(enc, o, ps).Ok?
    ensures forall v :: v in PropertyValues(enc, o, ps).value ==> Depth(v) < Depth(o)
    decreases enc, 1, |ps|
  {
    if ps != [] {
      PropertyValuesDepth(enc, o, ps[..|ps| - 1]);
      PropertyValueDepth(enc, o, ps[|ps| - 1]);
    }
  }

  lemma PropertyValueDepth(enc: Encoder, o: Value, p: string)
    requires PropertyValue(enc, o, p).Ok?
    ensures Depth(PropertyValue(enc, o, p).value) < Depth(o)
    decreases enc, 0
  {
    if p in enc.encoders {
      EncodeDepth(enc.encoders[p], GetAttr(o, p).value);
    }
  }

  lemma ItemsBelow(items: seq<Value>)
    ensures forall x :: x in items ==> Depth(x) < Depth(List(items))
  {
    var xs := seq(|items|, i requires 0 <= i < |items| => Depth(items[i]));
    forall x | x in items ensures Depth(x) < Depth(List(items)) {
      var i :| 0 <= i < |items| && items[i] == x;
      assert xs[i] == Depth(x);
    }
  }

  lemma EntriesBelow(entries: seq<(string, Value)>)
    ensures forall p :: p in entries ==> Depth(p.1) < Depth(Dict(entries))
  {
    var xs := seq(|entries|, i requires 0 <= i < |entries| => Depth(entries[i].1));
    forall p | p in entries ensures Depth(p.1) < Depth(Dict(entries)) {
      var i :| 0 <= i < |entries| && entries[i] == p;
      assert xs[i] == Depth(p.1);
    }
  }

  /** `json.dumps(v, cls=<enc>)`: native values are written as they are, every
      other value is replaced by what `default` returns for it and written in
      turn. */
  function Serialize(enc: Encoder, v: Value): Result<Json, Error>
    decreases Depth(v), if IsNative(v) then 1 else 2, 0
  {
    match v
    case Null => Ok(JNull)
    case Bool(b) => Ok(JBool(b))
    case Int(i) => Ok(JInt(i))
    case Str(s) => Ok(JStr(s))
    case List(items) =>
      ItemsBelow(items);
      var js :- SerializeItems(enc, items, Depth(v));
      Ok(JArray(js))
    case Dict(entries) =>
      EntriesBelow(entries);
      var ms :- SerializeMembers(enc, entries, Depth(v));
      Ok(JObject(ms))
    case _ =>
      var w :- Encode(enc, v);
      EncodeDepth(enc, v);
      Serialize(enc, w)
  }

  /** The elements of a list, written in order; the first failure wins. */
  function SerializeItems(enc: Encoder, items: seq<Value>, bound: nat): (r: Result<seq<Json>, Error>)
    requires forall x :: x in items ==> Depth(x) < bound
    decreases bound, 0, |items|
    ensures r.Ok? <==> forall i :: 0 <= i < |items| ==> Serialize(enc, items[i]).Ok?
    ensures r.Ok? ==> |r.value| == |items|
    ensures r.Ok? ==> forall i :: 0 <= i < |items| ==> r.value[i] == Serialize(enc, items[i]).value
  {
    if items == [] then Ok([])
    else
      assert items[0] in items;
      var j :- Serialize(enc, items[0]);
      var js :- SerializeItems(enc, items[1..], bound);
      Ok([j] + js)
  }

  /** The members of a dict, keys kept and in order; the first failure wins. */
  function SerializeMembers(enc: Encoder, entries: seq<(string, Value)>, bound: nat)
    : (r: Result<seq<(string, Json)>, Error>)
    requires forall p :: p in entries ==> Depth(p.1) < bound
    decreases bound, 0, |entries|
    ensures r.Ok? <==> forall i :: 0 <= i < |entries| ==> Serialize(enc, entries[i].1).Ok?
    ensures r.Ok? ==> |r.value| == |entries|
    ensures r.Ok? ==> forall i :: 0 <= i < |entries| ==>
      r.value[i] == (entries[i].0, Serialize(enc, entries[i].1).value)
  {
    if entries == [] then Ok([])
    else
      assert entries[0] in entries;
      var j :- Serialize(enc, entries[0].1);
      var ms :- SerializeMembers(enc, entries[1..], bound);
      Ok([(entries[0].0, j)] + ms)
  }

  /** A query set is written as the JSON array of its rows, each row written
      in turn (through `default` when it is a model instance); an empty query
      set is written as `[]`. */
  lemma SerializeQuerySet(enc: Encoder, rows: seq<Value>)
    ensures Serialize(enc, QuerySet(rows)).Ok? <==>
      forall i :: 0 <= i < |rows| ==> Serialize(enc, rows[i]).Ok?
    ensures Serialize(enc, QuerySet(rows)).Ok? ==>
      && Serialize(enc, QuerySet(rows)).value.JArray?
      && |Serialize(enc, QuerySet(rows)).value.items| == |rows|
      && forall i :: 0 <= i < |rows| ==>
           Serialize(enc, QuerySet(rows)).value.items[i] == Serialize(enc, rows[i]).value
    ensures rows == [] ==> Serialize(enc, QuerySet(rows)) == Ok(JArray([]))
  {
    assert Encode(enc, QuerySet(rows)) == Ok(List(rows));
    assert Serialize(enc, QuerySet(rows)) == Serialize(enc, List(rows));
  }

  /** A model instance is written as the JSON object of the dict `default`
      builds: same keys in the same order, each value written in turn. The
      walk succeeds exactly when `default` does and every value can be
      written; when `default` raises, so does the walk. */
  lemma SerializeInstance(enc: Encoder, o: Value)
    requires IsModel(enc, o)
    ensures Encode(enc, o).Err? ==> Serialize(enc, o) == Err(Encode(enc, o).error)
    ensures Serialize(enc, o).Ok? <==>
      Encode(enc, o).Ok? && forall i :: 0 <= i < |EntriesOf(enc, o)| ==> Serialize(enc, EntriesOf(enc, o)[i].1).Ok?
    ensures Serialize(enc, o).Ok? ==>
      && Serialize(enc, o).value.JObject?
      && |Serialize(enc, o).value.members| == |EntriesOf(enc, o)|
      && Keys(Serialize(enc, o).value.members) == Keys(EntriesOf(enc, o))
      && forall i :: 0 <= i < |EntriesOf(enc, o)| ==>
           Serialize(enc, o).value.members[i] == (EntriesOf(enc, o)[i].0, Serialize(enc, EntriesOf(enc, o)[i].1).value)
  {
    if Encode(enc, o).Ok? {
      EncodeUnfold(enc, o);
      var d := EntriesOf(enc, o);
      assert Serialize(enc, o) == Serialize(enc, Dict(d));
      EntriesBelow(d);
      var r := SerializeMembers(enc, d, Depth(Dict(d)));
      assert Serialize(enc, Dict(d)) == if r.Ok? then Ok(JObject(r.value)) else Err(r.error);
      if r.Ok? {
        var ms := r.value;
        assert Keys(ms) == Keys(d) by {
          forall i | 0 <= i < |d| ensures Keys(ms)[i] == Keys(d)[i] {
            assert ms[i] == (d[i].0, Serialize(enc, d[i].1).value);
          }
        }
      }
    }
  }

  /** A datetime anywhere in the tree is written as its isoformat() string. */
  lemma SerializeDateTime(enc: Encoder, iso: string)
    ensures Serialize(enc, DateTime(iso)) == Ok(JStr(iso))
  {
    assert Encode(enc, DateTime(iso)) == Ok(Str(iso));
  }
}
