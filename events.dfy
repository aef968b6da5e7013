/** The events service's views (`events/api_views.py`): the encoder classes
    for locations and conferences and the list, create, show, update and
    delete views over the state, location and conference tables. */
module Events {
  import opened Wrappers
  import opened Dicts
  import opened Json
  import opened Store
  import opened Views

  /** `LocationListEncoder`. */
  const LocationListEncoder := Encoder("Location", ["name"], map[], NoExtra)

  /** `LocationDetailEncoder`, whose `get_extra_data` returns
      `{"state": o.state.abbreviation}`. */
  const LocationDetailEncoder := Encoder(
    "Location",
    ["name", "city", "room_count", "created", "updated"],
    map[],
    Flatten("state", "state", "abbreviation"))

  /** `ConferenceDetailEncoder`: the location is written by `LocationListEncoder`. */
  const ConferenceDetailEncoder := Encoder(
    "Conference",
    ["name", "description", "max_presentations", "max_attendees",
     "starts", "ends", "created", "updated", "location"],
    map["location" := LocationListEncoder],
    NoExtra)

  /** `ConferenceListEncoder`. */
  const ConferenceListEncoder := Encoder("Conference", ["name"], map[], NoExtra)

  // ----- What the encoder tables produce -----

  lemma DetailPropertiesDistinct()
    ensures Distinct(LocationDetailEncoder.properties) && "href" !in LocationDetailEncoder.properties
    ensures "state" !in LocationDetailEncoder.properties
    ensures Distinct(ConferenceDetailEncoder.properties) && "href" !in ConferenceDetailEncoder.properties
  {
  }

  /** `LocationListEncoder` writes a location as its name, after its href
      when it has one, and fails exactly when it has no name. */
  lemma LocationListShape(o: Value)
    requires IsModel(LocationListEncoder, o)
    ensures Encode(LocationListEncoder, o).Ok? <==> "name" in Keys(o.attrs)
    ensures Encode(LocationListEncoder, o).Ok? ==>
      && Keys(EntriesOf(LocationListEncoder, o)) == HrefKeys(o) + ["name"]
      && Lookup(EntriesOf(LocationListEncoder, o), "name") == Some(GetAttr(o, "name").value)
  {
    SingleProperty(LocationListEncoder, o, "name");
  }

  /** `ConferenceListEncoder` writes a conference as its name, after its href
      when it has one, and fails exactly when it has no name. */
  lemma ConferenceListShape(o: Value)
    requires IsModel(ConferenceListEncoder, o)
    ensures Encode(ConferenceListEncoder, o).Ok? <==> "name" in Keys(o.attrs)
    ensures Encode(ConferenceListEncoder, o).Ok? ==>
      && Keys(EntriesOf(ConferenceListEncoder, o)) == HrefKeys(o) + ["name"]
      && Lookup(EntriesOf(ConferenceListEncoder, o), "name") == Some(GetAttr(o, "name").value)
  {
    SingleProperty(ConferenceListEncoder, o, "name");
  }

  /** `LocationDetailEncoder` succeeds exactly when the location has name,
      city, room_count, created and updated, and a state that has an
      abbreviation. */
  lemma LocationDetailFields(o: Value)
    requires IsModel(LocationDetailEncoder, o)
    ensures Encode(LocationDetailEncoder, o).Ok? <==>
      && (forall p :: p in LocationDetailEncoder.properties ==> p in Keys(o.attrs))
      && GetAttr(o, "state").Ok?
      && GetAttr(GetAttr(o, "state").value, "abbreviation").Ok?
  {
    if Encode(LocationDetailEncoder, o).Ok? {
      LocationDetailNeeds(o);
    } else if (forall p :: p in LocationDetailEncoder.properties ==> p in Keys(o.attrs)) {
      LocationDetailReads(o);
    }
  }

  lemma LocationDetailNeeds(o: Value)
    requires IsModel(LocationDetailEncoder, o) && Encode(LocationDetailEncoder, o).Ok?
    ensures forall p :: p in LocationDetailEncoder.properties ==> p in Keys(o.attrs)
    ensures GetAttr(o, "state").Ok? && GetAttr(GetAttr(o, "state").value, "abbreviation").Ok?
  {
    var enc := LocationDetailEncoder;
    EncodeUnfold(enc, o);
    forall p | p in enc.properties ensures p in Keys(o.attrs) {
      PropertyPresent(enc, o, p);
    }
  }

  lemma LocationDetailReads(o: Value)
    requires IsModel(LocationDetailEncoder, o)
    requires forall p :: p in LocationDetailEncoder.properties ==> p in Keys(o.attrs)
    ensures PropertyValues(LocationDetailEncoder, o, LocationDetailEncoder.properties).Ok?
  {
    var enc := LocationDetailEncoder;
    forall j | 0 <= j < |enc.properties| ensures PropertyValue(enc, o, enc.properties[j]).Ok? {
      assert enc.properties[j] in enc.properties;
    }
    PropertyValuesOk(enc, o, enc.properties, |enc.properties|);
    assert enc.properties[..|enc.properties|] == enc.properties;
  }

  /** `LocationDetailEncoder` writes name, city, room_count, created and
      updated in that order, after the href, then `"state"` holding the
      related state's abbreviation. */
  lemma LocationDetailKeys(o: Value)
    requires IsModel(LocationDetailEncoder, o) && Encode(LocationDetailEncoder, o).Ok?
    ensures Keys(EntriesOf(LocationDetailEncoder, o))
      == HrefKeys(o) + LocationDetailEncoder.properties + ["state"]
    ensures Lookup(EntriesOf(LocationDetailEncoder, o), "state")
      == Some(GetAttr(GetAttr(o, "state").value, "abbreviation").value)
  {
    var enc := LocationDetailEncoder;
    EncodeUnfold(enc, o);
    var x := ExtraOf(enc, o);
    assert Keys(x) == ["state"];
    DetailPropertiesDistinct();
    EncodeFreshExtra(enc, o);
    assert Keys(x[1..]) == [];
    EncodeExtraWins(enc, o, 0);
  }

  /** `ConferenceDetailEncoder` writes its nine properties in declared order,
      after the href. */
  lemma ConferenceDetailKeys(o: Value)
    requires IsModel(ConferenceDetailEncoder, o) && Encode(ConferenceDetailEncoder, o).Ok?
    ensures Keys(EntriesOf(ConferenceDetailEncoder, o))
      == HrefKeys(o) + ConferenceDetailEncoder.properties
  {
    DetailPropertiesDistinct();
    EncodeWithoutExtra(ConferenceDetailEncoder, o);
  }

  /** The conference's `"location"` is the `LocationListEncoder` encoding of
      the related location: its href and name only. */
  lemma ConferenceDetailLocation(o: Value)
    requires IsModel(ConferenceDetailEncoder, o) && Encode(ConferenceDetailEncoder, o).Ok?
    ensures GetAttr(o, "location").Ok?
    ensures Encode(LocationListEncoder, GetAttr(o, "location").value).Ok?
    ensures Lookup(EntriesOf(ConferenceDetailEncoder, o), "location")
      == Some(Encode(LocationListEncoder, GetAttr(o, "location").value).value)
    ensures IsModel(LocationListEncoder, GetAttr(o, "location").value) ==>
      Keys(EntriesOf(LocationListEncoder, GetAttr(o, "location").value))
      == HrefKeys(GetAttr(o, "location").value) + ["name"]
  {
    EncodeProperty(ConferenceDetailEncoder, o, "location");
    var location := GetAttr(o, "location").value;
    if IsModel(LocationListEncoder, location) {
      LocationListShape(location);
    }
  }

  /** Every other property of a conference is written as the attribute is. */
  lemma ConferenceDetailOthers(o: Value, p: string)
    requires IsModel(ConferenceDetailEncoder, o) && Encode(ConferenceDetailEncoder, o).Ok?
    requires p in ConferenceDetailEncoder.properties && p != "location"
    ensures GetAttr(o, p).Ok?
    ensures Lookup(EntriesOf(ConferenceDetailEncoder, o), p) == Some(GetAttr(o, p).value)
  {
    EncodeProperty(ConferenceDetailEncoder, o, p);
  }

  /** A location's show view, when it answers, answers 200 with the href,
      then name, city, room_count, created and updated, then `"state"`. */
  lemma ShowLocationBody(t: Table, id: nat)
    requires WellFormed(t) && t.kind == LocationDetailEncoder.model && Get(t, "id", Int(id)).Found?
    requires Detail(t, id, LocationDetailEncoder).Response?
    ensures Detail(t, id, LocationDetailEncoder).status == 200
    ensures Detail(t, id, LocationDetailEncoder).body.JObject?
    ensures Keys(Detail(t, id, LocationDetailEncoder).body.members)
      == HrefKeys(Get(t, "id", Int(id)).row) + ["name", "city", "room_count", "created", "updated", "state"]
  {
    DetailShape(t, id, LocationDetailEncoder);
    LocationDetailKeys(Get(t, "id", Int(id)).row);
  }

  /** A conference's show view, when it answers, answers 200 with the href
      and then the nine properties in declared order. */
  lemma ShowConferenceBody(t: Table, id: nat)
    requires WellFormed(t) && t.kind == ConferenceDetailEncoder.model && Get(t, "id", Int(id)).Found?
    requires Detail(t, id, ConferenceDetailEncoder).Response?
    ensures Detail(t, id, ConferenceDetailEncoder).status == 200
    ensures Detail(t, id, ConferenceDetailEncoder).body.JObject?
    ensures Keys(Detail(t, id, ConferenceDetailEncoder).body.members)
      == HrefKeys(Get(t, "id", Int(id)).row) + ConferenceDetailEncoder.properties
  {
    DetailShape(t, id, ConferenceDetailEncoder);
    ConferenceDetailKeys(Get(t, "id", Int(id)).row);
  }

  // ----- The views -----

  /** The three tables the views read and write. */
  class EventsApi {
    var states: Table
    var locations: Table
    var conferences: Table

    constructor (states: Table, locations: Table, conferences: Table)
      ensures this.states == states && this.locations == locations && this.conferences == conferences
    {
      this.states := states;
      this.locations := locations;
      this.conferences := conferences;
    }

    /** `GET api_list_conferences`: `{"conferences": [...]}`, every
        conference written by `ConferenceListEncoder`. */
    method ListConferences() returns (resp: Response)
      ensures resp == ListResponse(ConferenceListEncoder, "conferences", conferences.rows)
    {
      var all := conferences.rows;
      resp := Render(ConferenceListEncoder, Dict([("conferences", QuerySet(all))]));
    }

    /** `POST api_list_conferences`: the location is looked up by id. An
        unknown id answers 400 "Invalid location id" and creates nothing; a
        body without "location" raises `KeyError`. */
    method CreateConference(content: Dict<Value>, auto: Dict<Value>, url: Option<string>)
      returns (resp: Response)
      modifies this
      ensures states == old(states) && locations == old(locations)
      ensures match Resolve(old(locations), "id", content, "location", "Invalid location id", true)
        case Stop(r) => resp == r && conferences == old(conferences)
        case Resolved(c) =>
          && conferences == Create(old(conferences), c, auto, url)
          && resp == Render(ConferenceDetailEncoder, NewRow(old(conferences), c, auto, url))
    {
      if "location" !in Keys(content) {
        return ServerError(KeyError("location"));
      }
      var c := content;
      var location := Get(locations, "id", Lookup(c, "location").value);
      if location.NoMatch? {
        return BadRequest("Invalid location id");
      } else if location.ManyMatches? {
        return ServerError(MultipleObjectsReturned);
      }
      c := Set(c, "location", location.row);
      var conference := NewRow(conferences, c, auto, url);
      conferences := Create(conferences, c, auto, url);
      resp := Render(ConferenceDetailEncoder, conference);
    }

    /** `GET api_show_conference`. */
    method ShowConference(id: nat) returns (resp: Response)
      ensures resp == Detail(conferences, id, ConferenceDetailEncoder)
    {
      var conference := Get(conferences, "id", Int(id));
      match conference
      case Found(row) => resp := Render(ConferenceDetailEncoder, row);
      case NoMatch => resp := ServerError(DoesNotExist);
      case ManyMatches => resp := ServerError(MultipleObjectsReturned);
    }

    /** `PUT api_show_conference`: "location", when present, is looked up by
        name. An unknown name answers 400 "Invalid location name" and updates
        nothing; otherwise the conference is updated and shown. */
    method UpdateConference(id: nat, content: Dict<Value>) returns (resp: Response)
      modifies this
      ensures states == old(states) && locations == old(locations)
      ensures match Resolve(old(locations), "name", content, "location", "Invalid location name", false)
        case Stop(r) => resp == r && conferences == old(conferences)
        case Resolved(c) =>
          && conferences == UpdateWhere(old(conferences), id, c)
          && resp == Detail(conferences, id, ConferenceDetailEncoder)
    {
      var c := content;
      if "location" in Keys(c) {
        var location := Get(locations, "name", Lookup(c, "location").value);
        if location.NoMatch? {
          return BadRequest("Invalid location name");
        } else if location.ManyMatches? {
          return ServerError(MultipleObjectsReturned);
        }
        c := Set(c, "location", location.row);
      }
      conferences := UpdateWhere(conferences, id, c);
      resp := ShowConference(id);
    }

    /** `DELETE api_show_conference`: `{"delete": "successful"}` once the
        conference is gone; an unknown id raises `DoesNotExist`. */
    method DeleteConference(id: nat) returns (resp: Response)
      modifies this
      ensures states == old(states) && locations == old(locations)
      ensures match Get(old(conferences), "id", Int(id))
        case Found(_) => conferences == DeleteWhere(old(conferences), id) && resp == Deleted()
        case NoMatch => conferences == old(conferences) && resp == ServerError(DoesNotExist)
        case ManyMatches =>
          conferences == old(conferences) && resp == ServerError(MultipleObjectsReturned)
    {
      var conference := Get(conferences, "id", Int(id));
      match conference
      case Found(_) =>
        conferences := DeleteWhere(conferences, id);
        resp := Deleted();
      case NoMatch => resp := ServerError(DoesNotExist);
      case ManyMatches => resp := ServerError(MultipleObjectsReturned);
    }

    /** `GET api_list_locations`: `{"locations": [...]}`, every location
        written by `LocationListEncoder`. */
    method ListLocations() returns (resp: Response)
      ensures resp == ListResponse(LocationListEncoder, "locations", locations.rows)
    {
      var all := locations.rows;
      resp := Render(LocationListEncoder, Dict([("locations", QuerySet(all))]));
    }

    /** `POST api_list_locations`: the state is looked up by abbreviation. An
        unknown abbreviation answers 400 "Invalid state abbreviation" and
        creates nothing; a body without "state" raises `KeyError`. */
    method CreateLocation(content: Dict<Value>, auto: Dict<Value>, url: Option<string>)
      returns (resp: Response)
      modifies this
      ensures states == old(states) && conferences == old(conferences)
      ensures match Resolve(old(states), "abbreviation", content, "state", "Invalid state abbreviation", true)
        case Stop(r) => resp == r && locations == old(locations)
        case Resolved(c) =>
          && locations == Create(old(locations), c, auto, url)
          && resp == Render(LocationDetailEncoder, NewRow(old(locations), c, auto, url))
    {
      if "state" !in Keys(content) {
        return ServerError(KeyError("state"));
      }
      var c := content;
      var state := Get(states, "abbreviation", Lookup(c, "state").value);
      if state.NoMatch? {
        return BadRequest("Invalid state abbreviation");
      } else if state.ManyMatches? {
        return ServerError(MultipleObjectsReturned);
      }
      c := Set(c, "state", state.row);
      var location := NewRow(locations, c, auto, url);
      locations := Create(locations, c, auto, url);
      resp := Render(LocationDetailEncoder, location);
    }

    /** `GET api_show_location`. */
    method ShowLocation(id: nat) returns (resp: Response)
      ensures resp == Detail(locations, id, LocationDetailEncoder)
    {
      var location := Get(locations, "id", Int(id));
      match location
      case Found(row) => resp := Render(LocationDetailEncoder, row);
      case NoMatch => resp := ServerError(DoesNotExist);
      case ManyMatches => resp := ServerError(MultipleObjectsReturned);
    }

    /** `DELETE api_show_location`: `{"delete": "successful"}` once the
        location is gone; an unknown id raises `DoesNotExist`. */
    method DeleteLocation(id: nat) returns (resp: Response)
      modifies this
      ensures states == old(states) && conferences == old(conferences)
      ensures match Get(old(locations), "id", Int(id))
        case Found(_) => locations == DeleteWhere(old(locations), id) && resp == Deleted()
        case NoMatch => locations == old(locations) && resp == ServerError(DoesNotExist)
        case ManyMatches =>
          locations == old(locations) && resp == ServerError(MultipleObjectsReturned)
    {
      var location := Get(locations, "id", Int(id));
      match location
      case Found(_) =>
        locations := DeleteWhere(locations, id);
        resp := Deleted();
      case NoMatch => resp := ServerError(DoesNotExist);
      case ManyMatches => resp := ServerError(MultipleObjectsReturned);
    }

    /** `PUT api_show_location`: "state", when present, is looked up by
        abbreviation. An unknown abbreviation answers 400 "Invalid state
        abbreviation" and updates nothing; otherwise the location is updated
        and shown. */
    method UpdateLocation(id: nat, content: Dict<Value>) returns (resp: Response)
      modifies this
      ensures states == old(states) && conferences == old(conferences)
      ensures match Resolve(old(states), "abbreviation", content, "state", "Invalid state abbreviation", false)
        case Stop(r) => resp == r && locations == old(locations)
        case Resolved(c) =>
          && locations == UpdateWhere(old(locations), id, c)
          && resp == Detail(locations, id, LocationDetailEncoder)
    {
      var c := content;
      if "state" in Keys(c) {
        var state := Get(states, "abbreviation", Lookup(c, "state").value);
        if state.NoMatch? {
          return BadRequest("Invalid state abbreviation");
        } else if state.ManyMatches? {
          return ServerError(MultipleObjectsReturned);
        }
        c := Set(c, "state", state.row);
      }
      locations := UpdateWhere(locations, id, c);
      resp := ShowLocation(id);
    }
  }
}
