/** The attendees service's views (`attendees_microservice/attendees/api_views.py`):
    the encoder classes for attendees and the conference value objects the
    service keeps, and the list, create, show, update and delete views. */
module Attendees {
  import opened Wrappers
  import opened Dicts
  import opened Json
  import opened Store
  import opened Views

  /** `ConferenceVODetailEncoder`. */
  const ConferenceVODetailEncoder := Encoder("ConferenceVO", ["name", "import_href"], map[], NoExtra)

  /** `AttendeeListEncoder`. */
  const AttendeeListEncoder := Encoder("Attendee", ["name"], map[], NoExtra)

  /** `AttendeeDetailEncoder`: the conference is written by `ConferenceVODetailEncoder`. */
  const AttendeeDetailEncoder := Encoder(
    "Attendee",
    ["email", "name", "company_name", "created", "conference"],
    map["conference" := ConferenceVODetailEncoder],
    NoExtra)

  // ----- The conference href of the create view -----

  function Digit(d: nat): char
    requires d < 10
  {
    "0123456789"[d]
  }

  /** `str(n)` of a non-negative integer. */
  function Decimal(n: nat): (s: string)
    ensures |s| > 0 && forall i :: 0 <= i < |s| ==> '0' <= s[i] <= '9'
    ensures s[0] == '0' ==> n == 0
  {
    if n < 10 then [Digit(n)] else Decimal(n / 10) + [Digit(n % 10)]
  }

  /** `int(s)` of a string of decimal digits. */
  function Parse(s: string): nat
    requires forall i :: 0 <= i < |s| ==> '0' <= s[i] <= '9'
  {
    if s == [] then 0 else 10 * Parse(s[..|s| - 1]) + (s[|s| - 1] as int - '0' as int)
  }

  /** Reading back the decimal digits of `n` gives `n`. */
  lemma {:induction false} ParseDecimal(n: nat)
    ensures Parse(Decimal(n)) == n
  {
    if n >= 10 {
      var s := Decimal(n);
      assert s[..|s| - 1] == Decimal(n / 10);
      ParseDecimal(n / 10);
    }
  }

  /** `f'/api/conferences/{conference_vo_id}/'`; a missing id is written `None`. */
  function ConferenceHref(conferenceVoId: Option<nat>): string {
    "/api/conferences/" + (if conferenceVoId.Some? then Decimal(conferenceVoId.value) else "None") + "/"
  }

  /** Different conference ids give different hrefs, so the lookup by
      `import_href` can only find the conference the URL names. */
  lemma ConferenceHrefInjective(a: Option<nat>, b: Option<nat>)
    requires ConferenceHref(a) == ConferenceHref(b)
    ensures a == b
  {
    HrefMiddle(a);
    HrefMiddle(b);
    if a.Some? {
      ParseDecimal(a.value);
      ParseDecimal(b.value);
    }
  }

  /** Where the id sits in the href, and that only a missing id starts with 'N'. */
  lemma HrefMiddle(x: Option<nat>)
    ensures |ConferenceHref(x)| > 18
    ensures x.None? <==> ConferenceHref(x)[17] == 'N'
    ensures x.Some? ==> ConferenceHref(x)[17..|ConferenceHref(x)| - 1] == Decimal(x.value)
  {
    var middle := if x.Some? then Decimal(x.value) else "None";
    var s := ConferenceHref(x);
    assert s[17..|s| - 1] == middle;
    assert s[17] == middle[0];
  }

  /** The value `filter(conference=conference_vo_id)` compares with. */
  function ConferenceKey(conferenceVoId: Option<nat>): Value {
    if conferenceVoId.Some? then Int(conferenceVoId.value) else Null
  }

  // ----- What the encoder tables produce -----

  lemma DetailPropertiesDistinct()
    ensures Distinct(ConferenceVODetailEncoder.properties) && "href" !in ConferenceVODetailEncoder.properties
    ensures Distinct(AttendeeDetailEncoder.properties) && "href" !in AttendeeDetailEncoder.properties
  {
  }

  /** `ConferenceVODetailEncoder` writes `"name"` then `"import_href"`, after
      the href, both as the attributes are. */
  lemma ConferenceVOShape(o: Value)
    requires IsModel(ConferenceVODetailEncoder, o) && Encode(ConferenceVODetailEncoder, o).Ok?
    ensures Keys(EntriesOf(ConferenceVODetailEncoder, o)) == HrefKeys(o) + ["name", "import_href"]
    ensures GetAttr(o, "name").Ok? && GetAttr(o, "import_href").Ok?
    ensures Lookup(EntriesOf(ConferenceVODetailEncoder, o), "name") == Some(GetAttr(o, "name").value)
    ensures Lookup(EntriesOf(ConferenceVODetailEncoder, o), "import_href")
      == Some(GetAttr(o, "import_href").value)
  {
    DetailPropertiesDistinct();
    EncodeWithoutExtra(ConferenceVODetailEncoder, o);
    EncodeProperty(ConferenceVODetailEncoder, o, "name");
    EncodeProperty(ConferenceVODetailEncoder, o, "import_href");
  }

  /** `AttendeeListEncoder` writes an attendee as its name, after its href
      when it has one, and fails exactly when it has no name. */
  lemma AttendeeListShape(o: Value)
    requires IsModel(AttendeeListEncoder, o)
    ensures Encode(AttendeeListEncoder, o).Ok? <==> "name" in Keys(o.attrs)
    ensures Encode(AttendeeListEncoder, o).Ok? ==>
      && Keys(EntriesOf(AttendeeListEncoder, o)) == HrefKeys(o) + ["name"]
      && Lookup(EntriesOf(AttendeeListEncoder, o), "name") == Some(GetAttr(o, "name").value)
  {
    SingleProperty(AttendeeListEncoder, o, "name");
  }

  /** `AttendeeDetailEncoder` writes email, name, company_name, created and
      conference in that order, after the href. */
  lemma AttendeeDetailKeys(o: Value)
    requires IsModel(AttendeeDetailEncoder, o) && Encode(AttendeeDetailEncoder, o).Ok?
    ensures Keys(EntriesOf(AttendeeDetailEncoder, o)) == HrefKeys(o) + AttendeeDetailEncoder.properties
  {
    DetailPropertiesDistinct();
    EncodeWithoutExtra(AttendeeDetailEncoder, o);
  }

  /** The attendee's `"conference"` is the `ConferenceVODetailEncoder`
      encoding of the related conference: name and import_href. */
  lemma AttendeeDetailConference(o: Value)
    requires IsModel(AttendeeDetailEncoder, o) && Encode(AttendeeDetailEncoder, o).Ok?
    ensures GetAttr(o, "conference").Ok?
    ensures Encode(ConferenceVODetailEncoder, GetAttr(o, "conference").value).Ok?
    ensures Lookup(EntriesOf(AttendeeDetailEncoder, o), "conference")
      == Some(Encode(ConferenceVODetailEncoder, GetAttr(o, "conference").value).value)
    ensures IsModel(ConferenceVODetailEncoder, GetAttr(o, "conference").value) ==>
      Keys(EntriesOf(ConferenceVODetailEncoder, GetAttr(o, "conference").value))
      == HrefKeys(GetAttr(o, "conference").value) + ["name", "import_href"]
  {
    EncodeProperty(AttendeeDetailEncoder, o, "conference");
    var conference := GetAttr(o, "conference").value;
    if IsModel(ConferenceVODetailEncoder, conference) {
      ConferenceVOShape(conference);
    }
  }

  /** An attendee's show view, when it answers, answers 200 with the href
      and then email, name, company_name, created and conference. */
  lemma ShowAttendeeBody(t: Table, id: nat)
    requires WellFormed(t) && t.kind == AttendeeDetailEncoder.model && Get(t, "id", Int(id)).Found?
    requires Detail(t, id, AttendeeDetailEncoder).Response?
    ensures Detail(t, id, AttendeeDetailEncoder).status == 200
    ensures Detail(t, id, AttendeeDetailEncoder).body.JObject?
    ensures Keys(Detail(t, id, AttendeeDetailEncoder).body.members)
      == HrefKeys(Get(t, "id", Int(id)).row) + AttendeeDetailEncoder.properties
  {
    DetailShape(t, id, AttendeeDetailEncoder);
    AttendeeDetailKeys(Get(t, "id", Int(id)).row);
  }

  // ----- The views -----

  /** The conference value objects and the attendees. */
  class AttendeesApi {
    var conferences: Table
    var attendees: Table

    constructor (conferences: Table, attendees: Table)
      ensures this.conferences == conferences && this.attendees == attendees
    {
      this.conferences := conferences;
      this.attendees := attendees;
    }

    /** `GET api_list_attendees`: `{"attendees": [...]}`, the attendees of
        the conference in query order, each written by `AttendeeListEncoder`. */
    method ListAttendees(conferenceVoId: Option<nat>) returns (resp: Response)
      ensures resp == ListResponse(AttendeeListEncoder, "attendees",
        Filter(attendees.rows, "conference", ConferenceKey(conferenceVoId)))
    {
      var selected := Filter(attendees.rows, "conference", ConferenceKey(conferenceVoId));
      resp := Render(AttendeeListEncoder, Dict([("attendees", QuerySet(selected))]));
    }

    /** `POST api_list_attendees`: the conference is the value object whose
        `import_href` is the conference's href. None answers 400 "Invalid
        conference id" and creates nothing. */
    method CreateAttendee(conferenceVoId: Option<nat>, content: Dict<Value>, auto: Dict<Value>,
                          url: Option<string>)
      returns (resp: Response)
      modifies this
      ensures conferences == old(conferences)
      ensures match Attach(old(conferences), "import_href", Str(ConferenceHref(conferenceVoId)),
                           content, "conference", "Invalid conference id")
        case Stop(r) => resp == r && attendees == old(attendees)
        case Resolved(c) =>
          && attendees == Create(old(attendees), c, auto, url)
          && resp == Render(AttendeeDetailEncoder, NewRow(old(attendees), c, auto, url))
    {
      var href := ConferenceHref(conferenceVoId);
      var conference := Get(conferences, "import_href", Str(href));
      if conference.NoMatch? {
        return BadRequest("Invalid conference id");
      } else if conference.ManyMatches? {
        return ServerError(MultipleObjectsReturned);
      }
      var c := Set(content, "conference", conference.row);
      var attendee := NewRow(attendees, c, auto, url);
      attendees := Create(attendees, c, auto, url);
      resp := Render(AttendeeDetailEncoder, attendee);
    }

    /** `GET api_show_attendee`. */
    method ShowAttendee(id: nat) returns (resp: Response)
      ensures resp == Detail(attendees, id, AttendeeDetailEncoder)
    {
      var attendee := Get(attendees, "id", Int(id));
      match attendee
      case Found(row) => resp := Render(AttendeeDetailEncoder, row);
      case NoMatch => resp := ServerError(DoesNotExist);
      case ManyMatches => resp := ServerError(MultipleObjectsReturned);
    }

    /** `PUT api_show_attendee`: "conference" is required and looked up by
        name. A body without it raises `KeyError`; an unknown name answers 400
        "Invalid conference id" and updates nothing. */
    method UpdateAttendee(id: nat, content: Dict<Value>) returns (resp: Response)
      modifies this
      ensures conferences == old(conferences)
      ensures match Resolve(old(conferences), "name", content, "conference", "Invalid conference id", true)
        case Stop(r) => resp == r && attendees == old(attendees)
        case Resolved(c) =>
          && attendees == UpdateWhere(old(attendees), id, c)
          && resp == Detail(attendees, id, AttendeeDetailEncoder)
    {
      if "conference" !in Keys(content) {
        return ServerError(KeyError("conference"));
      }
      var c := content;
      var conference := Get(conferences, "name", Lookup(c, "conference").value);
      if conference.NoMatch? {
        return BadRequest("Invalid conference id");
      } else if conference.ManyMatches? {
        return ServerError(MultipleObjectsReturned);
      }
      c := Set(c, "conference", conference.row);
      attendees := UpdateWhere(attendees, id, c);
      resp := ShowAttendee(id);
    }

    /** `DELETE api_show_attendee`: `{"delete": "successful"}` once the
        attendee is gone; an unknown id raises `DoesNotExist`. */
    method DeleteAttendee(id: nat) returns (resp: Response)
      modifies this
      ensures conferences == old(conferences)
      ensures match Get(old(attendees), "id", Int(id))
        case Found(_) => attendees == DeleteWhere(old(attendees), id) && resp == Deleted()
        case NoMatch => attendees == old(attendees) && resp == ServerError(DoesNotExist)
        case ManyMatches =>
          attendees == old(attendees) && resp == ServerError(MultipleObjectsReturned)
    {
      var attendee := Get(attendees, "id", Int(id));
      match attendee
      case Found(_) =>
        attendees := DeleteWhere(attendees, id);
        resp := Deleted();
      case NoMatch => resp := ServerError(DoesNotExist);
      case ManyMatches => resp := ServerError(MultipleObjectsReturned);
    }
  }
}
