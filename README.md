# ConferenceGO model-to-JSON encoder and views, in Dafny

This project models the JSON side of the ConferenceGO services. Two parts are covered.

- **The generic encoder** (`common/json.py`). `ModelEncoder.default` turns an instance of the encoder's model into an ordered dict:
  1. `"href"` first, when the instance has `get_api_url`;
  2. each declared property, in order, run through a nested encoder when `encoders` names one;
  3. `get_extra_data(o)` merged last with `dict.update`.

  Any other value goes down the fallback chain of the class bases: a datetime becomes its `isoformat()` string, a query set becomes the list of its rows, and anything else raises `TypeError`. Around `default` sits the JSON tree walk of `JsonResponse`: native values are written as they are, and every other value is passed to `default` and written in turn.
- **The views** of the events service and the attendees service:
  - their encoder tables (which properties, which nested encoders, which extra data);
  - their list, create, show, update and delete views over an abstract store of tables;
  - the write-path step that replaces a natural key in the request body by the related row, or answers 400 with a fixed message and writes nothing.

## Layout

| file | module | what it holds |
|---|---|---|
| `wrappers.dfy` | `Wrappers` | `Option` and `Result` |
| `dicts.dfy` | `Dicts` | Python's insertion-ordered dict: `d[k] = v` (`Set`) and `d.update(e)` (`Update`), with their key-position rules |
| `json_encoder.dfy` | `Json` | the value and JSON datatypes; the three `default`s and the fallback chain; `Encode`, the specification of `ModelEncoder.default`, and `Default`, the method that builds the dict step by step as the source does; the JSON walk `Serialize` |
| `store.dfy` | `Store` | a table per model, with `get`, `filter`, `create`, `filter(...).update` and `delete` |
| `views.dfy` | `Views` | responses, `JsonResponse` with an encoder, and the natural-key step (`Attach`, `Resolve`) |
| `events.dfy` | `Events` | the location and conference encoders, and the class `EventsApi` with the ten views |
| `attendees.dfy` | `Attendees` | the conference value-object and attendee encoders, and the class `AttendeesApi` with the five views |

### How the source is represented

- **Model instances.** A model instance is `Entity(kind, attrs, apiUrl)`:
  - `attrs` is the instance's attributes by name;
  - `apiUrl` is what `get_api_url()` returns, or `None` when the class does not define it.
- **Datetimes.** A datetime carries the string its `isoformat()` returns.
- **Errors.** What `default` raises is an `Error`: `TypeError` or `AttributeError`.
- **View exceptions.** An exception a view does not catch becomes a `ServerError` response naming the exception: `KeyError`, `DoesNotExist`, `MultipleObjectsReturned`, or the encoder's error.
- **View state.** The views are methods of a class whose fields are the tables. They change those fields in place, as the ORM calls change the database.
- **Method contracts.** Each view's `ensures` gives its response and the new tables in terms of the store functions. The lemmas about those functions state what the views promise.

### Where the code and its docstrings disagree

- **Nested conference of an attendee.** The docstring of `api_show_attendee` (`attendees_microservice/attendees/api_views.py:96-99`) describes the nested conference as `name` and `href`. The encoder writes `name` and `import_href` (lines 11-16 and 36), plus `href` only when the value object defines `get_api_url`. The model follows the code; see `Attendees.ConferenceVOShape`.
- **Error message in the attendee update.** The attendee update looks the conference up by name, but answers "Invalid conference id" when none matches. The model keeps that message.

## Model

| member | source | states |
|---|---|---|
| `Dicts.Set` | attendees_microservice/common/json.py:52 | `d[k] = v`: the keys afterwards are those of `d` plus `k`; an existing key keeps its position and the keys of `d` stay in front in their order; a new key is appended at the end |
| `Dicts.SetLookup` | attendees_microservice/common/json.py:52 | after `d[k] = v`, `k` reads `v` and every other key reads what it read before |
| `Dicts.Update` | attendees_microservice/common/json.py:53 | `d.update(e)`: the keys afterwards are those of `d` and of `e`, and the keys of `d` keep their positions at the front |
| `Dicts.UpdateLookupLast` | attendees_microservice/common/json.py:53 | after `d.update(e)`, a key holds the value of its last entry in `e` |
| `Dicts.UpdateLookupOther` | attendees_microservice/common/json.py:53 | a key that `e` does not mention reads the same after `d.update(e)` |
| `Dicts.UpdateFreshKeys` | attendees_microservice/common/json.py:53 | updating with pairwise distinct keys that are all new appends them in order |
| `Dicts.UpdateSnoc` | attendees_microservice/common/json.py:47-52 | the property loop (one `d[p] = v` per property) is the same as updating with the list of pairs |
| `Json.GetAttr` | attendees_microservice/common/json.py:48 | `getattr(o, name)` succeeds exactly when `o` is a model instance with that attribute, and otherwise raises `AttributeError(name)`; the value read is one of `o`'s attributes |
| `Json.GetExtraData` | events/api_views.py:24-25 | the override of `LocationDetailEncoder` returns `{"state": o.state.abbreviation}`. It succeeds exactly when the location has a state and that state has an abbreviation; a missing state raises `AttributeError("state")` and a missing abbreviation `AttributeError("abbreviation")`. The default hook (`common/json.py` lines 60-61) returns `{}` |
| `Json.Default` | attendees_microservice/common/json.py:29-58 | the method that builds `d` as the source does (href, then the property loop, then `d.update(get_extra_data(o))`, else the fallback) returns exactly `Encode(enc, o)`. It has no `modifies` clause, so encoding changes neither the object nor the encoder, and the same object always encodes the same way |
| `Json.ReadProperty` | attendees_microservice/common/json.py:48-51 | one loop body: `getattr(o, p)`, then `encoders[p].default(...)` when `p` has a nested encoder |
| `Json.PropertyStep` | attendees_microservice/common/json.py:47-52 | one turn of the property loop either extends the values read and the dict by `d[p] = v`, or its failure is the failure of the whole `default` |
| `Json.EncodeKeys` | attendees_microservice/common/json.py:34-54 | for an instance of the model, the result's keys are exactly `"href"` (iff the instance has `get_api_url`), the declared properties and the extra-data keys, each once |
| `Json.EncodeHrefFirst` | attendees_microservice/common/json.py:39-40 | when the instance has `get_api_url`, `"href"` is the first key. It holds the URL unless a property or the extra data of that name overwrote it |
| `Json.EncodePropertyOrder` | attendees_microservice/common/json.py:47-52 | with distinct properties not named `"href"`, the keys start with the href (when present) and then the properties in declared order, whatever the extra data is |
| `Json.EncodeProperty` | attendees_microservice/common/json.py:48-52 | a property with a nested encoder holds `encoders[p].default(getattr(o, p))`; any other property holds `getattr(o, p)` unchanged. In both cases the extra data may overwrite it |
| `Json.EncodeExtraWins` | attendees_microservice/common/json.py:53 | every extra-data key holds its value from `get_extra_data(o)`, whether it was new or overwrote the href or a property |
| `Json.EncodeFreshExtra` | attendees_microservice/common/json.py:53 | extra-data keys that are new are appended after the properties, in the order `get_extra_data` returns them |
| `Json.EncodeWithoutExtra` | attendees_microservice/common/json.py:60-61 | without an override of `get_extra_data`, the result is exactly the href followed by the properties |
| `Json.MissingAttribute` | attendees_microservice/common/json.py:47-48 | the first declared property the instance lacks makes `default` raise `AttributeError` for it, and no dict is returned |
| `Json.PropertyPresent` | attendees_microservice/common/json.py:47-48 | when `default` returns a dict, the instance had every declared property |
| `Json.SingleProperty` | attendees_microservice/common/json.py:47-53 | an encoder with one plain property and no extra data writes the href and that property, and fails exactly when the attribute is missing |
| `Json.FallbackOrder` | attendees_microservice/common/json.py:6-26 | a value that is not an instance of the model goes down the class bases of `ModelEncoder` in order: its isoformat string if it is a datetime (`DateEncoder`); otherwise the list of its rows, same length and order, if it is a query set (`QuerySetEncoder`); otherwise the `TypeError` of `JSONEncoder.default` |
| `Json.EncodeDepth` | attendees_microservice/common/json.py:29-58 | whatever `default` returns is a value JSON writes natively (dict, list, string, …) and is no deeper than its input, so the walk that calls it ends |
| `Json.SerializeQuerySet` | attendees_microservice/common/json.py:20-21 | a query set is written as the array of its rows, each written in turn, same length and order; an empty query set is `[]` |
| `Json.SerializeInstance` | attendees_microservice/common/json.py:34-54 | an instance is written as the JSON object of the dict `default` builds: the same keys in the same order, each value written in turn. The walk succeeds exactly when `default` succeeds and every value can be written; when `default` raises, the response fails with that error |
| `Json.SerializeDateTime` | attendees_microservice/common/json.py:10-11 | a datetime anywhere in a response is written as its isoformat string |
| `Store.Filter` | attendees_microservice/attendees/api_views.py:61 | `filter(field=v)` holds exactly the rows for which the lookup holds: the attribute equals `v`, or it is a related row whose primary key is `v` |
| `Store.FilterAppend` | attendees_microservice/attendees/api_views.py:61 | filtering keeps query order |
| `Store.Get` | events/api_views.py:81 | `get(field=v)` raises `DoesNotExist` exactly when no row matches; it returns the row when exactly one matches, and raises `MultipleObjectsReturned` otherwise |
| `Store.Create` | events/api_views.py:85 | `create` appends one row, keeps the others in place and moves the key sequence on |
| `Store.NewRowId` | events/api_views.py:85 | the created row's primary key is the one the database handed out (when the body names none) |
| `Store.CreateStores` | events/api_views.py:85 | every field of the body is stored on the created row with the body's value |
| `Store.CreateThenGet` | events/api_views.py:85 | in a well-formed table, `get(id=<new key>)` afterwards finds exactly the created row, and the table stays well-formed |
| `Store.UpdateWhere` | events/api_views.py:133 | `filter(id=id).update(...)` keeps the number of rows, the model and the key sequence |
| `Store.UpdateMissing` | events/api_views.py:133 | updating a key no row has leaves the table as it was |
| `Store.UpdateThenGet` | events/api_views.py:133-134 | after updating the row `get(id=id)` found, `get(id=id)` finds that row with the body's fields written over it, and a well-formed table stays well-formed |
| `Store.DeleteThenGet` | events/api_views.py:139-140 | after `delete()`, `get(id=id)` raises `DoesNotExist`, every other row is still there, and a well-formed table stays well-formed |
| `Views.ListResponseShape` | events/api_views.py:73-77 | a list view answers 200 with a single key whose value is the array of the rows, each written by the list encoder, in query order. It fails exactly when some row cannot be written, and no rows give `[]` |
| `Views.DetailShape` | events/api_views.py:117-121 | for the row `get(id=id)` finds in a table of the encoder's model, a show view answers 200 with the JSON object of the dict the encoder builds (same keys in the same order, each value written in turn), and fails exactly when `default` raises or a value cannot be written |
| `Views.Attach` | events/api_views.py:80-84 | resolving `content[key] = T.objects.get(field=v)`: 400 with the message exactly when no row matches, `MultipleObjectsReturned` exactly when several do; otherwise `key` holds the row and every other key is unchanged |
| `Views.Resolve` | events/api_views.py:124-132 | the natural-key step with the key in the body. It answers 400 exactly when the key is present and no row has that value. A missing required key raises `KeyError`; a missing optional key leaves the body unchanged. On success the key holds the matching row and the other keys are unchanged |
| `Events.LocationListShape` | events/api_views.py:9-11 | `LocationListEncoder` writes only the href (when present) and `"name"`, and fails exactly when the name is missing |
| `Events.ConferenceListShape` | events/api_views.py:46-50 | `ConferenceListEncoder` writes only the href (when present) and `"name"`, and fails exactly when the name is missing |
| `Events.LocationDetailFields` | events/api_views.py:14-25 | `LocationDetailEncoder` succeeds exactly when name, city, room_count, created and updated are present and the related state has an abbreviation |
| `Events.LocationDetailKeys` | events/api_views.py:14-25 | the location detail is the href, then name, city, room_count, created and updated in that order, then `"state"` holding the state's abbreviation |
| `Events.ConferenceDetailKeys` | events/api_views.py:28-40 | the conference detail is the href, then its nine properties in declared order |
| `Events.ConferenceDetailLocation` | events/api_views.py:41-43 | the conference's `"location"` is the `LocationListEncoder` encoding of the related location (href and name only), not the full location |
| `Events.ConferenceDetailOthers` | events/api_views.py:28-40 | every other property of a conference is written as the attribute is |
| `Events.EventsApi.ListConferences` | events/api_views.py:73-77 | answers `{"conferences": [...]}` over all conferences, written by `ConferenceListEncoder` (shape by `Views.ListResponseShape`) |
| `Events.EventsApi.CreateConference` | events/api_views.py:78-88 | resolves `"location"` by id. An unknown id answers 400 "Invalid location id" and creates nothing; a body without `"location"` raises `KeyError`. Otherwise it creates the conference and answers its detail; states and locations never change |
| `Events.EventsApi.ShowConference` | events/api_views.py:117-121 | answers the conference detail, or fails as the unguarded `get` does |
| `Events.ShowConferenceBody` | events/api_views.py:97-121 | a conference found by `get` that can be written is answered with status 200 and the keys href (when present), name, description, max_presentations, max_attendees, starts, ends, created, updated and location, in that order |
| `Events.EventsApi.UpdateConference` | events/api_views.py:122-137 | resolves `"location"` by name, only when present. An unknown name answers 400 "Invalid location name" and updates nothing; otherwise it updates the rows with that id and answers the new detail |
| `Events.EventsApi.DeleteConference` | events/api_views.py:138-141 | when the conference exists, removes it and answers `{"delete": "successful"}`; otherwise it fails as `get` does and changes nothing |
| `Events.EventsApi.ListLocations` | events/api_views.py:175-179 | answers `{"locations": [...]}` over all locations, written by `LocationListEncoder` |
| `Events.EventsApi.CreateLocation` | events/api_views.py:180-194 | resolves `"state"` by abbreviation. An unknown abbreviation answers 400 "Invalid state abbreviation" and creates nothing; a body without `"state"` raises `KeyError`. Otherwise it creates the location and answers its detail |
| `Events.EventsApi.ShowLocation` | events/api_views.py:232-236 | answers the location detail, or fails as the unguarded `get` does |
| `Events.ShowLocationBody` | events/api_views.py:200-236 | a location found by `get` that can be written is answered with status 200 and the keys href (when present), name, city, room_count, created, updated and state, in that order |
| `Events.EventsApi.DeleteLocation` | events/api_views.py:237-240 | when the location exists, removes it and answers `{"delete": "successful"}`; otherwise it changes nothing |
| `Events.EventsApi.UpdateLocation` | events/api_views.py:241-256 | resolves `"state"` by abbreviation, only when present. An unknown abbreviation answers 400 "Invalid state abbreviation" and updates nothing; otherwise it updates and answers the new detail |
| `Attendees.Decimal` | attendees_microservice/attendees/api_views.py:68 | the digits the f-string writes for a conference id, as `str(n)` does: at least one, all decimal, and no leading zero unless the id is 0 |
| `Attendees.ParseDecimal` | attendees_microservice/attendees/api_views.py:68 | reading back those digits gives the id |
| `Attendees.ConferenceHrefInjective` | attendees_microservice/attendees/api_views.py:68-69 | different conference ids, or a missing one, give different hrefs, so the `import_href` lookup finds only the conference the URL names |
| `Attendees.ConferenceVOShape` | attendees_microservice/attendees/api_views.py:11-16 | a conference value object is written as the href (when present), then `"name"`, then `"import_href"`, both as the attributes are |
| `Attendees.AttendeeListShape` | attendees_microservice/attendees/api_views.py:19-23 | an attendee in a list is written as the href (when present) and `"name"` only, and the write fails exactly when the name is missing |
| `Attendees.AttendeeDetailKeys` | attendees_microservice/attendees/api_views.py:26-34 | the attendee detail is the href, then email, name, company_name, created and conference, in that order |
| `Attendees.AttendeeDetailConference` | attendees_microservice/attendees/api_views.py:36 | the attendee's `"conference"` is the `ConferenceVODetailEncoder` encoding of the related value object: name and import_href |
| `Attendees.AttendeesApi.ListAttendees` | attendees_microservice/attendees/api_views.py:60-64 | answers `{"attendees": [...]}`: exactly the attendees whose conference has the given id (or none, for a missing id), in query order, written by `AttendeeListEncoder` |
| `Attendees.AttendeesApi.CreateAttendee` | attendees_microservice/attendees/api_views.py:65-78 | looks up the value object whose `import_href` is `/api/conferences/<id>/`. If there is none it answers 400 "Invalid conference id" and creates nothing; otherwise it creates the attendee with that conference and answers its detail |
| `Attendees.AttendeesApi.ShowAttendee` | attendees_microservice/attendees/api_views.py:102-106 | answers the attendee detail, or fails as the unguarded `get` does |
| `Attendees.ShowAttendeeBody` | attendees_microservice/attendees/api_views.py:85-106 | an attendee found by `get` that can be written is answered with status 200 and the keys href (when present), email, name, company_name, created and conference, in that order |
| `Attendees.AttendeesApi.UpdateAttendee` | attendees_microservice/attendees/api_views.py:107-120 | `"conference"` is required and resolved by name. A body without it raises `KeyError`; an unknown name answers 400 "Invalid conference id" and updates nothing; otherwise it updates and answers the new detail |
| `Attendees.AttendeesApi.DeleteAttendee` | attendees_microservice/attendees/api_views.py:121-124 | when the attendee exists, removes it and answers `{"delete": "successful"}`; otherwise it changes nothing |

## Left out

- **The Django ORM.** It is replaced by `Store.Table`, a sequence of rows plus the next primary key. The model does not cover:
  - SQL, transactions and database constraints;
  - field validation (`create(**content)` with an unknown field raises `TypeError` in Django; here every body key becomes an attribute);
  - the coercion of lookup values (`get(id="3")` matches id 3 in Django; here values compare as they are). One consequence for the views: a body such as `{"location": "abc"}` makes Django raise `ValueError` while converting the lookup value, a server error, whereas the model finds no row and answers 400 "Invalid location id".
- **Related rows.** A related row is stored as the value it had when the foreign key was written, so a later change to the related row is not seen through the key. Cascading deletes are not modelled.
- **Values the database fills in.** Defaults and the `created`/`updated` timestamps are the `auto` parameter of `create`, and the new row's `get_api_url()` is the `url` parameter. Whether a class defines `get_api_url` is an input (`apiUrl`); the model classes are not part of this model.
- **Datetimes and the JSON text.** `isoformat()` is carried by the `DateTime` value: no time zones and no formatting. Floats, tuples, non-string dict keys, the circular-reference check and the text layout of `json.dumps` are not modelled. A `Json` value is the document written.
- **HTTP.** Only the view bodies are modelled:
  - not the HTTP layer of `JsonResponse`, `require_http_methods` (405 for other methods) or URL routing;
  - not `json.loads` of the request body: bodies arrive as parsed dicts, and malformed JSON or a body that is not an object is not covered;
  - view ids are natural numbers, as Django's `int` path converter gives them.
- **`isinstance(o, self.model)`** is modelled as an exact match of the class name; subclasses of a model are not represented.
- **The other services.** `presentation_workflow/presentation_mailer/consumer.py` (message-broker and mail I/O) and `monolith/events/acl.py` (calls to external photo and weather APIs) are not part of this model.
