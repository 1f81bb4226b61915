# Counter web service — registry model

A model of the counter web service exercised by `tests/test_counter.py`: a
service that keeps track of several named integer counters behind the
RESTful endpoint `/counters/{name}`. `POST` creates a counter, `PUT` adds one
to it, `GET` reads it; each answer is an HTTP status (201 Created, 409
Conflict, 200 OK, and 404 Not Found for an absent name, as defined in
section 15.3.2, section 15.5.10, section 15.3.1 and section 15.5.5 of RFC
9110) and, on success, a single-key JSON body `{name: value}`.

The service's own implementation (`src/counter.py`, `src/status.py`) is not
part of this model; its behaviour is taken from the test cases. The registry is an immutable
`map<string, int>`, and each operation is a pure function from the registry
to a `Step`: the response and the registry after the call.

- `wrappers.dfy` — `Wrappers.Option`.
- `status.dfy` — `HttpStatus`: the four statuses and their numeric codes.
- `counter.dfy` — `Counter`: the registry, response bodies, and
  `Create` / `Increment` / `Get`.
- `service.dfy` — `Service`: routing of `POST` / `PUT` / `GET` requests to
  the registry, `Replay` of a client session (a sequence of requests), and an
  independent counting description (`Expected`) of what every counter holds
  after a session, proved equal to the replay by induction.
- `scenarios.dfy` — `Scenarios`: one lemma per `CounterTest` method, each
  replayed against any registry that does not yet hold the test's name.

Choices the test file leaves open:
- A new counter starts at 0. This is a modelling choice: the test only reads
  a baseline from the create response (tests/test_counter.py:44).
- `PUT` or `GET` of an absent name answers 404 Not Found and changes nothing;
  the tests never exercise this, it only keeps the operations total.
- Conflict and Not Found answers carry no body; the tests never read one.

## Model

| member | source | states |
|---|---|---|
| HttpStatus.Code | tests/test_counter.py:19-20 | 200 and 201 are the success (2xx) codes, 404 and 409 the client-error (4xx) codes; Created is 201, Conflict 409, OK 200, Not Found 404 |
| Counter.Create | tests/test_counter.py:28-38 | creation succeeds with Created exactly when the name is new, and then the counter exists and the body reports its stored value under its name; a duplicate answers Conflict and changes nothing; other names are untouched |
| Counter.Increment | tests/test_counter.py:40-49 | on an existing counter: OK, the stored value becomes the previous value plus exactly one, and the body reports it under the same name; other names are untouched |
| Counter.Get | tests/test_counter.py:51-57 | on an existing counter: OK with a body reporting its stored value; the registry is never changed |
| Counter.CreateTwiceConflicts | tests/test_counter.py:33-38 | after a successful create, creating the same name again answers Conflict and keeps the registry |
| Counter.JsonValue | tests/test_counter.py:44-49 | the client's `result.get_json()[key]`: a value exactly when the body is the single entry for that key; its contract is stated through Service.ClientReadsStored |
| Service.ClientReadsStored | tests/test_counter.py:44-49 | after any request that succeeds, the client's `body[name]` (`Counter.JsonValue`) yields exactly the value the registry now stores under the name in the path |
| Counter.IncrementAfterCreate | tests/test_counter.py:40-49 | the increment's body value under the counter's key is the create's body value plus one |
| Counter.GetIdempotent | tests/test_counter.py:51-57 | reading twice gives the same response and the same registry as reading once |
| Service.Handle | tests/test_counter.py:5-11 | each request acts on the counter named in its path only, never removes a counter, a failure changes nothing, and every success reports the named counter's stored value |
| Service.Replay | tests/test_counter.py:4-10 | a session gets one response per request and ends with every counter it started with |
| Service.ReplayMatchesExpected | tests/test_counter.py:4-11 | after any session, every counter holds what the counting description says: a counter present at the start gains exactly one per increment of it; an absent one exists only if the session creates it, holding one per increment after its first creation |
| Service.FreshRegistry | tests/test_counter.py:8-10 | from an empty registry, a counter exists exactly when the session created it and holds the number of increments sent after its first creation |
| Service.UntouchedUnchanged | tests/test_counter.py:4 | a session that never names a counter leaves that counter's presence and value as they were |
| Service.GetsDoNotMatter | tests/test_counter.py:11 | dropping every read from a session leaves the final registry the same |
| Scenarios.CreateACounter | tests/test_counter.py:28-31 | POST /counters/foo on a registry without foo answers 201 and foo then exists |
| Scenarios.DuplicateACounter | tests/test_counter.py:33-38 | two POSTs of bar answer 201 then 409 |
| Scenarios.UpdateACounter | tests/test_counter.py:40-49 | POST baz answers 201 with a baseline under key baz; PUT baz answers 200 with baseline + 1 under key baz |
| Scenarios.GetCounter | tests/test_counter.py:51-57 | after POST boz answers 201, GET boz answers 200 and leaves the registry unchanged |

## Left out

- Delete: the test file gives no evidence of a delete route, so none is modelled.
- The Flask application, its test client and HTTP routing and transport: requests are modelled as `Post` / `Put` / `Get` values carrying the path's name.
- The `status` module's code table: replaced by the four-value `HttpStatus.Status` and `HttpStatus.Code`.
- JSON serialisation: a body is the abstract single entry `Single(key, value)`.
- Locking and concurrent requests: the model is sequential; a session is one serial order of requests.
- The application state shared between test methods: each scenario lemma instead holds for any registry that lacks the test's name.
- Counter names: the model accepts any `string`, including the empty name and names containing '/', which a `/counters/<name>` route never passes to the service.
- Integer width: Python integers are unbounded, as Dafny's `int` is, so no overflow is modelled.
