/** The counter registry: a map from counter name to integer value, and the
    three operations the web service exposes on it. Each operation returns the
    HTTP response it produces together with the registry after the call. */
module Counter {

  import opened Wrappers
  import opened HttpStatus

  type Registry = map<string, int>

  /** A response body: either nothing, or a single-key JSON object `{key: value}`. */
  datatype Body = NoBody | Single(key: string, value: int)

  datatype Response = Response(status: Status, body: Body)

  /** The outcome of one operation: what the client sees, and the new state. */
  datatype Step = Step(response: Response, registry: Registry)

  /** The value stored under `name`, if any. */
  function Lookup(reg: Registry, name: string): Option<int>
  {
    if name in reg then Some(reg[name]) else None
  }

  /** The value a client reads from a JSON body with `body[key]`, if the key is there. */
  function JsonValue(body: Body, key: string): Option<int>
  {
    if body.Single? && body.key == key then Some(body.value) else None
  }

  /** A successful response reports the counter's stored value under its name. */
  predicate Reports(s: Step, name: string) {
    name in s.registry && s.response.body == Single(name, s.registry[name])
  }

  /** POST /counters/{name}. */
  function Create(reg: Registry, name: string): (s: Step)
    ensures s.response.status == Created <==> name !in reg
    ensures s.response.status == Conflict <==> name in reg
    ensures name in s.registry
    ensures s.registry - {name} == reg - {name}
    ensures name !in reg ==> s.registry[name] == 0 && Reports(s, name)
    ensures name in reg ==> s.registry == reg && s.response.body == NoBody
  {
    if name in reg then Step(Response(Conflict, NoBody), reg)
    else Step(Response(Created, Single(name, 0)), reg[name := 0])
  }

  /** PUT /counters/{name}: add exactly one to an existing counter. */
  function Increment(reg: Registry, name: string): (s: Step)
    ensures s.response.status == Ok <==> name in reg
    ensures s.response.status == NotFound <==> name !in reg
    ensures s.registry - {name} == reg - {name}
    ensures name in reg ==> name in s.registry && s.registry[name] == reg[name] + 1 && Reports(s, name)
    ensures name !in reg ==> s.registry == reg && s.response.body == NoBody
  {
    if name in reg then
      var v := reg[name] + 1;
      Step(Response(Ok, Single(name, v)), reg[name := v])
    else
      Step(Response(NotFound, NoBody), reg)
  }

  /** GET /counters/{name}: read an existing counter without changing anything. */
  function Get(reg: Registry, name: string): (s: Step)
    ensures s.registry == reg
    ensures s.response.status == Ok <==> name in reg
    ensures s.response.status == NotFound <==> name !in reg
    ensures name in reg ==> Reports(s, name)
    ensures name !in reg ==> s.response.body == NoBody
  {
    if name in reg then Step(Response(Ok, Single(name, reg[name])), reg)
    else Step(Response(NotFound, NoBody), reg)
  }

  /** Creating the same name twice: the first succeeds, the second conflicts
      and leaves the registry as the first left it. */
  lemma CreateTwiceConflicts(reg: Registry, name: string)
    requires name !in reg
    ensures Create(reg, name).response.status == Created
    ensures var second := Create(Create(reg, name).registry, name);
      second.response.status == Conflict && second.registry == Create(reg, name).registry
  {
  }

  /** The value in the body of an increment is the value in the body of the
      create before it, plus one, under the same key. */
  lemma IncrementAfterCreate(reg: Registry, name: string)
    requires name !in reg
    ensures var c := Create(reg, name);
      var u := Increment(c.registry, name);
      && JsonValue(c.response.body, name).Some?
      && u.response.status == Ok
      && JsonValue(u.response.body, name) == Some(JsonValue(c.response.body, name).value + 1)
  {
  }

  /** Reading is idempotent: a second read sees the same response and state. */
  lemma GetIdempotent(reg: Registry, name: string)
    ensures Get(Get(reg, name).registry, name) == Get(reg, name)
  {
  }
}
