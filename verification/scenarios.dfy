/** The four CounterTest cases, each replayed as a client session against a
    registry that does not yet hold the test's counter name. */
module Scenarios {

  import opened Wrappers
  import opened HttpStatus
  import Counter
  import opened Service

  /** test_create_a_counter: POST /counters/foo answers 201, and foo then exists. */
  lemma CreateACounter(reg: Counter.Registry)
    requires "foo" !in reg
    ensures var t := Replay(reg, [Post("foo")]);
      Code(t.responses[0].status) == 201 && "foo" in t.registry
  {
  }

  /** test_duplicate_a_counter: two POSTs of bar answer 201 then 409. */
  lemma DuplicateACounter(reg: Counter.Registry)
    requires "bar" !in reg
    ensures var t := Replay(reg, [Post("bar"), Post("bar")]);
      Code(t.responses[0].status) == 201 && Code(t.responses[1].status) == 409
  {
  }

  /** test_update_a_counter: after POST baz answers 201 with body {baz: baseline},
      PUT baz answers 200 with body {baz: baseline + 1}. */
  lemma UpdateACounter(reg: Counter.Registry)
    requires "baz" !in reg
    ensures var t := Replay(reg, [Post("baz"), Put("baz")]);
      var baseline := Counter.JsonValue(t.responses[0].body, "baz");
      && Code(t.responses[0].status) == 201
      && baseline.Some?
      && Code(t.responses[1].status) == 200
      && Counter.JsonValue(t.responses[1].body, "baz") == Some(baseline.value + 1)
  {
  }

  /** test_get_counter: after POST boz answers 201, GET boz answers 200 and
      leaves the registry as the POST left it. */
  lemma GetCounter(reg: Counter.Registry)
    requires "boz" !in reg
    ensures var t := Replay(reg, [Post("boz"), Get("boz")]);
      && Code(t.responses[0].status) == 201
      && Code(t.responses[1].status) == 200
      && t.registry == Replay(reg, [Post("boz")]).registry
  {
  }
}
