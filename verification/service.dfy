/** The request layer of the counter service: the three routes on
    /counters/{name}, and a client session that sends a sequence of requests
    to one registry. The session is related to an independent, counting
    description of what each counter must hold. */
module Service {

  import opened Wrappers
  import opened HttpStatus
  import Counter

  /** A request, by HTTP method, on the resource /counters/{name}. */
  datatype Request = Post(name: string) | Put(name: string) | Get(name: string)

  /** Route a request to the registry operation for its method. Only the named
      counter can change, and every successful response reports it. */
  function Handle(reg: Counter.Registry, req: Request): (s: Counter.Step)
    ensures s.registry - {req.name} == reg - {req.name}
    ensures reg.Keys <= s.registry.Keys
    ensures IsSuccess(s.response.status) ==> Counter.Reports(s, req.name)
    ensures !IsSuccess(s.response.status) ==> s.registry == reg && s.response.body == Counter.NoBody
  {
    match req
    case Post(name) => Counter.Create(reg, name)
    case Put(name) => Counter.Increment(reg, name)
    case Get(name) => Counter.Get(reg, name)
  }

  /** What a client reads from a successful response with `body[name]` is the
      value the registry now stores under that name. */
  lemma ClientReadsStored(reg: Counter.Registry, req: Request)
    ensures var s := Handle(reg, req);
      IsSuccess(s.response.status) ==>
        Counter.JsonValue(s.response.body, req.name) == Counter.Lookup(s.registry, req.name)
  {
  }

  /** The responses a session receives, in order, and the registry it leaves. */
  datatype Trace = Trace(responses: seq<Counter.Response>, registry: Counter.Registry)

  /** Serve `reqs` one after the other, starting from `reg`. No request removes
      a counter, so every name present at the start is present at the end. */
  function Replay(reg: Counter.Registry, reqs: seq<Request>): (t: Trace)
    ensures |t.responses| == |reqs|
    ensures reg.Keys <= t.registry.Keys
    decreases |reqs|
  {
    if |reqs| == 0 then Trace([], reg)
    else
      var s := Handle(reg, reqs[0]);
      var rest := Replay(s.registry, reqs[1..]);
      Trace([s.response] + rest.responses, rest.registry)
  }

  /** How many requests in `reqs` increment `name`. */
  function CountPuts(reqs: seq<Request>, name: string): nat
    decreases |reqs|
  {
    if |reqs| == 0 then 0
    else (if reqs[0] == Put(name) then 1 else 0) + CountPuts(reqs[1..], name)
  }

  /** The position of the first request that creates `name`, or |reqs| if none does. */
  function FirstPost(reqs: seq<Request>, name: string): (i: nat)
    ensures i <= |reqs|
    ensures i < |reqs| ==> reqs[i] == Post(name)
    ensures forall j :: 0 <= j < i ==> reqs[j] != Post(name)
    decreases |reqs|
  {
    if |reqs| == 0 then 0
    else if reqs[0] == Post(name) then 0
    else 1 + FirstPost(reqs[1..], name)
  }

  /** What a counter must hold after a session, described without running it:
      a counter present at the start gains one per increment of it; an absent
      one exists only if the session creates it, and then holds 0 plus one per
      increment sent after the first create. */
  function Expected(reg: Counter.Registry, reqs: seq<Request>, name: string): Option<int>
  {
    if name in reg then Some(reg[name] + CountPuts(reqs, name))
    else
      var i := FirstPost(reqs, name);
      if i < |reqs| then Some(CountPuts(reqs[i + 1..], name)) else None
  }

  /** The session agrees with the counting description, for every name. */
  lemma {:induction false} ReplayMatchesExpected(reg: Counter.Registry, reqs: seq<Request>, name: string)
    ensures Counter.Lookup(Replay(reg, reqs).registry, name) == Expected(reg, reqs, name)
    decreases |reqs|
  {
    if |reqs| == 0 {
    } else {
      var s := Handle(reg, reqs[0]);
      ReplayMatchesExpected(s.registry, reqs[1..], name);
      if name !in reg && reqs[0] != Post(name) {
        assert name !in s.registry;
        var i := FirstPost(reqs[1..], name);
        assert FirstPost(reqs, name) == 1 + i;
        if i < |reqs[1..]| {
          assert reqs[1..][i + 1..] == reqs[i + 2..];
        }
      }
    }
  }

  /** Starting from an empty registry, a counter exists exactly when the
      session created it, and it holds the number of increments sent after
      its first creation. */
  lemma FreshRegistry(reqs: seq<Request>, name: string)
    ensures var t := Replay(map[], reqs);
      && (name in t.registry <==> Post(name) in reqs)
      && (name in t.registry ==>
            t.registry[name] == CountPuts(reqs[FirstPost(reqs, name) + 1..], name))
  {
    ReplayMatchesExpected(map[], reqs, name);
    var i := FirstPost(reqs, name);
    if Post(name) in reqs {
      var j :| 0 <= j < |reqs| && reqs[j] == Post(name);
      assert i <= j;
    }
  }

  /** A session that never names a counter leaves that counter as it was. */
  lemma {:induction false} UntouchedUnchanged(reg: Counter.Registry, reqs: seq<Request>, name: string)
    requires forall j :: 0 <= j < |reqs| ==> reqs[j].name != name
    ensures Counter.Lookup(Replay(reg, reqs).registry, name) == Counter.Lookup(reg, name)
    decreases |reqs|
  {
    if |reqs| > 0 {
      var s := Handle(reg, reqs[0]);
      UntouchedUnchanged(s.registry, reqs[1..], name);
    }
  }

  /** Reads never change a counter: removing the GET requests from a session
      leaves the final registry the same. */
  lemma {:induction false} GetsDoNotMatter(reg: Counter.Registry, reqs: seq<Request>)
    ensures Replay(reg, reqs).registry == Replay(reg, WithoutGets(reqs)).registry
    decreases |reqs|
  {
    if |reqs| > 0 {
      var s := Handle(reg, reqs[0]);
      GetsDoNotMatter(s.registry, reqs[1..]);
      if !reqs[0].Get? {
        assert WithoutGets(reqs) == [reqs[0]] + WithoutGets(reqs[1..]);
        assert WithoutGets(reqs)[1..] == WithoutGets(reqs[1..]);
      }
    }
  }

  /** The session with every GET request dropped. */
  function WithoutGets(reqs: seq<Request>): seq<Request>
    decreases |reqs|
  {
    if |reqs| == 0 then []
    else if reqs[0].Get? then WithoutGets(reqs[1..])
    else [reqs[0]] + WithoutGets(reqs[1..])
  }
}
