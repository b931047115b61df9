/** One request: the authorizers, the query parameters, the task and the
    response, with the panics that the handler recovers from. */
module Handlers {
  import opened Text
  import opened Responses
  import opened QueryParameters
  import opened Servers
  import Routing
  import Listing

  // ---------------------------------------------------------------- authorizers

  datatype Verdict = Accepts | Rejects(err: string) | Crashes

  /** What the authorizer of a name answers at each consultation. */
  type Answers = (nat, string) -> Verdict

  datatype AuthResult = Passed | Rejected(err: string) | Panicked

  /** The names to check: those of the endpoint, then those of the method's task. */
  function CheckList(ec: EndpointConfig, verb: string): seq<string> {
    ec.authorizers + if verb in ec.methods then ec.methods[verb].authorizers else []
  }

  predicate Passes(known: set<string>, answer: Answers, check: seq<string>, k: nat) {
    k < |check| && check[k] in known && answer(k, check[k]) == Accepts
  }

  /** The first check that does not pass is number `n`. */
  ghost predicate StopsAt(known: set<string>, answer: Answers, check: seq<string>, n: nat) {
    && n < |check| && !Passes(known, answer, check, n)
    && forall k :: 0 <= k < n ==> Passes(known, answer, check, k)
  }

  ghost predicate AllPass(known: set<string>, answer: Answers, check: seq<string>) {
    forall k :: 0 <= k < |check| ==> Passes(known, answer, check, k)
  }

  /** A name without an authorizer is a nil one, whose call panics. */
  function Stop(known: set<string>, answer: Answers, check: seq<string>, n: nat): AuthResult
    requires n < |check| && !Passes(known, answer, check, n)
  {
    if check[n] !in known then Panicked
    else match answer(n, check[n])
      case Rejects(e) => Rejected(e)
      case _ => Panicked
  }

  /** Those consulted when check number `n` stops the request. */
  function ConsultedUpTo(known: set<string>, check: seq<string>, n: nat): seq<string>
    requires n < |check|
  {
    if check[n] in known then check[..n + 1] else check[..n]
  }

  /** `Authorizers.Authorize`. */
  method Authorize(known: set<string>, ec: EndpointConfig, verb: string, answer: Answers)
    returns (consulted: seq<string>, result: AuthResult)
    ensures result == Passed <==> AllPass(known, answer, CheckList(ec, verb))
    ensures result == Passed ==> consulted == CheckList(ec, verb)
    ensures result != Passed ==>
              exists n: nat :: && StopsAt(known, answer, CheckList(ec, verb), n)
                          && result == Stop(known, answer, CheckList(ec, verb), n)
                          && consulted == ConsultedUpTo(known, CheckList(ec, verb), n)
  {
    var check: seq<string> := [];
    for k := 0 to |ec.authorizers|
      invariant check == ec.authorizers[..k]
    {
      check := check + [ec.authorizers[k]];
    }
    if verb in ec.methods {
      var names := ec.methods[verb].authorizers;
      for k := 0 to |names|
        invariant check == ec.authorizers + names[..k]
      {
        check := check + [names[k]];
      }
    }
    assert check == CheckList(ec, verb);
    consulted := [];
    for k := 0 to |check|
      invariant consulted == check[..k]
      invariant forall j :: 0 <= j < k ==> Passes(known, answer, check, j)
    {
      var an := check[k];
      if an !in known {
        assert StopsAt(known, answer, check, k);
        return consulted, Panicked;
      }
      consulted := consulted + [an];
      match answer(k, an) {
        case Accepts =>
        case Rejects(e) =>
          assert StopsAt(known, answer, check, k);
          return consulted, Rejected(e);
        case Crashes =>
          assert StopsAt(known, answer, check, k);
          return consulted, Panicked;
      }
    }
    result := Passed;
  }

  // ---------------------------------------------------------------- query parameters

  /** Those of the endpoint if it has any, else those of the method's task. */
  function ParamsFor(ec: EndpointConfig, verb: string): QueryParams? {
    if ec.queryParams != null then ec.queryParams
    else if verb in ec.methods then ec.methods[verb].queryParams
    else null
  }

  method GetQueryParams(ec: EndpointConfig, verb: string, query: string -> string) returns (result: map<string, string>)
    ensures result == Read(ParamsFor(ec, verb), query)
  {
    if ec.queryParams != null {
      result := GetParams(ec.queryParams, query);
      return;
    }
    result := map[];
    var found := GetParams(if verb in ec.methods then ec.methods[verb].queryParams else null, query);
    var rest := found.Keys;
    while rest != {}
      invariant rest <= found.Keys
      invariant result == map k | k in found && k !in rest :: found[k]
      decreases |rest|
    {
      var k :| k in rest;
      result := result[k := found[k]];
      rest := rest - {k};
    }
  }

  // ---------------------------------------------------------------- the handler

  datatype Body = NoBody | BodyRead(text: string) | ReadFailed(partial: string)

  datatype Request = Request(verb: string, query: string -> string, body: Body)

  datatype Params = Params(query: map<string, string>, body: string, env: map<string, string>)

  datatype TaskOutcome = TaskPanics(e: Value) | ReturnsNil | Returns(response: State)

  datatype Event = Consulted(name: string) | Ran(params: Params) | Wrote(response: State)

  /** What a handler is made of, and what the outside world does to it. */
  datatype Setup = Setup(known: set<string>, ec: EndpointConfig, pretty: bool, reloadEnv: bool, startEnv: map<string, string>,
                         text: StatusText, answer: Answers, nowEnv: map<string, string>, run: Params -> TaskOutcome,
                         nilError: Value, show: Params -> Value)

  function Consultations(names: seq<string>): (es: seq<Event>)
    ensures |es| == |names| && forall k :: 0 <= k < |es| ==> es[k] == Consulted(names[k])
  {
    seq(|names|, k requires 0 <= k < |names| => Consulted(names[k]))
  }

  /** The request body is kept only when reading it failed. */
  function KeptBody(b: Body): string {
    match b case ReadFailed(partial) => partial case _ => ""
  }

  ghost function ParamsOf(h: Setup, r: Request): Params
    reads ParamsIn(ParamsFor(h.ec, r.verb))
  {
    Params(Read(ParamsFor(h.ec, r.verb), r.query), KeptBody(r.body), if h.reloadEnv then h.nowEnv else h.startEnv)
  }

  predicate Returning(q: QueryParams?) { q != null && q.returnParams }

  /** The response with the parameters added where a level asks for them; a
      method only adds them to a response that has none. */
  function WithParams(h: Setup, verb: string, s: State, params: Params): State {
    if Returning(h.ec.queryParams)
       || (verb in h.ec.methods && Returning(h.ec.methods[verb].queryParams) && "params" !in s.data)
    then Put(s, "params", h.show(params))
    else s
  }

  function Crash(h: Setup, e: Value): State {
    var s := Initial(h.text, INTERNAL_ERROR);
    s.(pretty := h.pretty, data := s.data["error" := e])
  }

  /** A panic of the task, or of the use of the nil response it returned. */
  function TaskPanic(h: Setup, params: Params): Option<Value> {
    match h.run(params)
    case TaskPanics(e) => Some(e)
    case ReturnsNil => Some(h.nilError)
    case Returns(_) => None
  }

  function Answered(h: Setup, verb: string, params: Params): State {
    match h.run(params)
    case TaskPanics(e) => Crash(h, e)
    case ReturnsNil => Crash(h, h.nilError)
    case Returns(s) => WithParams(h, verb, s, params)
  }

  /** What is written when check number `n` stops the request. */
  function Refused(h: Setup, check: seq<string>, n: nat): State
    requires n < |check| && !Passes(h.known, h.answer, check, n)
  {
    if Stop(h.known, h.answer, check, n).Rejected? then Initial(h.text, UNAUTHORIZED) else Crash(h, h.nilError)
  }

  method AddParams(h: Setup, verb: string, params: Params, response: Response)
    modifies response
    ensures response.Snapshot() == WithParams(h, verb, old(response.Snapshot()), params)
  {
    if h.ec.queryParams != null {
      if h.ec.queryParams.returnParams {
        response.AddValue("params", h.show(params));
      }
    }
    if verb in h.ec.methods {
      var mqp := h.ec.methods[verb].queryParams;
      if mqp != null {
        var has := response.HasValue("params");
        if mqp.returnParams && !has {
          response.AddValue("params", h.show(params));
        }
      }
    }
  }

  ghost predicate Refuses(h: Setup, check: seq<string>, n: nat, events: seq<Event>, panic: Option<Value>) {
    && StopsAt(h.known, h.answer, check, n) && n < |check| && !Passes(h.known, h.answer, check, n)
    && events == Consultations(ConsultedUpTo(h.known, check, n))
                 + (if panic == None then [Wrote(Initial(h.text, UNAUTHORIZED))] else [])
    && panic == (if Stop(h.known, h.answer, check, n).Rejected? then None else Some(h.nilError))
  }

  /** The handler up to a panic, which it passes on. */
  method Serve(h: Setup, r: Request) returns (events: seq<Event>, panic: Option<Value>)
    ensures AllPass(h.known, h.answer, CheckList(h.ec, r.verb)) ==>
              && panic == TaskPanic(h, ParamsOf(h, r))
              && events == Consultations(CheckList(h.ec, r.verb)) + [Ran(ParamsOf(h, r))]
                           + (if panic == None then [Wrote(Answered(h, r.verb, ParamsOf(h, r)))] else [])
    ensures !AllPass(h.known, h.answer, CheckList(h.ec, r.verb)) ==>
              exists n: nat :: Refuses(h, CheckList(h.ec, r.verb), n, events, panic)
  {
    hide Read, WithParams, AllPass, CheckList;
    var consulted, result := Authorize(h.known, h.ec, r.verb, h.answer);
    events := Consultations(consulted);
    ghost var check := CheckList(h.ec, r.verb);
    if result.Panicked? {
      panic := Some(h.nilError);
      ghost var n: nat :| StopsAt(h.known, h.answer, check, n) && result == Stop(h.known, h.answer, check, n)
                          && consulted == ConsultedUpTo(h.known, check, n);
      assert Refuses(h, check, n, events, panic);
      return;
    }
    if result.Rejected? {
      var refusal := new Response(h.text, UNAUTHORIZED);
      events, panic := events + [Wrote(refusal.Snapshot())], None;
      ghost var n: nat :| StopsAt(h.known, h.answer, check, n) && result == Stop(h.known, h.answer, check, n)
                          && consulted == ConsultedUpTo(h.known, check, n);
      assert Refuses(h, check, n, events, panic);
      return;
    }
    var body := "";
    if r.body.ReadFailed? {
      body := r.body.partial;
    }
    var query := GetQueryParams(h.ec, r.verb, r.query);
    var params := Params(query, body, if h.reloadEnv then h.nowEnv else h.startEnv);
    events := events + [Ran(params)];
    var outcome := h.run(params);
    if outcome.TaskPanics? {
      return events, Some(outcome.e);
    }
    if outcome.ReturnsNil? {
      return events, Some(h.nilError);
    }
    var response := new Response.From(h.text, outcome.response);
    AddParams(h, r.verb, params, response);
    events := events + [Wrote(response.Snapshot())];
    panic := None;
  }

  /** What a request leaves behind, panics included. */
  ghost predicate Trace(h: Setup, r: Request, events: seq<Event>)
    reads ParamsIn(ParamsFor(h.ec, r.verb))
  {
    var check := CheckList(h.ec, r.verb);
    if AllPass(h.known, h.answer, check) then
      events == Consultations(check) + [Ran(ParamsOf(h, r)), Wrote(Answered(h, r.verb, ParamsOf(h, r)))]
    else
      exists n: nat :: StopsAt(h.known, h.answer, check, n)
                       && events == Consultations(ConsultedUpTo(h.known, check, n)) + [Wrote(Refused(h, check, n))]
  }

  /** The whole handler. The task runs only after every name of the check list,
      in order, was consulted and accepted; otherwise nobody after the first one
      that did not accept is consulted and the task does not run. In every run,
      panicking ones included, exactly one response is written, at the end: 401
      with nothing else for a rejection, 500 for a panic. */
  method Handle(h: Setup, r: Request) returns (events: seq<Event>)
    ensures Trace(h, r, events)
  {
    hide Read, CheckList, AllPass, WithParams, StopsAt, Initial;
    var panic;
    events, panic := Serve(h, r);
    ghost var check := CheckList(h.ec, r.verb);
    if panic.Some? {
      ghost var before := events;
      var response := new Response(h.text, INTERNAL_ERROR);
      response.Pretty(h.pretty);
      response.Error(panic.value);
      assert response.Snapshot() == Crash(h, panic.value);
      events := events + [Wrote(response.Snapshot())];
      if AllPass(h.known, h.answer, check) {
        assert before == Consultations(check) + [Ran(ParamsOf(h, r))];
        assert events == Consultations(check) + [Ran(ParamsOf(h, r)), Wrote(Answered(h, r.verb, ParamsOf(h, r)))];
      } else {
        ghost var n: nat :| Refuses(h, check, n, before, panic);
        assert StopsAt(h.known, h.answer, check, n);
        assert events == Consultations(ConsultedUpTo(h.known, check, n)) + [Wrote(Refused(h, check, n))];
      }
    } else if !AllPass(h.known, h.answer, check) {
      ghost var n: nat :| Refuses(h, check, n, events, panic);
      assert StopsAt(h.known, h.answer, check, n);
    }
  }

  /** The handler's guarantee, read off its trace alone. */
  lemma TraceMeaning(h: Setup, r: Request, events: seq<Event>)
    requires Trace(h, r, events)
    ensures forall k :: 0 <= k < |events| && events[k].Ran? ==>
              && k == |CheckList(h.ec, r.verb)|
              && events[k].params == ParamsOf(h, r)
              && forall j :: 0 <= j < k ==>
                   events[j] == Consulted(CheckList(h.ec, r.verb)[j]) && h.answer(j, CheckList(h.ec, r.verb)[j]) == Accepts
    ensures forall k :: 0 <= k < |events| ==> (events[k].Wrote? <==> k == |events| - 1)
    ensures events != [] && events[|events| - 1].Wrote?
    ensures forall k :: 0 <= k < |events| && events[k].Consulted? && h.answer(k, events[k].name).Rejects? ==>
              k == |events| - 2 && events[|events| - 1].response == Initial(h.text, UNAUTHORIZED)
  {
    var check := CheckList(h.ec, r.verb);
    if AllPass(h.known, h.answer, check) {
      forall k | 0 <= k < |check|
        ensures events[k] == Consulted(check[k]) && h.answer(k, check[k]) == Accepts
      {
        assert Passes(h.known, h.answer, check, k);
      }
    } else {
      var n: nat :| StopsAt(h.known, h.answer, check, n)
                 && events == Consultations(ConsultedUpTo(h.known, check, n)) + [Wrote(Refused(h, check, n))];
      forall k | 0 <= k < n
        ensures events[k] == Consulted(check[k]) && h.answer(k, check[k]) == Accepts
      {
        assert Passes(h.known, h.answer, check, k);
      }
    }
  }

  /** What the task sees, where it runs: the query through the endpoint's
      parameters if it has any and else through the method's, no body unless
      reading it failed, and the environment of the moment or of the start. */
  lemma TaskSees(h: Setup, r: Request, events: seq<Event>, k: nat)
    requires Trace(h, r, events) && k < |events| && events[k].Ran?
    ensures var params := events[k].params;
            && (h.ec.queryParams != null ==> params.query == Read(h.ec.queryParams, r.query))
            && (h.ec.queryParams == null && r.verb in h.ec.methods ==>
                  params.query == Read(h.ec.methods[r.verb].queryParams, r.query))
            && (h.ec.queryParams == null && r.verb !in h.ec.methods ==> params.query == map[])
            && (forall partial :: r.body == ReadFailed(partial) ==> params.body == partial)
            && (!r.body.ReadFailed? ==> params.body == "")
            && params.env == (if h.reloadEnv then h.nowEnv else h.startEnv)
  {
    TraceMeaning(h, r, events);
    assert Read(null, r.query) == map[];
  }

  /** The names are consulted in the order of the configuration, those of the
      endpoint and then those of the method of the verb, as far as the run gets. */
  lemma ConsultedInOrder(h: Setup, r: Request, events: seq<Event>)
    requires Trace(h, r, events)
    ensures var ours := h.ec.authorizers;
            var theirs := if r.verb in h.ec.methods then h.ec.methods[r.verb].authorizers else [];
            && (forall k :: 0 <= k < |events| && events[k].Consulted? ==>
                  && k < |ours| + |theirs|
                  && (k < |ours| ==> events[k].name == ours[k])
                  && (k >= |ours| ==> events[k].name == theirs[k - |ours|]))
            && (forall k :: 0 <= k < |events| && events[k].Ran? ==> k == |ours| + |theirs|)
  {
    TraceMeaning(h, r, events);
  }

  lemma RunsWhenPassed(h: Setup, r: Request, events: seq<Event>)
    requires Trace(h, r, events) && AllPass(h.known, h.answer, CheckList(h.ec, r.verb))
    ensures exists k :: 0 <= k < |events| && events[k].Ran?
  {
    assert events[|CheckList(h.ec, r.verb)|].Ran?;
  }

  /** How a request ends that does not get to its task: after a rejection with a
      401 and the status data alone; after a panic of an authorizer, or of the use
      of one that is not there and so was not consulted, with a 500. */
  lemma StoppedIsAnswered(h: Setup, r: Request, events: seq<Event>)
    requires Trace(h, r, events) && forall k :: 0 <= k < |events| ==> !events[k].Ran?
    ensures events != [] && events[|events| - 1].Wrote?
    ensures var written, n := events[|events| - 1].response, |events| - 1;
            var unauthorized := State(401, false, None, map["status" := Num(401), "message" := Str(h.text(401))]);
            var crash := State(500, h.pretty, None,
                               map["status" := Num(500), "message" := Str(h.text(500)), "error" := h.nilError]);
            || (&& n > 0 && events[n - 1].Consulted? && events[n - 1].name in h.known
                && match h.answer(n - 1, events[n - 1].name)
                   case Rejects(_) => written == unauthorized
                   case Crashes => written == crash
                   case Accepts => false)
            || (n < |CheckList(h.ec, r.verb)| && CheckList(h.ec, r.verb)[n] !in h.known && written == crash)
  {
    var check := CheckList(h.ec, r.verb);
    hide CheckList, Read;
    if AllPass(h.known, h.answer, check) {
      RunsWhenPassed(h, r, events);
    } else {
      var n: nat :| StopsAt(h.known, h.answer, check, n)
                 && events == Consultations(ConsultedUpTo(h.known, check, n)) + [Wrote(Refused(h, check, n))];
    }
  }

  /** One of the levels asks for the parameters to be returned: the endpoint, or
      the method for a response without any. */
  ghost predicate AsksForParams(ec: EndpointConfig, verb: string, s: State) {
    || (ec.queryParams != null && ec.queryParams.returnParams)
    || (verb in ec.methods && ec.methods[verb].queryParams != null && ec.methods[verb].queryParams.returnParams
        && "params" !in s.data)
  }

  /** What is written after the task ran: its response, with the parameters
      under `params` where they are asked for and nothing else changed; or, if it
      panicked or gave none, a 500 with the status data and the error alone. */
  lemma TaskIsAnswered(h: Setup, r: Request, events: seq<Event>, k: nat)
    requires Trace(h, r, events) && k < |events| && events[k].Ran?
    ensures k == |events| - 2 && events[k + 1].Wrote?
    ensures var params, written := events[k].params, events[k + 1].response;
            match h.run(params)
            case Returns(s) =>
              && written.status == s.status && written.pretty == s.pretty && written.raw == s.raw
              && written.data == if AsksForParams(h.ec, r.verb, s) then s.data["params" := h.show(params)] else s.data
            case other =>
              && written.status == 500 && written.pretty == h.pretty && written.raw == None
              && written.data == map["status" := Num(500), "message" := Str(h.text(500)),
                                     "error" := if other.TaskPanics? then other.e else h.nilError]
  {
    hide Read;
    TraceMeaning(h, r, events);
  }

  // ---------------------------------------------------------------- what the compiled configuration guarantees

  ghost predicate EndpointNamesConfigured(s: Server, i: nat)
    requires i < |s.endpoints|
    reads s
  {
    forall k :: 0 <= k < |s.endpoints[i].authorizers| ==> s.endpoints[i].authorizers[k] in s.authorizers
  }

  /** `GetAuthorizers` checked the methods' names and not the endpoints':
      whatever the authorizers answer, a request that stops at a name without an
      authorizer, which panics, stops at one that its endpoint lists. When all of
      them accept, that is the only way not to pass. */
  lemma OnlyEndpointNamesCanBeMissing(s: Server, i: nat, verb: string, answer: Answers)
    requires Routing.AuthorizersOk(s.Abstract()) && i < |s.endpoints|
    ensures forall n: nat :: StopsAt(s.authorizers.Keys, answer, CheckList(s.endpoints[i], verb), n)
                             && CheckList(s.endpoints[i], verb)[n] !in s.authorizers ==>
              && n < |s.endpoints[i].authorizers| && s.endpoints[i].authorizers[n] !in s.authorizers
              && Stop(s.authorizers.Keys, answer, CheckList(s.endpoints[i], verb), n) == Panicked
    ensures (forall k, name :: answer(k, name) == Accepts) ==>
              && (AllPass(s.authorizers.Keys, answer, CheckList(s.endpoints[i], verb)) <==> EndpointNamesConfigured(s, i))
              && forall n: nat :: StopsAt(s.authorizers.Keys, answer, CheckList(s.endpoints[i], verb), n) ==>
                   && n < |s.endpoints[i].authorizers|
                   && Stop(s.authorizers.Keys, answer, CheckList(s.endpoints[i], verb), n) == Panicked
  {
    s.AuthorizersOkMeans();
    var ec := s.endpoints[i];
    var check := CheckList(ec, verb);
    assert s.EndpointNamesKnown(i);
    forall k | |ec.authorizers| <= k < |check|
      ensures check[k] in s.authorizers
    {
      assert s.AllIn(ec.methods[verb].authorizers, s.authorizers.Keys);
      assert check[k] == ec.methods[verb].authorizers[k - |ec.authorizers|];
    }
    if (forall k, name :: answer(k, name) == Accepts) && AllPass(s.authorizers.Keys, answer, check) {
      forall k | 0 <= k < |ec.authorizers|
        ensures ec.authorizers[k] in s.authorizers
      {
        assert Passes(s.authorizers.Keys, answer, check, k);
      }
    }
  }

  /** No answers whatever lead a request to a missing name if and only if all
      the names that its endpoint lists are configured. */
  lemma NoMissingNamesExactly(s: Server, i: nat, verb: string)
    requires Routing.AuthorizersOk(s.Abstract()) && i < |s.endpoints|
    ensures (forall answer: Answers, n: nat :: StopsAt(s.authorizers.Keys, answer, CheckList(s.endpoints[i], verb), n) ==>
               CheckList(s.endpoints[i], verb)[n] in s.authorizers)
            <==> EndpointNamesConfigured(s, i)
  {
    var known, ec := s.authorizers.Keys, s.endpoints[i];
    var check := CheckList(ec, verb);
    if EndpointNamesConfigured(s, i) {
      forall answer: Answers, n: nat | StopsAt(known, answer, check, n)
        ensures check[n] in known
      {
        OnlyEndpointNamesCanBeMissing(s, i, verb, answer);
      }
    } else {
      var n := FirstMissing(known, ec.authorizers);
      var accepting: Answers := (k, name) => Accepts;
      assert StopsAt(known, accepting, check, n) && check[n] !in known;
    }
  }

  lemma FirstMissing(known: set<string>, names: seq<string>) returns (n: nat)
    requires exists k :: 0 <= k < |names| && names[k] !in known
    ensures n < |names| && names[n] !in known && forall k :: 0 <= k < n ==> names[k] in known
  {
    n := 0;
    while names[n] in known
      invariant n < |names| && forall k :: 0 <= k < n ==> names[k] in known
      decreases |names| - n
    {
      assert exists k :: n < k < |names| && names[k] !in known;
      n := n + 1;
    }
  }

  /** After `routes()` succeeded on freshly loaded parameters, a task sees a value
      for a name if and only if some declaration, of the endpoint if it has query
      parameters and else of the method, has a default for it or accepts the query
      value; and it is the accepted query value of the last such declaration, or
      else its default. */
  lemma QueriesAreLegitimate(s: Server, loaded: map<Param, Declaration>, order: Routing.Order, depth: nat,
                             i: nat, verb: string, query: string -> string)
    requires Routing.AlwaysValid(s.Abstract(), order) && Routing.Routes(s.Abstract(), [], order, [], depth).Done?
    requires loaded.Keys == s.Params() && forall p :: p in loaded ==> loaded[p].compiled == None
    requires s.SettledSince(s.Params(), loaded, s.Now()) && i < |s.endpoints|
    ensures var ec, values := s.endpoints[i], Read(ParamsFor(s.endpoints[i], verb), query);
            var q := if ec.queryParams != null then ec.queryParams
                     else if verb in ec.methods then ec.methods[verb].queryParams else null;
            if q == null then values == map[]
            else ParamsIn(q) <= s.Params() && ReadsExactly(s.compile, LoadedOf(s, q, loaded), query, values)
  {
    hide Settled, Collected, Routing.Routes, ReadsExactly;
    var q := ParamsFor(s.endpoints[i], verb);
    s.Owned(i);
    ParamsForOk(s, order, depth, i, verb);
    if q != null {
      AfterLoading(s, q, loaded);
      ValuesAreExact(s.compile, LoadedOf(s, q, loaded), Declarations(q.params), query);
    }
  }

  lemma ParamsForOk(s: Server, order: Routing.Order, depth: nat, i: nat, verb: string)
    requires Routing.AlwaysValid(s.Abstract(), order) && Routing.Routes(s.Abstract(), [], order, [], depth).Done?
    requires i < |s.endpoints|
    ensures s.ParamsOk(ParamsFor(s.endpoints[i], verb))
  {
    hide Routing.FromEndpoint, s.ParamsOk;
    s.AbstractFields();
    assert Routing.Valid(s.Abstract(), order, []);
    Listing.ParamsOkFrom(s.Abstract(), order, [], 0, depth);
  }

  /** The parameters as they were loaded. */
  ghost function LoadedOf(s: Server, q: QueryParams, loaded: map<Param, Declaration>): (ds: seq<Declaration>)
    requires ParamsIn(q) <= s.Params() == loaded.Keys
    ensures |ds| == |q.params| && forall k :: 0 <= k < |ds| ==> q.params[k] in loaded && ds[k] == loaded[q.params[k]]
  {
    assert forall k :: 0 <= k < |q.params| ==> q.params[k] in ParamsIn(q);
    seq(|q.params|, k requires 0 <= k < |q.params| => loaded[q.params[k]])
  }

  lemma AfterLoading(s: Server, q: QueryParams, loaded: map<Param, Declaration>)
    requires ParamsIn(q) <= s.Params() == loaded.Keys
    requires s.SettledSince(s.Params(), loaded, s.Now()) && s.ParamsOk(q)
    ensures forall k :: 0 <= k < |q.params| ==>
              Declarations(q.params)[k] == Settled(s.compile, LoadedOf(s, q, loaded)[k])
    ensures FirstError(s.compile, LoadedOf(s, q, loaded)) == None
  {
    hide Settled, Alike;
    var ds, before := Declarations(q.params), LoadedOf(s, q, loaded);
    forall k | 0 <= k < |ds|
      ensures ds[k] == Settled(s.compile, before[k]) && Alike(before[k], ds[k])
    {
      assert q.params[k] in s.Params();
      assert s.Now()[q.params[k]] == ds[k];
      SettledIsStable(s.compile, before[k]);
    }
    FirstErrorAlike(s.compile, before, ds);
  }
}
