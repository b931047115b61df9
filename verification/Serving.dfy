/** The handlers that `router` makes of the routes of `routes()`. A route keeps
    the key of its method; the handler looks its endpoint's methods up again, by
    the verb of the request. */
module Serving {
  import opened Text
  import opened Responses
  import opened QueryParameters
  import opened Servers
  import opened Handlers
  import Routing
  import Listing
  import TaskItems
  import TaskRun

  /** What the handler sees of a run of a task: its response, or the value `e`
      it panics with. */
  function OutcomeOf(reply: TaskItems.Reply, e: Value): TaskOutcome {
    match reply case Panic => TaskPanics(e) case Answer(s) => Returns(s)
  }

  /** The handler belongs to a route: it has its endpoint, the server's
      authorizers, and runs its task, in a world that may depend on the request. */
  ghost predicate Serves(h: Setup, s: Server, route: Routing.Route, w: Params -> TaskRun.World, at: seq<nat>, e: Value)
    reads s
  {
    && route.endpoint < |s.endpoints| && h.ec == s.endpoints[route.endpoint]
    && h.known == s.authorizers.Keys
    && forall params :: h.run(params) == OutcomeOf(TaskRun.RunTask(h.text, w(params), route.task, at), e)
  }

  /** One of the routes of a successful `routes()`. */
  ghost predicate InTable(s: Server, order: Routing.Order, depth: nat, route: Routing.Route)
    reads s, s.Params()
  {
    && Routing.AlwaysValid(s.Abstract(), order) && Routing.Routes(s.Abstract(), [], order, [], depth).Done?
    && route in Routing.Routes(s.Abstract(), [], order, [], depth).value
  }

  lemma RouteOfTable(s: Server, order: Routing.Order, depth: nat, route: Routing.Route)
    requires InTable(s, order, depth, route)
    ensures Routing.AuthorizersOk(s.Abstract())
    ensures route.endpoint < |s.endpoints| && route.verb in s.endpoints[route.endpoint].methods
    ensures Listing.Shaped(TaskOf(s, route), route.task)
  {
    hide Routing.FromEndpoint, Listing.Ordered, Listing.Shaped;
    var c := s.Abstract();
    s.AbstractFields();
    Listing.OneRoutePerMethod(c, order, [], depth);
    var rs := Routing.Routes(c, [], order, [], depth).value;
    var k :| 0 <= k < |rs| && rs[k] == route;
    assert Listing.Faithful(c, rs[k]);
  }

  /** The configuration the route's task was made from. */
  ghost function TaskOf(s: Server, route: Routing.Route): Routing.TaskConfig
    requires route.endpoint < |s.endpoints| && route.verb in s.endpoints[route.endpoint].methods
    reads s, s.Params()
  {
    s.TaskOf(s.endpoints[route.endpoint].methods[route.verb])
  }

  // ---------------------------------------------------------------- failures

  /** From configuration to response: an authorized request for a route that
      `routes()` made is answered with the handler's 500 where the configuration
      of the route's task fails in the world, and with the task's response where
      not. Where no task crashes by itself a safe configuration is never answered
      so; where all entries are produced, exactly the unsafe ones are. */
  lemma FailuresAnswer500(s: Server, order: Routing.Order, depth: nat, route: Routing.Route,
                          h: Setup, r: Request, events: seq<Event>, w: Params -> TaskRun.World, at: seq<nat>, e: Value)
    requires InTable(s, order, depth, route) && Serves(h, s, route, w, at, e)
    requires Trace(h, r, events) && AllPass(h.known, h.answer, CheckList(h.ec, r.verb))
    ensures events != [] && route.verb in s.endpoints[route.endpoint].methods
    ensures var tc, params, last := TaskOf(s, route), ParamsOf(h, r), events[|events| - 1];
            && (TaskRun.FailsIn(w(params), tc, at) ==> last == Wrote(Crash(h, e)) && last.response.status == INTERNAL_ERROR)
            && (!TaskRun.FailsIn(w(params), tc, at) ==>
                  exists answer :: TaskRun.RunTask(h.text, w(params), route.task, at) == TaskItems.Answer(answer)
                                   && last == Wrote(WithParams(h, r.verb, answer, params)))
            && (TaskRun.Calm(w(params), route.task, at) && !TaskRun.Unsafe(tc) ==> !TaskRun.FailsIn(w(params), tc, at))
            && (TaskRun.Normal(w(params), route.task, at) ==> (TaskRun.FailsIn(w(params), tc, at) <==> TaskRun.Unsafe(tc)))
  {
    hide Read, CheckList, AllPass, TaskRun.RunTask, TaskRun.FailsIn, TaskRun.Unsafe, TaskRun.Calm, TaskRun.Normal;
    hide InTable, Listing.Shaped, TaskOf;
    RouteOfTable(s, order, depth, route);
    var tc, params := TaskOf(s, route), ParamsOf(h, r);
    TaskRun.PanicsInWorld(h.text, w(params), tc, route.task, at);
    TaskRun.CalmFailures(w(params), tc, route.task, at);
  }

  // ---------------------------------------------------------------- whose authorizers

  ghost predicate AcceptedName(known: set<string>, answer: Answers, check: seq<string>, name: string) {
    exists k :: 0 <= k < |check| && check[k] == name && Passes(known, answer, check, k)
  }

  /** Every one of these names is checked and accepted. */
  ghost predicate Accepted(known: set<string>, answer: Answers, check: seq<string>, names: seq<string>) {
    forall j :: 0 <= j < |names| ==> AcceptedName(known, answer, check, names[j])
  }

  predicate AllNamed(check: seq<string>, names: seq<string>) {
    forall j :: 0 <= j < |names| ==> names[j] in check
  }

  lemma AllNamedAccepted(known: set<string>, answer: Answers, check: seq<string>, names: seq<string>)
    requires AllPass(known, answer, check)
    ensures Accepted(known, answer, check, names) <==> AllNamed(check, names)
  {
    forall j | 0 <= j < |names|
      ensures AcceptedName(known, answer, check, names[j]) <==> names[j] in check
    {
      if names[j] in check {
        var k :| 0 <= k < |check| && check[k] == names[j];
        assert Passes(known, answer, check, k);
      } else {
        assert forall k :: 0 <= k < |check| ==> check[k] in check;
      }
    }
  }

  /** A request with verb `v` that passes has had every authorizer of method `m`
      consulted and accepted, whatever is configured and answered, if and only if
      the list checked for `v` names them all; so when `v` is the key `m` itself. */
  lemma MethodNamesCheckedExactly(ec: EndpointConfig, v: string, m: string)
    requires m in ec.methods
    ensures (forall known, answer :: AllPass(known, answer, CheckList(ec, v)) ==>
               Accepted(known, answer, CheckList(ec, v), ec.methods[m].authorizers))
            <==> AllNamed(CheckList(ec, v), ec.methods[m].authorizers)
    ensures v == m ==> AllNamed(CheckList(ec, v), ec.methods[m].authorizers)
  {
    hide AllPass, Accepted, AllNamed;
    var check, names := CheckList(ec, v), ec.methods[m].authorizers;
    forall known, answer | AllPass(known, answer, check)
      ensures Accepted(known, answer, check, names) <==> AllNamed(check, names)
    {
      AllNamedAccepted(known, answer, check, names);
    }
    var known, accepting: Answers := set k | 0 <= k < |check| :: check[k], (k, name) => Accepts;
    EverythingPasses(known, accepting, check);
    OwnVerbNames(ec, m);
  }

  lemma EverythingPasses(known: set<string>, answer: Answers, check: seq<string>)
    requires forall k :: 0 <= k < |check| ==> check[k] in known
    requires forall k, name :: answer(k, name) == Accepts
    ensures AllPass(known, answer, check)
  {
  }

  lemma OwnVerbNames(ec: EndpointConfig, m: string)
    requires m in ec.methods
    ensures AllNamed(CheckList(ec, m), ec.methods[m].authorizers)
  {
    var check, names := CheckList(ec, m), ec.methods[m].authorizers;
    forall j | 0 <= j < |names|
      ensures names[j] in check
    {
      assert check[|ec.authorizers| + j] == names[j];
    }
  }

  /** The task ran before one of these names was consulted and accepted. */
  ghost predicate RanWithout(h: Setup, names: seq<string>, events: seq<Event>) {
    exists k :: 0 <= k < |events| && events[k].Ran?
                && exists j :: 0 <= j < |names| && !AcceptedBefore(h, names[j], events, k)
  }

  ghost predicate AcceptedBefore(h: Setup, name: string, events: seq<Event>, k: nat)
    requires k <= |events|
  {
    exists i :: 0 <= i < k && events[i] == Consulted(name) && h.answer(i, name) == Accepts
  }

  /** Whose authorizers guard a route: whatever they answer, the task of a route
      runs only after every authorizer named by its own method was consulted and
      accepted, if and only if the list checked for the verb of the request names
      them all, or no request passes because the endpoint lists a name that is
      not configured. A key that is the verb itself is always guarded. */
  lemma OwnNamesGuardExactly(s: Server, order: Routing.Order, depth: nat, route: Routing.Route,
                             h: Setup, r: Request, w: Params -> TaskRun.World, at: seq<nat>, e: Value)
    requires InTable(s, order, depth, route) && Serves(h, s, route, w, at, e)
    ensures route.verb in h.ec.methods
    ensures (forall answer, events :: Trace(h.(answer := answer), r, events) ==>
               !RanWithout(h.(answer := answer), h.ec.methods[route.verb].authorizers, events))
            <==> AllNamed(CheckList(h.ec, r.verb), h.ec.methods[route.verb].authorizers)
                 || !EndpointNamesConfigured(s, route.endpoint)
    ensures r.verb == route.verb ==> AllNamed(CheckList(h.ec, r.verb), h.ec.methods[route.verb].authorizers)
  {
    hide InTable, Trace, RanWithout, AllPass, CheckList, AllNamed, Accepted, ParamsOf, Listing.Shaped;
    RouteOfTable(s, order, depth, route);
    OwnVerbNames(h.ec, route.verb);
    var check, names := CheckList(h.ec, r.verb), h.ec.methods[route.verb].authorizers;
    forall answer, events | Trace(h.(answer := answer), r, events)
      ensures RanWithout(h.(answer := answer), names, events) <==>
                AllPass(h.known, answer, check) && !AllNamed(check, names)
    {
      RanWithoutExactly(h.(answer := answer), r, names, events);
    }
    var accepting: Answers := (k, name) => Accepts;
    OnlyEndpointNamesCanBeMissing(s, route.endpoint, r.verb, accepting);
    if EndpointNamesConfigured(s, route.endpoint) {
      var events := PassingTrace(h.(answer := accepting), r);
    } else {
      forall answer
        ensures !AllPass(h.known, answer, check)
      {
        MissingNameStops(s, route.endpoint, r.verb, answer);
      }
    }
  }

  lemma MissingNameStops(s: Server, i: nat, v: string, answer: Answers)
    requires i < |s.endpoints| && !EndpointNamesConfigured(s, i)
    ensures !AllPass(s.authorizers.Keys, answer, CheckList(s.endpoints[i], v))
  {
    var k :| 0 <= k < |s.endpoints[i].authorizers| && s.endpoints[i].authorizers[k] !in s.authorizers;
    assert CheckList(s.endpoints[i], v)[k] !in s.authorizers;
    assert !Passes(s.authorizers.Keys, answer, CheckList(s.endpoints[i], v), k);
  }

  lemma PassingTrace(h: Setup, r: Request) returns (events: seq<Event>)
    requires AllPass(h.known, h.answer, CheckList(h.ec, r.verb))
    ensures Trace(h, r, events)
  {
    events := Consultations(CheckList(h.ec, r.verb)) + [Ran(ParamsOf(h, r)), Wrote(Answered(h, r.verb, ParamsOf(h, r)))];
  }

  lemma RanWithoutExactly(h: Setup, r: Request, names: seq<string>, events: seq<Event>)
    requires Trace(h, r, events)
    ensures RanWithout(h, names, events) <==>
              AllPass(h.known, h.answer, CheckList(h.ec, r.verb)) && !AllNamed(CheckList(h.ec, r.verb), names)
  {
    hide CheckList, Read;
    var check := CheckList(h.ec, r.verb);
    if AllPass(h.known, h.answer, check) {
      var n := |check|;
      assert events[n].Ran? && forall k :: 0 <= k < |events| && events[k].Ran? ==> k == n;
      forall j | 0 <= j < |names|
        ensures AcceptedBefore(h, names[j], events, n) <==> names[j] in check
      {
        if names[j] in check {
          var i :| 0 <= i < n && check[i] == names[j];
          assert Passes(h.known, h.answer, check, i);
          assert events[i] == Consulted(names[j]);
        } else {
          assert forall i :: 0 <= i < n ==> events[i] == Consulted(check[i]) && check[i] in check;
        }
      }
    } else {
      assert forall k :: 0 <= k < |events| ==> !events[k].Ran?;
    }
  }

  /** The failing family: a verb that is not itself a key of its endpoint, as
      when the key is `get` and the request a GET. No method's authorizers are
      consulted; without names at the endpoint nobody is, and the task runs. The
      method's query parameters are not read either, nor returned. */
  lemma UnknownVerbIsUnguarded(h: Setup, r: Request, events: seq<Event>)
    requires r.verb !in h.ec.methods && Trace(h, r, events)
    ensures CheckList(h.ec, r.verb) == h.ec.authorizers
    ensures h.ec.authorizers == [] ==> events == [Ran(ParamsOf(h, r)), Wrote(Answered(h, r.verb, ParamsOf(h, r)))]
    ensures h.ec.queryParams == null ==>
              && ParamsOf(h, r).query == map[]
              && forall answer :: h.run(ParamsOf(h, r)) == Returns(answer) ==> Answered(h, r.verb, ParamsOf(h, r)) == answer
  {
    assert CheckList(h.ec, r.verb) == h.ec.authorizers;
  }
}
