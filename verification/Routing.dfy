/** The compilation of a configuration tree into routes: `routes`, which calls a
    factory per method, `InfoTaskFactory`, which calls `routes("info")` again,
    and `MultiTaskFactory`, which calls factories on embedded configurations.

    Calls nest without bound, so every call carries the stack space left (`depth`
    frames), and a run that needs more ends in `Overflow`. The order in which
    each activation of `routes` visits the methods of an endpoint, a Go map, is
    arbitrary: `order` gives it for every activation, named by its call path. */
module Routing {
  import opened Text
  import TaskItems

  // ---------------------------------------------------------------- configuration

  /** A raw message, as each factory that looks at it decodes it: an absent entry
      does not decode. */
  datatype Raw = Raw(lists: map<string, ItemList>, filesystem: bool, multi: Option<MultiConfig>)

  datatype ItemList = ItemList(items: seq<TaskItems.Item>, single: Option<int>)

  datatype MultiConfig = MultiConfig(tasks: seq<TaskConfig>, single: Option<int>)

  /** `paramsOk` is whether the query parameters, if any, validate. */
  datatype TaskConfig = TaskConfig(typ: string, authorizers: seq<string>, paramsOk: bool, raw: Raw)

  datatype Endpoint = Endpoint(path: string, paramsOk: bool, methods: map<string, TaskConfig>)

  /** `builds` is whether the factory accepts the configuration. */
  datatype AuthorizerConfig = AuthorizerConfig(typ: string, builds: bool)

  datatype Config = Config(authorizers: map<string, AuthorizerConfig>, endpoints: seq<Endpoint>, formats: set<string>)

  // ---------------------------------------------------------------- results

  datatype Tasker =
    | Leaf(typ: string, count: nat, index: int)
    | Files
    | Info(routes: seq<Route>)
    | Multi(tasks: seq<Tasker>, index: int)

  /** A route remembers which endpoint it came from. */
  datatype RouteOf<+T> = Route(endpoint: nat, path: string, verb: string, task: T)

  type Route = RouteOf<Tasker>

  datatype Error =
    | BadAuthorizers
    | BadParams
    | InvalidType
    | UnknownTask(typ: string)
    | TaskReturned(typ: string, cause: Error)
    | BadConfig
    | EmbeddedMulti

  datatype Outcome<+T> = Done(value: T) | Fails(e: Error) | Overflow

  type Order = (seq<nat>, nat) -> seq<string>

  const INFO: string := "info"
  const MULTI: string := "multi"
  const FILESYSTEM: string := "filesystem"
  const MYSQL: string := "mysql"
  const LISTS := {"cassandra", "http", "mysql", "postgres", "redis", "shell"}
  const BUILTIN := LISTS + {INFO, MULTI, FILESYSTEM}
  const AUTHORIZERS := {"basic", "ldap", "http"}

  predicate Valid(c: Config, order: Order, path: seq<nat>) {
    forall i :: 0 <= i < |c.endpoints| ==> Lists(order(path, i), c.endpoints[i].methods)
  }

  /** An enumeration of the methods, each once. */
  predicate Lists<V>(names: seq<string>, methods: map<string, V>) {
    && (forall j, k :: 0 <= j < k < |names| ==> names[j] != names[k])
    && (forall m :: m in methods ==> m in names)
    && (forall m :: m in names ==> m in methods)
  }

  ghost predicate AlwaysValid(c: Config, order: Order) {
    forall path :: Valid(c, order, path)
  }

  /** `GetAuthorizers` succeeds: every authorizer builds, and every one named by
      a method, though not by an endpoint, is configured. */
  predicate AuthorizersOk(c: Config) {
    && (forall n :: n in c.authorizers ==> c.authorizers[n].typ in AUTHORIZERS && c.authorizers[n].builds)
    && (forall i, m :: 0 <= i < |c.endpoints| && m in c.endpoints[i].methods ==>
          NamesKnown(c, c.endpoints[i].methods[m].authorizers))
  }

  predicate NamesKnown(c: Config, names: seq<string>) {
    forall k :: 0 <= k < |names| ==> names[k] in c.authorizers
  }

  // ---------------------------------------------------------------- factories

  predicate MultiAccepts(m: MultiConfig) {
    |m.tasks| > 0 && (m.single.Some? ==> m.single.value < |m.tasks|)
  }

  /** The factories that build a task from its configuration alone. */
  function LeafFactory(c: Config, typ: string, raw: Raw): Result<Tasker, Error> {
    if typ == FILESYSTEM then
      if raw.filesystem then Ok(Files) else Err(BadConfig)
    else if typ !in raw.lists then Err(BadConfig)
    else
      var list := raw.lists[typ];
      if typ == MYSQL then Ok(Leaf(typ, |list.items|, 0))
      else if TaskItems.Acceptable(c.formats, list.items, list.single) then
        Ok(Leaf(typ, |list.items|, TaskItems.IndexOf(list.single)))
      else Err(BadConfig)
  }

  function Factory(c: Config, typ: string, raw: Raw, order: Order, path: seq<nat>, depth: nat): Outcome<seq<Tasker>>
    requires AlwaysValid(c, order)
    decreases depth, 5, 0
  {
    if depth == 0 then Overflow
    else if typ == INFO then
      match Routes(c, [INFO], order, path, depth - 1)
      case Done(rs) => Done([Info(rs)])
      case Fails(e) => Fails(e)
      case Overflow => Overflow
    else if typ == MULTI then
      match raw.multi
      case None => Fails(BadConfig)
      case Some(m) =>
        if !MultiAccepts(m) then Fails(BadConfig)
        else match Embedded(c, m.tasks, order, path, depth)
          case Done(ts) => Done([Multi(ts, TaskItems.IndexOf(m.single))])
          case Fails(e) => Fails(e)
          case Overflow => Overflow
    else
      match LeafFactory(c, typ, raw)
      case Ok(t) => Done([t])
      case Err(e) => Fails(e)
  }

  /** The taskers of embedded configurations, in order. */
  function Embedded(c: Config, tasks: seq<TaskConfig>, order: Order, path: seq<nat>, depth: nat): Outcome<seq<Tasker>>
    requires AlwaysValid(c, order) && depth > 0
    decreases depth, 4, |tasks|
  {
    if tasks == [] then Done([])
    else if tasks[0].typ == MULTI then Fails(EmbeddedMulti)
    else match Compile(c, tasks[0], order, path + [|tasks|], depth)
      case Done(ts) => Prepend(ts, Embedded(c, tasks[1..], order, path, depth))
      case Fails(e) => Fails(e)
      case Overflow => Overflow
  }

  function Prepend<T>(ts: seq<T>, rest: Outcome<seq<T>>): Outcome<seq<T>> {
    match rest case Done(more) => Done(ts + more) case other => other
  }

  /** Validation of a task configuration, and the call of its factory. */
  function Compile(c: Config, tc: TaskConfig, order: Order, path: seq<nat>, depth: nat): Outcome<seq<Tasker>>
    requires AlwaysValid(c, order) && depth > 0
    decreases depth, 0, 0
  {
    var typ := TrimSpace(tc.typ);
    if typ == "" then Fails(InvalidType)
    else if !tc.paramsOk then Fails(BadParams)
    else if typ !in BUILTIN then Fails(UnknownTask(typ))
    else match Factory(c, typ, tc.raw, order, path, depth - 1)
      case Done(ts) => Done(ts)
      case Fails(e) => Fails(TaskReturned(typ, e))
      case Overflow => Overflow
  }

  // ---------------------------------------------------------------- routes

  function Routes(c: Config, ignored: seq<string>, order: Order, path: seq<nat>, depth: nat): Outcome<seq<Route>>
    requires AlwaysValid(c, order)
    decreases depth, 3, 0
  {
    if depth == 0 then Overflow
    else if !AuthorizersOk(c) then Fails(BadAuthorizers)
    else FromEndpoint(c, ignored, order, path, 0, depth)
  }

  function FromEndpoint(c: Config, ignored: seq<string>, order: Order, path: seq<nat>, i: nat,
                        depth: nat): Outcome<seq<Route>>
    requires AlwaysValid(c, order) && depth > 0 && i <= |c.endpoints|
    decreases depth, 2, |c.endpoints| - i
  {
    if i == |c.endpoints| then Done([])
    else match AtEndpoint(c, ignored, order, path, i, depth)
      case Done(rs) => Prepend(rs, FromEndpoint(c, ignored, order, path, i + 1, depth))
      case other => other
  }

  function AtEndpoint(c: Config, ignored: seq<string>, order: Order, path: seq<nat>, i: nat,
                      depth: nat): Outcome<seq<Route>>
    requires AlwaysValid(c, order) && depth > 0 && i < |c.endpoints|
    decreases depth, 1, |order(path, i)| + 1
  {
    if !c.endpoints[i].paramsOk then Fails(BadParams)
    else
      assert Valid(c, order, path);
      AtMethods(c, ignored, order, path, i, order(path, i), depth)
  }

  /** The methods still to visit. An ignored one ends the endpoint, and keeps
      the routes already made. */
  function AtMethods(c: Config, ignored: seq<string>, order: Order, path: seq<nat>, i: nat, names: seq<string>,
                     depth: nat)
    : Outcome<seq<Route>>
    requires AlwaysValid(c, order) && depth > 0 && i < |c.endpoints|
    requires forall m :: m in names ==> m in c.endpoints[i].methods
    decreases depth, 1, |names|
  {
    if names == [] then Done([])
    else
      var tc := c.endpoints[i].methods[names[0]];
      if tc.typ in ignored then Done([])
      else match Compile(c, tc, order, path + [i, |names|], depth)
        case Done(ts) =>
          Prepend(RoutesOf(c, i, names[0], ts), AtMethods(c, ignored, order, path, i, names[1..], depth))
        case Fails(e) => Fails(e)
        case Overflow => Overflow
  }

  /** One route per tasker; the built-in tasks add nothing to the path. */
  function RoutesOf(c: Config, i: nat, verb: string, tasks: seq<Tasker>): (rs: seq<Route>)
    requires i < |c.endpoints|
  {
    seq(|tasks|, k requires 0 <= k < |tasks| => Route(i, c.endpoints[i].path + "", verb, tasks[k]))
  }
}
