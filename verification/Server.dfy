/** The server's own `routes`, `GetAuthorizers` and task factories, on a
    configuration whose query parameters are objects validated in place. Every
    method is tied to the functions of `Routing` on the configuration as loaded:
    validating an endpoint again, or half-validating it, changes no later result. */
module Servers {
  import opened Text
  import opened Routing
  import opened QueryParameters
  import TaskItems

  /** A configured task. Copies of it share the query parameters. */
  datatype TaskConf = TaskConf(typ: string, authorizers: seq<string>, queryParams: QueryParams?, raw: Raw)

  class EndpointConfig {
    const path: string
    const authorizers: seq<string>
    const methods: map<string, TaskConf>
    const queryParams: QueryParams?

    constructor (path: string, authorizers: seq<string>, methods: map<string, TaskConf>, queryParams: QueryParams?)
      ensures this.path == path && this.authorizers == authorizers
      ensures this.methods == methods && this.queryParams == queryParams
    {
      this.path, this.authorizers, this.methods, this.queryParams := path, authorizers, methods, queryParams;
    }
  }

  ghost function ParamsIn(q: QueryParams?): set<Param> {
    if q == null then {} else set p | p in q.params
  }

  class Server {
    const authorizers: map<string, AuthorizerConfig>
    const endpoints: seq<EndpointConfig>
    const formats: set<string>
    const compile: Compiler

    constructor (authorizers: map<string, AuthorizerConfig>, endpoints: seq<EndpointConfig>, formats: set<string>,
                 compile: Compiler)
      ensures this.authorizers == authorizers && this.endpoints == endpoints
      ensures this.formats == formats && this.compile == compile
    {
      this.authorizers, this.endpoints, this.formats, this.compile := authorizers, endpoints, formats, compile;
    }

    /** The query parameters of endpoints and of their methods. */
    ghost function Params(): set<Param> {
      (set i, p | 0 <= i < |endpoints| && p in ParamsIn(endpoints[i].queryParams) :: p) +
      (set i, m, p | 0 <= i < |endpoints| && m in endpoints[i].methods && p in ParamsIn(endpoints[i].methods[m].queryParams) :: p)
    }

    ghost predicate Valid() {
      && (forall i :: 0 <= i < |endpoints| && endpoints[i].queryParams != null ==> endpoints[i].queryParams.Valid())
      && (forall i, m :: 0 <= i < |endpoints| && m in endpoints[i].methods && endpoints[i].methods[m].queryParams != null ==>
            endpoints[i].methods[m].queryParams.Valid())
    }

    // -------------------------------------------------------------- the abstract configuration

    ghost predicate ParamsOk(q: QueryParams?)
      reads ParamsIn(q)
    {
      q == null || FirstError(compile, Declarations(q.params)) == None
    }

    ghost function TaskOf(tc: TaskConf): TaskConfig
      reads ParamsIn(tc.queryParams)
    {
      TaskConfig(tc.typ, tc.authorizers, ParamsOk(tc.queryParams), tc.raw)
    }

    ghost function EndpointOf(i: nat): Endpoint
      requires i < |endpoints|
      reads Params()
    {
      Endpoint(endpoints[i].path, ParamsOk(endpoints[i].queryParams),
               map m | m in endpoints[i].methods :: TaskOf(endpoints[i].methods[m]))
    }

    ghost function Abstract(): Config
      reads Params()
    {
      Config(authorizers, seq(|endpoints|, i requires 0 <= i < |endpoints| reads Params() => EndpointOf(i)), formats)
    }

    /** The parameters at this moment. */
    ghost function Now(): (now: map<Param, Declaration>)
      reads Params()
      ensures now.Keys == Params()
    {
      map p | p in Params() :: p.Now()
    }

    /** What any number of validations, whole or interrupted, may do. */
    ghost predicate Drift(before: map<Param, Declaration>, after: map<Param, Declaration>) {
      before.Keys == after.Keys && forall p :: p in before ==> Moved(compile, before[p], after[p])
    }

    lemma DriftTwice(a: map<Param, Declaration>, b: map<Param, Declaration>, c: map<Param, Declaration>)
      requires Drift(a, b) && Drift(b, c)
      ensures Drift(a, c)
    {
      forall p | p in a
        ensures Moved(compile, a[p], c[p])
      {
        MovedTwice(compile, a[p], b[p], c[p]);
      }
    }

    /** Validated since `before`. */
    ghost predicate SettledSince(ps: set<Param>, before: map<Param, Declaration>, now: map<Param, Declaration>) {
      forall p :: p in ps ==> p in before && p in now && now[p] == Settled(compile, before[p])
    }

    lemma SettledLater(ps: set<Param>, a: map<Param, Declaration>, b: map<Param, Declaration>, c: map<Param,
                       Declaration>)
      requires Drift(a, b) && Drift(b, c)
      ensures SettledSince(ps, a, b) ==> SettledSince(ps, a, c)
      ensures SettledSince(ps, b, c) ==> SettledSince(ps, a, c)
    {
      if SettledSince(ps, a, b) {
        forall p | p in ps
          ensures p in c && c[p] == Settled(compile, a[p])
        {
          SettledStays(compile, a[p], b[p], c[p]);
        }
      }
    }

    lemma Owned(i: nat)
      requires i < |endpoints|
      ensures ParamsIn(endpoints[i].queryParams) <= Params()
      ensures forall m :: m in endpoints[i].methods ==> ParamsIn(endpoints[i].methods[m].queryParams) <= Params()
    {
    }

    twostate lemma ParamsOkStable(q: QueryParams?)
      requires ParamsIn(q) <= Params() && Drift(old(Now()), Now())
      ensures ParamsOk(q) == old(ParamsOk(q))
    {
      if q != null {
        forall k | 0 <= k < |q.params|
          ensures Moved(compile, old(Declarations(q.params))[k], Declarations(q.params)[k])
        {
          assert q.params[k] in ParamsIn(q);
          assert Now()[q.params[k]] == q.params[k].Now();
        }
        FirstErrorAlike(compile, old(Declarations(q.params)), Declarations(q.params));
      }
    }

    twostate lemma EndpointStable(i: nat)
      requires i < |endpoints| && Drift(old(Now()), Now())
      ensures EndpointOf(i) == old(EndpointOf(i))
    {
      hide Moved, ParamsOk, Drift, Params, ParamsIn;
      Owned(i);
      ParamsOkStable(endpoints[i].queryParams);
      forall m | m in endpoints[i].methods
        ensures TaskOf(endpoints[i].methods[m]) == old(TaskOf(endpoints[i].methods[m]))
      {
        ParamsOkStable(endpoints[i].methods[m].queryParams);
      }
    }

    /** Validation does not change the configuration that routes are made from. */
    twostate lemma AbstractStable()
      requires Drift(old(Now()), Now())
      ensures Abstract() == old(Abstract())
    {
      hide EndpointOf, Drift;
      forall i | 0 <= i < |endpoints|
        ensures EndpointOf(i) == old(EndpointOf(i))
      {
        EndpointStable(i);
      }
    }

    // -------------------------------------------------------------- GetAuthorizers

    /** The two halves of the check, on the server's own fields. */
    ghost predicate AuthorizersBuild() {
      forall n :: n in authorizers ==> authorizers[n].typ in AUTHORIZERS && authorizers[n].builds
    }

    ghost predicate EndpointNamesKnown(i: nat)
      requires i < |endpoints|
    {
      forall m :: m in endpoints[i].methods ==> AllIn(endpoints[i].methods[m].authorizers, authorizers.Keys)
    }

    ghost predicate AllIn(names: seq<string>, known: set<string>) {
      forall k :: 0 <= k < |names| ==> names[k] in known
    }

    lemma NamesAt(i: nat)
      requires i < |endpoints|
      ensures EndpointNamesKnown(i) <==>
                forall m :: m in Abstract().endpoints[i].methods ==>
                  NamesKnown(Abstract(), Abstract().endpoints[i].methods[m].authorizers)
    {
      var c := Abstract();
      assert c.endpoints[i] == EndpointOf(i) && c.authorizers == authorizers;
      forall m | m in endpoints[i].methods
        ensures c.endpoints[i].methods[m].authorizers == endpoints[i].methods[m].authorizers
      {
      }
    }

    lemma AuthorizersOkMeans()
      ensures AuthorizersOk(Abstract()) <==>
                AuthorizersBuild() && forall i :: 0 <= i < |endpoints| ==> EndpointNamesKnown(i)
    {
      hide EndpointNamesKnown, EndpointOf, NamesKnown;
      forall i | 0 <= i < |endpoints|
        ensures EndpointNamesKnown(i) <==>
                  forall m :: m in Abstract().endpoints[i].methods ==>
                    NamesKnown(Abstract(), Abstract().endpoints[i].methods[m].authorizers)
      {
        NamesAt(i);
      }
    }

    method BuildAuthorizers() returns (ok: bool, built: set<string>)
      ensures ok <==> AuthorizersBuild()
      ensures ok ==> built == authorizers.Keys
    {
      built := {};
      var rest := authorizers.Keys;
      while rest != {}
        invariant rest !! built && rest + built == authorizers.Keys
        invariant forall n :: n in built ==> authorizers[n].typ in AUTHORIZERS && authorizers[n].builds
        decreases |rest|
      {
        var an :| an in rest;
        var ac := authorizers[an];
        if ac.typ !in AUTHORIZERS || !ac.builds {
          return false, built;
        }
        built, rest := built + {an}, rest - {an};
      }
      ok := true;
    }

    method CheckNames(i: nat, built: set<string>) returns (ok: bool)
      requires i < |endpoints| && built == authorizers.Keys
      ensures ok <==> EndpointNamesKnown(i)
    {
      var methods := endpoints[i].methods;
      var rest := methods.Keys;
      while rest != {}
        invariant rest <= methods.Keys
        invariant forall m :: m in methods && m !in rest ==> AllIn(methods[m].authorizers, built)
        decreases |rest|
      {
        var verb :| verb in rest;
        var names := methods[verb].authorizers;
        for k := 0 to |names|
          invariant AllIn(names[..k], built)
        {
          if names[k] !in built {
            assert !AllIn(names, built);
            return false;
          }
        }
        assert names[..|names|] == names;
        rest := rest - {verb};
      }
      ok := true;
    }

    /** `GetAuthorizers`, whatever the orders in which its maps are visited. */
    method GetAuthorizers() returns (ok: bool, built: set<string>)
      ensures ok <==> AuthorizersOk(Abstract())
      ensures ok ==> built == authorizers.Keys
    {
      hide AuthorizersOk, AuthorizersBuild, EndpointNamesKnown, Abstract;
      ok, built := BuildAuthorizers();
      AuthorizersOkMeans();
      if !ok {
        return;
      }
      for i := 0 to |endpoints|
        invariant ok && forall j :: 0 <= j < i ==> EndpointNamesKnown(j)
      {
        ok := CheckNames(i, built);
        if !ok {
          AuthorizersOkMeans();
          return;
        }
      }
      AuthorizersOkMeans();
    }

    // -------------------------------------------------------------- factories

    /** Validates query parameters in place, if there are any. */
    method ValidateParams(ghost c: Config, q: QueryParams?) returns (ok: bool)
      requires (q != null ==> q.Valid()) && ParamsIn(q) <= Params() && c == Abstract()
      modifies Params()
      ensures ok == old(ParamsOk(q))
      ensures Drift(old(Now()), Now()) && Abstract() == c
      ensures ok ==> SettledSince(ParamsIn(q), old(Now()), Now())
    {
      hide Moved, Settled, Abstract;
      ghost var before := Now();
      if q == null {
        DriftSame(before);
        return true;
      }
      ghost var ds := Declarations(q.params);
      var err := q.Validate(compile);
      DriftBy(q, before, ds, Now(), Declarations(q.params));
      AbstractStable();
      ok := err == None;
    }

    lemma DriftSame(a: map<Param, Declaration>)
      ensures Drift(a, a)
    {
      forall p | p in a
        ensures Moved(compile, a[p], a[p])
      {
        MovedAtMost(compile, a[p]);
      }
    }

    lemma DriftBy(q: QueryParams, a: map<Param, Declaration>, ds: seq<Declaration>, b: map<Param, Declaration>,
                  ds': seq<Declaration>)
      requires a.Keys == b.Keys && ParamsIn(q) <= a.Keys
      requires |ds| == |ds'| == |q.params|
      requires forall k :: 0 <= k < |q.params| ==> a[q.params[k]] == ds[k] && b[q.params[k]] == ds'[k]
      requires forall k :: 0 <= k < |ds| ==> Moved(compile, ds[k], ds'[k])
      requires forall p :: p in a && p !in ParamsIn(q) ==> b[p] == a[p]
      ensures Drift(a, b)
      ensures Progress(compile, ds, ds', |ds|) ==> SettledSince(ParamsIn(q), a, b)
    {
      hide Moved, Settled;
      DriftSame(a);
      forall p | p in a
        ensures Moved(compile, a[p], b[p])
      {
        if p in ParamsIn(q) {
          var k :| 0 <= k < |q.params| && q.params[k] == p;
        }
      }
    }

    /** Loads the configuration of a task that works through items. */
    method LoadItems(typ: string, list: ItemList) returns (ok: bool, count: nat, index: int)
      requires typ in LISTS
      ensures ok <==> typ == MYSQL || TaskItems.Acceptable(formats, list.items, list.single)
      ensures ok ==> count == |list.items| && index == if typ == MYSQL then 0 else TaskItems.IndexOf(list.single)
    {
      hide TaskItems.Acceptable;
      var config := new TaskItems.ItemsConfig(KindOf(typ), list.items, list.single, false);
      var err := config.Load(formats);
      ok, count, index := err == None, |config.items|, config.singleResultIndex;
    }

    static lemma LeafIsFactory(c: Config, typ: string, raw: Raw, order: Order, path: seq<nat>, depth: nat)
      requires AlwaysValid(c, order) && depth > 0 && typ in LISTS + {FILESYSTEM}
      ensures Factory(c, typ, raw, order, path, depth)
           == match LeafFactory(c, typ, raw) case Ok(t) => Done([t]) case Err(e) => Outcome.Fails(e)
    {
      hide AlwaysValid, LeafFactory;
    }

    /** The factories of those tasks, and of `filesystem`. */
    method BuildLeaf(ghost c: Config, typ: string, raw: Raw, order: Order, path: seq<nat>, depth: nat)
      returns (r: Outcome<seq<Tasker>>)
      requires c == Abstract() && AlwaysValid(c, order) && depth > 0 && typ in LISTS + {FILESYSTEM}
      modifies Params()
      ensures r == Factory(c, typ, raw, order, path, depth)
      ensures Drift(old(Now()), Now()) && Abstract() == c
    {
      hide Drift, Abstract, AlwaysValid, Factory, TaskItems.Acceptable;
      LeafIsFactory(c, typ, raw, order, path, depth);
      assert c.formats == formats by { AbstractFields(); }
      DriftSame(Now());
      if typ == FILESYSTEM {
        return if raw.filesystem then Done([Files]) else Fails(BadConfig);
      }
      if typ !in raw.lists {
        return Fails(BadConfig);
      }
      var ok, count, index := LoadItems(typ, raw.lists[typ]);
      r := if ok then Done([Leaf(typ, count, index)]) else Fails(BadConfig);
    }

    /** `MultiTaskFactory` from the point where its configuration is decoded. */
    method BuildMulti(ghost c: Config, raw: Raw, m: MultiConfig, order: Order, path: seq<nat>, depth: nat)
      returns (r: Outcome<seq<Tasker>>)
      requires Valid() && c == Abstract() && AlwaysValid(c, order) && depth > 0 && raw.multi == Some(m)
      modifies Params()
      ensures r == Factory(c, MULTI, raw, order, path, depth)
      ensures Drift(old(Now()), Now()) && Abstract() == c
      decreases depth, 4
    {
      hide Drift, Abstract, AlwaysValid, Compile;
      DriftSame(Now());
      if |m.tasks| == 0 {
        return Fails(BadConfig);
      }
      if m.single.Some? && m.single.value > |m.tasks| - 1 {
        return Fails(BadConfig);
      }
      var tasks: seq<Tasker> := [];
      assert m.tasks[0..] == m.tasks;
      PrependNone(Embedded(c, m.tasks, order, path, depth));
      for k := 0 to |m.tasks|
        invariant Prepend(tasks, Embedded(c, m.tasks[k..], order, path, depth)) == Embedded(c, m.tasks, order, path, depth)
        invariant Drift(old(Now()), Now()) && Abstract() == c
      {
        var mtc := m.tasks[k];
        var rest := m.tasks[k..];
        assert rest[1..] == m.tasks[k + 1..];
        if mtc.typ == MULTI {
          return Fails(EmbeddedMulti);
        }
        ghost var mid := Now();
        var built := CompileEmbedded(c, mtc, order, path + [|m.tasks| - k], depth);
        DriftTwice(old(Now()), mid, Now());
        match built {
          case Done(ts) =>
            PrependTwice(tasks, ts, Embedded(c, m.tasks[k + 1..], order, path, depth));
            tasks := tasks + ts;
          case Fails(e) => return Fails(e);
          case Overflow => return Overflow;
        }
      }
      PrependNone(Embedded(c, m.tasks[|m.tasks|..], order, path, depth));
      r := Done([Multi(tasks, TaskItems.IndexOf(m.single))]);
    }

    /** `InfoTaskFactory`: the routes of the server, `info` tasks ignored. */
    method BuildInfo(ghost c: Config, raw: Raw, order: Order, path: seq<nat>,
                     depth: nat) returns (r: Outcome<seq<Tasker>>)
      requires Valid() && c == Abstract() && AlwaysValid(c, order) && depth > 0
      modifies Params()
      ensures r == Factory(c, INFO, raw, order, path, depth)
      ensures Drift(old(Now()), Now()) && Abstract() == c
      decreases depth, 4
    {
      hide Drift, Abstract, AlwaysValid, Routing.Routes, Params;
      var routes := Routes(c, [INFO], order, path, depth - 1);
      match routes
      case Done(rs) => r := Done([Info(rs)]);
      case Fails(e) => r := Fails(e);
      case Overflow => r := Overflow;
    }

    /** A call of a factory, which takes a stack frame. */
    method CallFactory(ghost c: Config, typ: string, raw: Raw, order: Order, path: seq<nat>, depth: nat)
      returns (r: Outcome<seq<Tasker>>)
      requires Valid() && c == Abstract() && AlwaysValid(c, order) && typ in BUILTIN
      modifies Params()
      ensures r == Factory(c, typ, raw, order, path, depth)
      ensures Drift(old(Now()), Now()) && Abstract() == c
      decreases depth, 5
    {
      hide Drift, Abstract, AlwaysValid, Embedded, Routing.Routes, LeafFactory, MultiAccepts, Params;
      DriftSame(Now());
      if depth == 0 {
        return Overflow;
      }
      if typ == INFO {
        r := BuildInfo(c, raw, order, path, depth);
      } else if typ == MULTI {
        match raw.multi
        case None => r := Fails(BadConfig);
        case Some(m) => r := BuildMulti(c, raw, m, order, path, depth);
      } else {
        r := BuildLeaf(c, typ, raw, order, path, depth);
      }
    }

    lemma AbstractFields()
      ensures Abstract().formats == formats && |Abstract().endpoints| == |endpoints|
      ensures forall i :: 0 <= i < |endpoints| ==>
                && Abstract().endpoints[i].path == endpoints[i].path
                && Abstract().endpoints[i].paramsOk == ParamsOk(endpoints[i].queryParams)
                && Abstract().endpoints[i].methods.Keys == endpoints[i].methods.Keys
                && forall m :: m in endpoints[i].methods ==> Abstract().endpoints[i].methods[m] == TaskOf(endpoints[i].methods[m])
    {
    }

    /** Looks up the factory and calls it, naming the task in its error. */
    method LookupAndCall(ghost c: Config, typ: string, raw: Raw, order: Order, path: seq<nat>, depth: nat)
      returns (r: Outcome<seq<Tasker>>)
      requires Valid() && c == Abstract() && AlwaysValid(c, order) && depth > 0
      modifies Params()
      ensures r == if typ !in BUILTIN then Outcome.Fails(UnknownTask(typ))
                   else Blame(typ, Factory(c, typ, raw, order, path, depth - 1))
      ensures Drift(old(Now()), Now()) && Abstract() == c
      decreases depth, 0
    {
      hide Drift, Abstract, AlwaysValid, Factory;
      DriftSame(Now());
      if typ !in BUILTIN {
        return Fails(UnknownTask(typ));
      }
      var built := CallFactory(c, typ, raw, order, path, depth - 1);
      if built.Fails? {
        return Fails(TaskReturned(typ, built.e));
      }
      r := built;
    }

    /** An embedded configuration: freshly decoded, so nothing shared changes. */
    method CompileEmbedded(ghost c: Config, tc: TaskConfig, order: Order, path: seq<nat>, depth: nat)
      returns (r: Outcome<seq<Tasker>>)
      requires Valid() && c == Abstract() && AlwaysValid(c, order) && depth > 0
      modifies Params()
      ensures r == Compile(c, tc, order, path, depth)
      ensures Drift(old(Now()), Now()) && Abstract() == c
      decreases depth, 1
    {
      hide Drift, Abstract, AlwaysValid, Factory;
      DriftSame(Now());
      var typ := TrimSpace(tc.typ);
      if typ == "" {
        return Fails(InvalidType);
      }
      if !tc.paramsOk {
        return Fails(BadParams);
      }
      r := LookupAndCall(c, typ, tc.raw, order, path, depth);
    }

    /** A method's configuration: the loop variable is a copy of the map entry, so
        its trimmed type is lost, but its query parameters are the shared ones. */
    method CompileMethod(ghost c: Config, taskconf: TaskConf, order: Order, path: seq<nat>, depth: nat)
      returns (r: Outcome<seq<Tasker>>)
      requires Valid() && c == Abstract() && AlwaysValid(c, order) && depth > 0
      requires ParamsIn(taskconf.queryParams) <= Params()
      requires taskconf.queryParams != null ==> taskconf.queryParams.Valid()
      modifies Params()
      ensures r == Compile(c, old(TaskOf(taskconf)), order, path, depth)
      ensures Drift(old(Now()), Now()) && Abstract() == c
      ensures r.Done? ==> SettledSince(ParamsIn(taskconf.queryParams), old(Now()), Now())
      decreases depth, 1
    {
      hide Drift, Abstract, AlwaysValid, Factory, SettledSince, ParamsOk;
      DriftSame(Now());
      var typ := TrimSpace(taskconf.typ);
      if typ == "" {
        return Fails(InvalidType);
      }
      var ok := ValidateParams(c, taskconf.queryParams);
      if !ok {
        return Fails(BadParams);
      }
      ghost var mid := Now();
      r := LookupAndCall(c, typ, taskconf.raw, order, path, depth);
      DriftTwice(old(Now()), mid, Now());
      SettledLater(ParamsIn(taskconf.queryParams), old(Now()), mid, Now());
    }

    // -------------------------------------------------------------- routes

    ghost function MethodParams(i: nat, names: seq<string>): set<Param>
      requires i < |endpoints| && forall m :: m in names ==> m in endpoints[i].methods
    {
      set m, p | m in names && p in ParamsIn(endpoints[i].methods[m].queryParams) :: p
    }

    lemma MethodParamsOf(i: nat, names: seq<string>, p: Param)
      requires i < |endpoints| && forall m :: m in names ==> m in endpoints[i].methods
      ensures p in MethodParams(i, names) <==>
                exists k :: 0 <= k < |names| && p in ParamsIn(endpoints[i].methods[names[k]].queryParams)
    {
      if k :| 0 <= k < |names| && p in ParamsIn(endpoints[i].methods[names[k]].queryParams) {
        assert names[k] in names;
      }
    }

    lemma MethodSettled(i: nat, names: seq<string>, j: nat, a: map<Param, Declaration>, b: map<Param, Declaration>,
                        c: map<Param, Declaration>)
      requires i < |endpoints| && j < |names| && forall m :: m in names ==> m in endpoints[i].methods
      requires Drift(a, b) && Drift(b, c)
      requires SettledSince(MethodParams(i, names[..j]), a, b)
      requires SettledSince(ParamsIn(endpoints[i].methods[names[j]].queryParams), b, c)
      ensures SettledSince(MethodParams(i, names[..j + 1]), a, c)
    {
      hide Drift, Settled, MethodParams, ParamsIn;
      SettledLater(MethodParams(i, names[..j]), a, b, c);
      SettledLater(ParamsIn(endpoints[i].methods[names[j]].queryParams), a, b, c);
      forall p | p in MethodParams(i, names[..j + 1])
        ensures p in MethodParams(i, names[..j]) || p in ParamsIn(endpoints[i].methods[names[j]].queryParams)
      {
        MethodParamsOf(i, names[..j + 1], p);
        MethodParamsOf(i, names[..j], p);
        var k :| 0 <= k < j + 1 && p in ParamsIn(endpoints[i].methods[names[..j + 1][k]].queryParams);
        if k < j { assert names[..j][k] == names[k]; }
      }
    }

    /** The innermost loop: a route for every tasker. */
    method RoutesOfTaskers(ghost c: Config, i: nat, verb: string, tasks: seq<Tasker>) returns (routes: seq<Route>)
      requires i < |endpoints| == |c.endpoints| && endpoints[i].path == c.endpoints[i].path
      ensures routes == RoutesOf(c, i, verb, tasks)
      ensures Abstract() == old(Abstract()) && Now() == old(Now())
    {
      routes := [];
      ghost var all := RoutesOf(c, i, verb, tasks);
      for k := 0 to |tasks|
        invariant routes == all[..k]
      {
        routes := routes + [Route(i, endpoints[i].path + "", verb, tasks[k])];
      }
      assert all[..|tasks|] == all;
    }

    /** The body of the loop over the methods, for one that is not ignored. */
    method RoutesFor(ghost c: Config, order: Order, path: seq<nat>, i: nat, verb: string, depth: nat)
      returns (r: Outcome<seq<Route>>)
      requires Valid() && c == Abstract() && AlwaysValid(c, order) && depth > 0 && i < |endpoints| == |c.endpoints|
      requires verb in endpoints[i].methods && verb in c.endpoints[i].methods
      modifies Params()
      ensures r == match Compile(c, c.endpoints[i].methods[verb], order, path, depth)
                   case Done(ts) => Done(RoutesOf(c, i, verb, ts))
                   case Fails(e) => Outcome.Fails(e)
                   case Overflow => Outcome.Overflow
      ensures Drift(old(Now()), Now()) && Abstract() == c
      ensures r.Done? ==> SettledSince(ParamsIn(endpoints[i].methods[verb].queryParams), old(Now()), Now())
      decreases depth, 2, 0
    {
      hide Drift, Abstract, AlwaysValid, Compile, SettledSince, ParamsOk, RoutesOf, Params, ParamsIn;
      Owned(i);
      AbstractFields();
      var compiled := CompileMethod(c, endpoints[i].methods[verb], order, path, depth);
      match compiled
      case Fails(e) => r := Fails(e);
      case Overflow => r := Overflow;
      case Done(tasks) =>
        var routes := RoutesOfTaskers(c, i, verb, tasks);
        r := Done(routes);
    }

    /** The loop over the methods of a validated endpoint. An ignored method ends it. */
    method MethodRoutes(ghost c: Config, ignored: seq<string>, order: Order, path: seq<nat>, i: nat,
                        names: seq<string>, depth: nat)
      returns (r: Outcome<seq<Route>>)
      requires Valid() && c == Abstract() && AlwaysValid(c, order) && depth > 0 && i < |endpoints| == |c.endpoints|
      requires forall m :: m in names ==> m in endpoints[i].methods && m in c.endpoints[i].methods
      modifies Params()
      ensures r == AtMethods(c, ignored, order, path, i, names, depth)
      ensures Drift(old(Now()), Now()) && Abstract() == c
      ensures r.Done? && ignored == [] ==> SettledSince(MethodParams(i, names), old(Now()), Now())
      decreases depth, 2, 1
    {
      hide Drift, Abstract, AlwaysValid, Compile, SettledSince, MethodParams, RoutesOf, Params, Prepend;
      DriftSame(Now());
      NoneSettled(i, old(Now()));
      var econfig := endpoints[i];
      var all: seq<Route> := [];
      assert names[0..] == names && names[..0] == [];
      PrependNone(AtMethods(c, ignored, order, path, i, names, depth));
      for j := 0 to |names|
        invariant Prepend(all, AtMethods(c, ignored, order, path, i, names[j..], depth))
               == AtMethods(c, ignored, order, path, i, names, depth)
        invariant Drift(old(Now()), Now()) && Abstract() == c
        invariant ignored == [] ==> SettledSince(MethodParams(i, names[..j]), old(Now()), Now())
      {
        ghost var rest, now := names[j..], Now();
        assert rest[1..] == names[j + 1..] && rest[0] == names[j] && names[j] in names;
        assert c.endpoints[i].methods[names[j]].typ == econfig.methods[names[j]].typ by { AbstractFields(); }
        PrependNone(AtMethods(c, ignored, order, path, i, rest, depth));
        if econfig.methods[names[j]].typ in ignored {
          return Done(all);
        }
        var some := RoutesFor(c, order, path + [i, |names| - j], i, names[j], depth);
        DriftTwice(old(Now()), now, Now());
        match some {
          case Done(rs) =>
            if ignored == [] { MethodSettled(i, names, j, old(Now()), now, Now()); }
            PrependTwice(all, rs, AtMethods(c, ignored, order, path, i, names[j + 1..], depth));
            all := all + rs;
          case Fails(e) => return Fails(e);
          case Overflow => return Overflow;
        }
      }
      assert names[..|names|] == names;
      PrependNone(AtMethods(c, ignored, order, path, i, names[|names|..], depth));
      r := Done(all);
    }

    lemma NoneSettled(i: nat, a: map<Param, Declaration>)
      requires i < |endpoints|
      ensures SettledSince(MethodParams(i, []), a, a)
    {
    }

    lemma EndpointSettled(i: nat, names: seq<string>, a: map<Param, Declaration>, b: map<Param, Declaration>,
                          c: map<Param, Declaration>)
      requires i < |endpoints| && Lists(names, endpoints[i].methods)
      requires Drift(a, b) && Drift(b, c)
      requires SettledSince(ParamsIn(endpoints[i].queryParams), a, b)
      requires SettledSince(MethodParams(i, names), b, c)
      ensures SettledSince(EndpointParams(i), a, c)
    {
      SettledLater(ParamsIn(endpoints[i].queryParams), a, b, c);
      SettledLater(MethodParams(i, names), a, b, c);
      hide Drift, Settled;
      assert EndpointParams(i) == ParamsIn(endpoints[i].queryParams) + MethodParams(i, names);
    }

    /** One round of the loop over the endpoints. */
    method EndpointRoutes(ghost c: Config, ignored: seq<string>, order: Order, path: seq<nat>, i: nat, depth: nat)
      returns (r: Outcome<seq<Route>>)
      requires Valid() && c == Abstract() && AlwaysValid(c, order) && depth > 0 && i < |endpoints|
      modifies Params()
      ensures |c.endpoints| == |endpoints| && r == AtEndpoint(c, ignored, order, path, i, depth)
      ensures Drift(old(Now()), Now()) && Abstract() == c
      ensures r.Done? && ignored == [] ==> SettledSince(EndpointParams(i), old(Now()), Now())
      decreases depth, 2, 2
    {
      hide Drift, Abstract, AtMethods, SettledSince, ParamsOk, Params, MethodParams, EndpointParams;
      AbstractFields();
      Owned(i);
      assert Routing.Valid(c, order, path);
      var ok := ValidateParams(c, endpoints[i].queryParams);
      if !ok {
        return Fails(BadParams);
      }
      ghost var mid := Now();
      assert Lists(order(path, i), endpoints[i].methods);
      r := MethodRoutes(c, ignored, order, path, i, order(path, i), depth);
      DriftTwice(old(Now()), mid, Now());
      if r.Done? && ignored == [] { EndpointSettled(i, order(path, i), old(Now()), mid, Now()); }
    }

    lemma EndpointsSettled(i: nat, a: map<Param, Declaration>, b: map<Param, Declaration>, c: map<Param, Declaration>)
      requires i < |endpoints| && Drift(a, b) && Drift(b, c)
      requires forall j :: 0 <= j < i ==> SettledSince(EndpointParams(j), a, b)
      requires SettledSince(EndpointParams(i), b, c)
      ensures forall j :: 0 <= j <= i ==> SettledSince(EndpointParams(j), a, c)
    {
      hide Drift, SettledSince, EndpointParams;
      forall j | 0 <= j <= i
        ensures SettledSince(EndpointParams(j), a, c)
      {
        SettledLater(EndpointParams(j), a, b, c);
      }
    }

    /** `routes`, with the visiting orders and the stack it is given. When it
        succeeds ignoring nothing, every query parameter is left validated,
        those of the methods too. */
    method Routes(ghost c: Config, ignored: seq<string>, order: Order, path: seq<nat>, depth: nat)
      returns (r: Outcome<seq<Route>>)
      requires Valid() && c == Abstract() && AlwaysValid(c, order)
      modifies Params()
      ensures r == Routing.Routes(c, ignored, order, path, depth)
      ensures Drift(old(Now()), Now()) && Abstract() == c
      ensures r.Done? && ignored == [] ==> SettledSince(Params(), old(Now()), Now())
      decreases depth, 3
    {
      hide Drift, Abstract, AlwaysValid, AtEndpoint, AuthorizersOk, SettledSince, EndpointParams;
      DriftSame(Now());
      if depth == 0 {
        return Overflow;
      }
      var ok, built := GetAuthorizers();
      if !ok {
        return Fails(BadAuthorizers);
      }
      AbstractFields();
      var routes: seq<Route> := [];
      PrependNone(FromEndpoint(c, ignored, order, path, 0, depth));
      for i := 0 to |endpoints|
        invariant Prepend(routes, FromEndpoint(c, ignored, order, path, i, depth))
               == FromEndpoint(c, ignored, order, path, 0, depth)
        invariant Drift(old(Now()), Now()) && Abstract() == c
        invariant ignored == [] ==> forall j :: 0 <= j < i ==> SettledSince(EndpointParams(j), old(Now()), Now())
      {
        ghost var mid := Now();
        var some := EndpointRoutes(c, ignored, order, path, i, depth);
        DriftTwice(old(Now()), mid, Now());
        match some {
          case Done(rs) =>
            if ignored == [] { EndpointsSettled(i, old(Now()), mid, Now()); }
            PrependTwice(routes, rs, FromEndpoint(c, ignored, order, path, i + 1, depth));
            routes := routes + rs;
          case Fails(e) => return Fails(e);
          case Overflow => return Overflow;
        }
      }
      PrependNone(FromEndpoint(c, ignored, order, path, |endpoints|, depth));
      if ignored == [] { AllSettled(old(Now()), Now()); }
      r := Done(routes);
    }

    ghost function EndpointParams(i: nat): set<Param>
      requires i < |endpoints|
    {
      ParamsIn(endpoints[i].queryParams) +
      set m, p | m in endpoints[i].methods && p in ParamsIn(endpoints[i].methods[m].queryParams) :: p
    }

    lemma AllSettled(a: map<Param, Declaration>, b: map<Param, Declaration>)
      requires forall j :: 0 <= j < |endpoints| ==> SettledSince(EndpointParams(j), a, b)
      ensures SettledSince(Params(), a, b)
    {
      forall p | p in Params()
        ensures p in a && p in b && b[p] == Settled(compile, a[p])
      {
        if i :| 0 <= i < |endpoints| && p in ParamsIn(endpoints[i].queryParams) {
          assert p in EndpointParams(i);
        } else {
          var i, m :| 0 <= i < |endpoints| && m in endpoints[i].methods && p in ParamsIn(endpoints[i].methods[m].queryParams);
          assert p in EndpointParams(i);
        }
      }
    }
  }

  function KindOf(typ: string): TaskItems.Kind
    requires typ in LISTS
  {
    if typ == "cassandra" then TaskItems.Cassandra
    else if typ == "http" then TaskItems.Http
    else if typ == MYSQL then TaskItems.MySql
    else if typ == "postgres" then TaskItems.Postgres
    else if typ == "redis" then TaskItems.Redis
    else TaskItems.Shell
  }

  function Blame<T>(typ: string, out: Outcome<T>): Outcome<T> {
    match out case Fails(e) => Fails(TaskReturned(typ, e)) case other => other
  }

  lemma PrependNone<T>(rest: Outcome<seq<T>>)
    ensures Prepend([], rest) == rest
    ensures rest == Done([]) ==> forall ts: seq<T> :: Prepend(ts, rest) == Done(ts)
    ensures !rest.Done? ==> forall ts: seq<T> :: Prepend(ts, rest) == rest
  {
    if rest.Done? { assert [] + rest.value == rest.value; }
    if rest == Done([]) {
      forall ts: seq<T>
        ensures Prepend(ts, rest) == Done(ts)
      {
        assert ts + [] == ts;
      }
    }
  }

  lemma PrependTwice<T>(a: seq<T>, b: seq<T>, rest: Outcome<seq<T>>)
    ensures Prepend(a, Prepend(b, rest)) == Prepend(a + b, rest)
  {
    if rest.Done? { assert a + (b + rest.value) == (a + b) + rest.value; }
  }
}
