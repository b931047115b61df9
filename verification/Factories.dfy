/** The loops of `routes` for any registered factories, which may return any
    number of taskers, and taskers that add to the path of their endpoint. */
module Factories {
  import opened Text
  import opened Routing

  /** What validation and the factory make of a method: the endpoint, the number
      of methods left to visit, and the verb say which activation it is. */
  type Build<!T> = (nat, nat, string) -> Outcome<seq<T>>

  function RoutesFor<T>(c: Config, pathOf: T -> string, i: nat, verb: string, tasks: seq<T>): (rs: seq<RouteOf<T>>)
    requires i < |c.endpoints|
  {
    seq(|tasks|, k requires 0 <= k < |tasks| => Route(i, c.endpoints[i].path + pathOf(tasks[k]), verb, tasks[k]))
  }

  function MethodsOf<T>(c: Config, ignored: seq<string>, build: Build<T>, pathOf: T -> string, i: nat,
                        names: seq<string>): Outcome<seq<RouteOf<T>>>
    requires i < |c.endpoints| && forall m :: m in names ==> m in c.endpoints[i].methods
  {
    if names == [] || c.endpoints[i].methods[names[0]].typ in ignored then Done([])
    else match build(i, |names|, names[0])
      case Done(ts) =>
        Prepend(RoutesFor(c, pathOf, i, names[0], ts), MethodsOf(c, ignored, build, pathOf, i, names[1..]))
      case Fails(e) => Fails(e)
      case Overflow => Overflow
  }

  predicate Visits(c: Config, visits: nat -> seq<string>) {
    forall i :: 0 <= i < |c.endpoints| ==> Lists(visits(i), c.endpoints[i].methods)
  }

  function TableFrom<T>(c: Config, ignored: seq<string>, build: Build<T>, pathOf: T -> string, visits: nat -> seq<string>,
                        i: nat): Outcome<seq<RouteOf<T>>>
    requires Visits(c, visits) && i <= |c.endpoints|
    decreases |c.endpoints| - i
  {
    if i == |c.endpoints| then Done([])
    else if !c.endpoints[i].paramsOk then Fails(BadParams)
    else match MethodsOf(c, ignored, build, pathOf, i, visits(i))
      case Done(rs) => Prepend(rs, TableFrom(c, ignored, build, pathOf, visits, i + 1))
      case other => other
  }

  function Table<T>(c: Config, ignored: seq<string>, build: Build<T>, pathOf: T -> string,
                    visits: nat -> seq<string>): Outcome<seq<RouteOf<T>>>
    requires Visits(c, visits)
  {
    if !AuthorizersOk(c) then Fails(BadAuthorizers) else TableFrom(c, ignored, build, pathOf, visits, 0)
  }

  // ---------------------------------------------------------------- what a table holds

  /** The taskers behind the routes of one method, in order. */
  function Behind<T>(rs: seq<RouteOf<T>>, i: nat, m: string): seq<T> {
    if rs == [] then []
    else (if rs[0].endpoint == i && rs[0].verb == m then [rs[0].task] else []) + Behind(rs[1..], i, m)
  }

  /** Where a verb comes first, and how many are left to visit there. */
  function Index(names: seq<string>, m: string): (k: nat)
    ensures k <= |names|
    ensures k < |names| <==> m in names
    ensures k < |names| ==> names[k] == m
  {
    if names == [] || names[0] == m then 0 else 1 + Index(names[1..], m)
  }

  function Left(names: seq<string>, m: string): nat { |names| - Index(names, m) }

  /** A visit reaches a method unless an ignored one comes before it, or it is ignored. */
  predicate Reached(c: Config, ignored: seq<string>, i: nat, names: seq<string>, m: string)
    requires i < |c.endpoints| && forall m :: m in names ==> m in c.endpoints[i].methods
  {
    m in names && forall k :: 0 <= k <= Index(names, m) ==> c.endpoints[i].methods[names[k]].typ !in ignored
  }

  function Size<T>(out: Outcome<seq<T>>): nat {
    match out case Done(ts) => |ts| case _ => 0
  }

  /** The number of taskers built for the methods visited. */
  function CountAt<T>(c: Config, ignored: seq<string>, build: Build<T>, i: nat, names: seq<string>): nat
    requires i < |c.endpoints| && forall m :: m in names ==> m in c.endpoints[i].methods
  {
    if names == [] || c.endpoints[i].methods[names[0]].typ in ignored then 0
    else Size(build(i, |names|, names[0])) + CountAt(c, ignored, build, i, names[1..])
  }

  function Count<T>(c: Config, ignored: seq<string>, build: Build<T>, visits: nat -> seq<string>, i: nat): nat
    requires Visits(c, visits) && i <= |c.endpoints|
    decreases |c.endpoints| - i
  {
    if i == |c.endpoints| then 0 else CountAt(c, ignored, build, i, visits(i)) + Count(c, ignored, build, visits, i + 1)
  }

  ghost predicate PathsOk<T>(c: Config, pathOf: T -> string, rs: seq<RouteOf<T>>) {
    forall r :: r in rs ==> r.endpoint < |c.endpoints| && r.path == c.endpoints[r.endpoint].path + pathOf(r.task)
  }

  /** Endpoints in the order of the configuration, and the methods of each in
      the order in which they were visited. */
  ghost predicate InOrder<T>(visits: nat -> seq<string>, rs: seq<RouteOf<T>>) {
    forall a, b :: 0 <= a < b < |rs| ==>
      || rs[a].endpoint < rs[b].endpoint
      || (rs[a].endpoint == rs[b].endpoint
          && Index(visits(rs[a].endpoint), rs[a].verb) <= Index(visits(rs[a].endpoint), rs[b].verb))
  }

  // ---------------------------------------------------------------- proofs

  lemma {:induction false} BehindConcat<T>(a: seq<RouteOf<T>>, b: seq<RouteOf<T>>, i: nat, m: string)
    ensures Behind(a + b, i, m) == Behind(a, i, m) + Behind(b, i, m)
    decreases |a|
  {
    if a == [] {
      assert a + b == b;
    } else {
      assert (a + b)[1..] == a[1..] + b;
      BehindConcat(a[1..], b, i, m);
    }
  }

  lemma {:induction false} BehindOne<T>(c: Config, pathOf: T -> string, i: nat, verb: string, tasks: seq<T>, j: nat, m: string)
    requires i < |c.endpoints|
    ensures Behind(RoutesFor(c, pathOf, i, verb, tasks), j, m) == if i == j && verb == m then tasks else []
    decreases |tasks|
  {
    if tasks != [] {
      var rs, rest := RoutesFor(c, pathOf, i, verb, tasks), RoutesFor(c, pathOf, i, verb, tasks[1..]);
      BehindOne(c, pathOf, i, verb, tasks[1..], j, m);
      assert rs[0].endpoint == i && rs[0].verb == verb && rs[0].task == tasks[0];
      assert rs[1..] == rest;
    }
  }

  lemma {:induction false} MethodsDone<T>(c: Config, ignored: seq<string>, build: Build<T>, pathOf: T -> string, i: nat,
                                          names: seq<string>)
    requires i < |c.endpoints| && forall m :: m in names ==> m in c.endpoints[i].methods
    requires forall j, k :: 0 <= j < k < |names| ==> names[j] != names[k]
    ensures MethodsOf(c, ignored, build, pathOf, i, names).Done? <==>
              forall m :: m in names && Reached(c, ignored, i, names, m) ==> build(i, Left(names, m), m).Done?
  {
    if names != [] && c.endpoints[i].methods[names[0]].typ !in ignored {
      var rest := names[1..];
      MethodsDone(c, ignored, build, pathOf, i, rest);
      assert Reached(c, ignored, i, names, names[0]) && Left(names, names[0]) == |names|;
      forall m | m in rest
        ensures Reached(c, ignored, i, names, m) <==> Reached(c, ignored, i, rest, m)
        ensures Left(names, m) == Left(rest, m)
      {
        ReachedLater(c, ignored, i, names, m);
      }
      assert forall m :: m in names <==> m == names[0] || m in rest;
    }
  }

  lemma ReachedLater(c: Config, ignored: seq<string>, i: nat, names: seq<string>, m: string)
    requires i < |c.endpoints| && forall m :: m in names ==> m in c.endpoints[i].methods
    requires names != [] && names[0] != m && c.endpoints[i].methods[names[0]].typ !in ignored
    ensures Reached(c, ignored, i, names, m) <==> Reached(c, ignored, i, names[1..], m)
    ensures Left(names, m) == Left(names[1..], m)
  {
    var rest := names[1..];
    assert m in names <==> m in rest;
    assert forall k :: 0 <= k < |rest| ==> rest[k] == names[k + 1];
    assert forall k :: 1 <= k < |names| ==> names[k] == rest[k - 1];
  }

  /** What the visit of one endpoint adds. */
  ghost predicate EndpointPart<T>(c: Config, ignored: seq<string>, build: Build<T>, pathOf: T -> string, i: nat,
                                  names: seq<string>, rs: seq<RouteOf<T>>)
    requires i < |c.endpoints| && forall m :: m in names ==> m in c.endpoints[i].methods
  {
    && |rs| == CountAt(c, ignored, build, i, names)
    && PathsOk(c, pathOf, rs)
    && (forall r :: r in rs ==> r.endpoint == i && r.verb in names)
    && (forall a, b :: 0 <= a < b < |rs| ==> Index(names, rs[a].verb) <= Index(names, rs[b].verb))
  }

  ghost predicate BehindIs<T>(c: Config, ignored: seq<string>, build: Build<T>, i: nat, names: seq<string>,
                              rs: seq<RouteOf<T>>, m: string)
    requires i < |c.endpoints| && forall m :: m in names ==> m in c.endpoints[i].methods
  {
    if Reached(c, ignored, i, names, m) then
      build(i, Left(names, m), m).Done? && Behind(rs, i, m) == build(i, Left(names, m), m).value
    else Behind(rs, i, m) == []
  }

  lemma {:induction false} MethodsPart<T>(c: Config, ignored: seq<string>, build: Build<T>, pathOf: T -> string, i: nat,
                                          names: seq<string>)
    requires i < |c.endpoints| && forall m :: m in names ==> m in c.endpoints[i].methods
    requires forall j, k :: 0 <= j < k < |names| ==> names[j] != names[k]
    requires MethodsOf(c, ignored, build, pathOf, i, names).Done?
    ensures EndpointPart(c, ignored, build, pathOf, i, names, MethodsOf(c, ignored, build, pathOf, i, names).value)
  {
    if names != [] && c.endpoints[i].methods[names[0]].typ !in ignored {
      var rest := names[1..];
      var here := RoutesFor(c, pathOf, i, names[0], build(i, |names|, names[0]).value);
      var more := MethodsOf(c, ignored, build, pathOf, i, rest).value;
      MethodsPart(c, ignored, build, pathOf, i, rest);
      FirstInFront(names, here, more);
    }
  }

  lemma FirstInFront<T>(names: seq<string>, here: seq<RouteOf<T>>, more: seq<RouteOf<T>>)
    requires names != [] && names[0] !in names[1..]
    requires forall r :: r in here ==> r.verb == names[0]
    requires forall r :: r in more ==> r.verb in names[1..]
    requires forall a, b :: 0 <= a < b < |more| ==> Index(names[1..], more[a].verb) <= Index(names[1..], more[b].verb)
    ensures forall a, b :: 0 <= a < b < |here + more| ==>
              Index(names, (here + more)[a].verb) <= Index(names, (here + more)[b].verb)
  {
    forall a, b | 0 <= a < b < |here + more|
      ensures Index(names, (here + more)[a].verb) <= Index(names, (here + more)[b].verb)
    {
      if a < |here| {
        assert (here + more)[a] in here;
      } else {
        var x, y := more[a - |here|], more[b - |here|];
        assert x in more && y in more;
        assert Index(names, x.verb) == 1 + Index(names[1..], x.verb);
        assert Index(names, y.verb) == 1 + Index(names[1..], y.verb);
      }
    }
  }

  lemma {:induction false} MethodsBehind<T>(c: Config, ignored: seq<string>, build: Build<T>, pathOf: T -> string, i: nat,
                                            names: seq<string>, m: string)
    requires i < |c.endpoints| && forall m :: m in names ==> m in c.endpoints[i].methods
    requires forall j, k :: 0 <= j < k < |names| ==> names[j] != names[k]
    requires MethodsOf(c, ignored, build, pathOf, i, names).Done?
    ensures BehindIs(c, ignored, build, i, names, MethodsOf(c, ignored, build, pathOf, i, names).value, m)
  {
    if names != [] && c.endpoints[i].methods[names[0]].typ !in ignored {
      var rest := names[1..];
      var built := build(i, |names|, names[0]).value;
      var more := MethodsOf(c, ignored, build, pathOf, i, rest).value;
      MethodsBehind(c, ignored, build, pathOf, i, rest, m);
      BehindOne(c, pathOf, i, names[0], built, i, m);
      BehindConcat(RoutesFor(c, pathOf, i, names[0], built), more, i, m);
      if m == names[0] {
        assert m !in rest;
        assert Reached(c, ignored, i, names, m);
      } else {
        ReachedLater(c, ignored, i, names, m);
      }
    }
  }

  lemma {:induction false} BehindNone<T>(rs: seq<RouteOf<T>>, i: nat, m: string)
    requires forall r :: r in rs ==> r.endpoint != i || r.verb != m
    ensures Behind(rs, i, m) == []
  {
    if rs != [] { BehindNone(rs[1..], i, m); }
  }

  lemma {:induction false} FromDone<T>(c: Config, ignored: seq<string>, build: Build<T>, pathOf: T -> string,
                                       visits: nat -> seq<string>, i: nat)
    requires Visits(c, visits) && i <= |c.endpoints|
    ensures TableFrom(c, ignored, build, pathOf, visits, i).Done? <==>
              forall j :: i <= j < |c.endpoints| ==> EndpointBuilds(c, ignored, build, visits, j)
    decreases |c.endpoints| - i
  {
    hide MethodsOf, Reached;
    if i < |c.endpoints| {
      MethodsDone(c, ignored, build, pathOf, i, visits(i));
      FromDone(c, ignored, build, pathOf, visits, i + 1);
      var here := MethodsOf(c, ignored, build, pathOf, i, visits(i));
      assert EndpointBuilds(c, ignored, build, visits, i) <==> c.endpoints[i].paramsOk && here.Done?;
    }
  }

  /** Everything visited at an endpoint validates and builds. */
  ghost predicate EndpointBuilds<T>(c: Config, ignored: seq<string>, build: Build<T>, visits: nat -> seq<string>, i: nat)
    requires Visits(c, visits) && i < |c.endpoints|
  {
    && c.endpoints[i].paramsOk
    && forall m :: m in visits(i) && Reached(c, ignored, i, visits(i), m) ==> build(i, Left(visits(i), m), m).Done?
  }

  lemma {:induction false} FromPart<T>(c: Config, ignored: seq<string>, build: Build<T>, pathOf: T -> string,
                                       visits: nat -> seq<string>, i: nat)
    requires Visits(c, visits) && i <= |c.endpoints|
    requires TableFrom(c, ignored, build, pathOf, visits, i).Done?
    ensures var rs := TableFrom(c, ignored, build, pathOf, visits, i).value;
            && |rs| == Count(c, ignored, build, visits, i)
            && PathsOk(c, pathOf, rs) && InOrder(visits, rs)
            && forall r :: r in rs ==> i <= r.endpoint < |c.endpoints|
    decreases |c.endpoints| - i
  {
    hide MethodsOf, CountAt;
    if i < |c.endpoints| {
      MethodsPart(c, ignored, build, pathOf, i, visits(i));
      FromPart(c, ignored, build, pathOf, visits, i + 1);
    }
  }

  lemma {:induction false} FromBehind<T>(c: Config, ignored: seq<string>, build: Build<T>, pathOf: T -> string,
                                         visits: nat -> seq<string>, i: nat, j: nat, m: string)
    requires Visits(c, visits) && i <= |c.endpoints| && i <= j < |c.endpoints|
    requires TableFrom(c, ignored, build, pathOf, visits, i).Done?
    ensures BehindIs(c, ignored, build, j, visits(j), TableFrom(c, ignored, build, pathOf, visits, i).value, m)
    decreases |c.endpoints| - i
  {
    hide MethodsOf, CountAt, Reached;
    var here := MethodsOf(c, ignored, build, pathOf, i, visits(i)).value;
    var more := TableFrom(c, ignored, build, pathOf, visits, i + 1).value;
    MethodsPart(c, ignored, build, pathOf, i, visits(i));
    FromPart(c, ignored, build, pathOf, visits, i + 1);
    BehindConcat(here, more, j, m);
    if i == j {
      MethodsBehind(c, ignored, build, pathOf, i, visits(i), m);
      BehindNone(more, j, m);
    } else {
      FromBehind(c, ignored, build, pathOf, visits, i + 1, j, m);
      BehindNone(here, j, m);
    }
  }

  // ---------------------------------------------------------------- main results

  /** For any factories and any visiting order: `routes` succeeds exactly when the
      authorizers do and everything it visits validates and builds. Behind each
      method visited the table then has exactly the taskers its factory returned,
      in order, and behind the others none; with nothing ignored there are no
      others. Every path is that of the endpoint followed by that of the tasker,
      endpoints come in order, the routes of a method stand together, and there
      are as many routes as taskers. */
  lemma TableMeaning<T>(c: Config, ignored: seq<string>, build: Build<T>, pathOf: T -> string, visits: nat -> seq<string>)
    requires Visits(c, visits)
    ensures Table(c, ignored, build, pathOf, visits).Done? <==>
              AuthorizersOk(c) && forall i :: 0 <= i < |c.endpoints| ==> EndpointBuilds(c, ignored, build, visits, i)
    ensures Table(c, ignored, build, pathOf, visits).Done? ==>
              var rs := Table(c, ignored, build, pathOf, visits).value;
              && (forall i, m :: 0 <= i < |c.endpoints| ==> BehindIs(c, ignored, build, i, visits(i), rs, m))
              && (forall r :: r in rs ==> r.endpoint < |c.endpoints|)
              && PathsOk(c, pathOf, rs) && InOrder(visits, rs)
              && |rs| == Count(c, ignored, build, visits, 0)
    ensures ignored == [] ==>
              forall i, m :: 0 <= i < |c.endpoints| && m in c.endpoints[i].methods ==> Reached(c, ignored, i, visits(i), m)
  {
    hide TableFrom, EndpointBuilds, BehindIs, PathsOk, InOrder, Count;
    if AuthorizersOk(c) {
      FromDone(c, ignored, build, pathOf, visits, 0);
      if TableFrom(c, ignored, build, pathOf, visits, 0).Done? {
        FromPart(c, ignored, build, pathOf, visits, 0);
        forall i: nat, m | i < |c.endpoints|
          ensures BehindIs(c, ignored, build, i, visits(i), TableFrom(c, ignored, build, pathOf, visits, 0).value, m)
        {
          FromBehind(c, ignored, build, pathOf, visits, 0, i, m);
        }
      }
    }
  }

  predicate SameFailure<T, U>(a: Outcome<T>, b: Outcome<U>) {
    (a.Overflow? && b.Overflow?) || (a.Fails? && b.Fails? && a.e == b.e)
  }

  /** Method `m` is the first to be visited that does not build. */
  ghost predicate FirstBad<T>(c: Config, ignored: seq<string>, build: Build<T>, i: nat, names: seq<string>, m: string)
    requires i < |c.endpoints| && forall m :: m in names ==> m in c.endpoints[i].methods
  {
    && Reached(c, ignored, i, names, m) && !build(i, Left(names, m), m).Done?
    && forall m' :: m' in names && Index(names, m') < Index(names, m) ==> build(i, Left(names, m'), m').Done?
  }

  lemma {:induction false} MethodsFailFirst<T>(c: Config, ignored: seq<string>, build: Build<T>, pathOf: T -> string, i: nat,
                                               names: seq<string>) returns (m: string)
    requires i < |c.endpoints| && forall m :: m in names ==> m in c.endpoints[i].methods
    requires forall j, k :: 0 <= j < k < |names| ==> names[j] != names[k]
    requires !MethodsOf(c, ignored, build, pathOf, i, names).Done?
    ensures FirstBad(c, ignored, build, i, names, m)
    ensures SameFailure(MethodsOf(c, ignored, build, pathOf, i, names), build(i, Left(names, m), m))
  {
    if build(i, |names|, names[0]).Done? {
      var rest := names[1..];
      m := MethodsFailFirst(c, ignored, build, pathOf, i, rest);
      assert m in rest && m != names[0];
      ReachedLater(c, ignored, i, names, m);
      forall m' | m' in names && Index(names, m') < Index(names, m)
        ensures build(i, Left(names, m'), m').Done?
      {
        if m' != names[0] { ReachedLater(c, ignored, i, names, m'); }
      }
    } else {
      m := names[0];
    }
  }

  lemma {:induction false} FromFailsFirst<T>(c: Config, ignored: seq<string>, build: Build<T>, pathOf: T -> string,
                                             visits: nat -> seq<string>, i: nat) returns (j: nat)
    requires Visits(c, visits) && i <= |c.endpoints|
    requires !TableFrom(c, ignored, build, pathOf, visits, i).Done?
    ensures i <= j < |c.endpoints| && forall k :: i <= k < j ==> EndpointBuilds(c, ignored, build, visits, k)
    ensures var out := TableFrom(c, ignored, build, pathOf, visits, i);
            if !c.endpoints[j].paramsOk then out == Fails(BadParams)
            else exists m :: FirstBad(c, ignored, build, j, visits(j), m) && SameFailure(out, build(j, Left(visits(j), m), m))
    decreases |c.endpoints| - i
  {
    hide MethodsOf, Reached, FirstBad;
    j := i;
    if c.endpoints[i].paramsOk {
      if MethodsOf(c, ignored, build, pathOf, i, visits(i)).Done? {
        MethodsDone(c, ignored, build, pathOf, i, visits(i));
        assert EndpointBuilds(c, ignored, build, visits, i);
        j := FromFailsFirst(c, ignored, build, pathOf, visits, i + 1);
      } else {
        var m := MethodsFailFirst(c, ignored, build, pathOf, i, visits(i));
      }
    }
  }

  /** A run that does not succeed ends with the authorizers' error, or with what
      the first endpoint in order and its first method in the visiting order that
      do not validate and build end with. */
  lemma TableFailsFirst<T>(c: Config, ignored: seq<string>, build: Build<T>, pathOf: T -> string, visits: nat -> seq<string>)
    requires Visits(c, visits) && !Table(c, ignored, build, pathOf, visits).Done?
    ensures var out := Table(c, ignored, build, pathOf, visits);
            if !AuthorizersOk(c) then out == Fails(BadAuthorizers)
            else exists j :: && 0 <= j < |c.endpoints|
                             && (forall k :: 0 <= k < j ==> EndpointBuilds(c, ignored, build, visits, k))
                             && if !c.endpoints[j].paramsOk then out == Fails(BadParams)
                                else exists m :: FirstBad(c, ignored, build, j, visits(j), m)
                                                 && SameFailure(out, build(j, Left(visits(j), m), m))
  {
    hide TableFrom, EndpointBuilds, FirstBad;
    if AuthorizersOk(c) {
      var j := FromFailsFirst(c, ignored, build, pathOf, visits, 0);
    }
  }

  /** The built-in factories, on the stack and under the map orders of one call. */
  function Builtin(c: Config, order: Order, path: seq<nat>, depth: nat): Build<Tasker>
    requires AlwaysValid(c, order) && depth > 0
  {
    (i: nat, left: nat, m) =>
      if i < |c.endpoints| && m in c.endpoints[i].methods
      then Compile(c, c.endpoints[i].methods[m], order, path + [i, left], depth)
      else Fails(InvalidType)
  }

  function VisitsOf(order: Order, path: seq<nat>): nat -> seq<string> {
    (i: nat) => order(path, i)
  }

  /** `Task.Path`. */
  function NoPath(t: Tasker): string { "" }

  /** `Routes` is the case of the built-in factories, whose taskers have no path. */
  lemma RoutesIsTable(c: Config, ignored: seq<string>, order: Order, path: seq<nat>, depth: nat)
    requires AlwaysValid(c, order) && depth > 0
    ensures Visits(c, VisitsOf(order, path))
    ensures Routes(c, ignored, order, path, depth)
         == Table(c, ignored, Builtin(c, order, path, depth), NoPath, VisitsOf(order, path))
  {
    assert Valid(c, order, path);
    if AuthorizersOk(c) { FromEndpointIsTable(c, ignored, order, path, 0, depth); }
  }

  lemma {:induction false} FromEndpointIsTable(c: Config, ignored: seq<string>, order: Order, path: seq<nat>, i: nat, depth: nat)
    requires AlwaysValid(c, order) && Visits(c, VisitsOf(order, path)) && depth > 0 && i <= |c.endpoints|
    ensures FromEndpoint(c, ignored, order, path, i, depth)
         == TableFrom(c, ignored, Builtin(c, order, path, depth), NoPath, VisitsOf(order, path), i)
    decreases |c.endpoints| - i
  {
    hide AtMethods, MethodsOf, Builtin;
    if i < |c.endpoints| {
      assert Valid(c, order, path);
      AtMethodsIsTable(c, ignored, order, path, i, order(path, i), depth);
      FromEndpointIsTable(c, ignored, order, path, i + 1, depth);
    }
  }

  lemma {:induction false} AtMethodsIsTable(c: Config, ignored: seq<string>, order: Order, path: seq<nat>, i: nat,
                                            names: seq<string>, depth: nat)
    requires AlwaysValid(c, order) && depth > 0 && i < |c.endpoints|
    requires forall m :: m in names ==> m in c.endpoints[i].methods
    ensures AtMethods(c, ignored, order, path, i, names, depth)
         == MethodsOf(c, ignored, Builtin(c, order, path, depth), NoPath, i, names)
    decreases |names|
  {
    hide Compile;
    if names != [] {
      AtMethodsIsTable(c, ignored, order, path, i, names[1..], depth);
      var out := Compile(c, c.endpoints[i].methods[names[0]], order, path + [i, |names|], depth);
      if out.Done? {
        assert RoutesOf(c, i, names[0], out.value) == RoutesFor(c, NoPath, i, names[0], out.value);
      }
    }
  }
}
