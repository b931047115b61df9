/** What a successful `routes()` returns, and how the listing of the info task,
    a second run with `info` ignored, agrees with it. */
module Listing {
  import opened Text
  import opened Routing
  import opened Termination
  import TaskItems

  // ---------------------------------------------------------------- the taskers

  /** The tasker is what the configuration asks for, all the way down: a multi
      task has exactly one tasker per embedded configuration, in order, and a
      selected index below their number. */
  predicate Shaped(tc: TaskConfig, t: Tasker)
    decreases tc
  {
    var typ := TrimSpace(tc.typ);
    if typ == INFO then t.Info?
    else if typ == MULTI then
      && t.Multi? && tc.raw.multi.Some?
      && |t.tasks| == |tc.raw.multi.value.tasks|
      && t.index == TaskItems.IndexOf(tc.raw.multi.value.single) < |t.tasks|
      && forall k :: 0 <= k < |t.tasks| ==> Shaped(tc.raw.multi.value.tasks[k], t.tasks[k])
    else if typ == FILESYSTEM then t.Files?
    else
      && typ in LISTS && typ in tc.raw.lists && t.Leaf? && t.typ == typ
      && t.count == |tc.raw.lists[typ].items|
      && if typ == MYSQL then t.index == 0
         else t.index == TaskItems.IndexOf(tc.raw.lists[typ].single) < t.count
  }

  lemma {:induction false} CompileShaped(c: Config, tc: TaskConfig, order: Order, path: seq<nat>, depth: nat)
    requires AlwaysValid(c, order) && depth > 0 && Compile(c, tc, order, path, depth).Done?
    ensures var ts := Compile(c, tc, order, path, depth).value;
            |ts| == 1 && Shaped(tc, ts[0])
    decreases depth, 0, 0
  {
    hide Routes, Embedded;
    if TrimSpace(tc.typ) == MULTI {
      EmbeddedShaped(c, tc.raw.multi.value.tasks, order, path, depth - 1);
    }
  }

  lemma {:induction false} EmbeddedShaped(c: Config, tasks: seq<TaskConfig>, order: Order, path: seq<nat>, depth: nat)
    requires AlwaysValid(c, order) && depth > 0 && Embedded(c, tasks, order, path, depth).Done?
    ensures var ts := Embedded(c, tasks, order, path, depth).value;
            |ts| == |tasks| && forall k :: 0 <= k < |ts| ==> Shaped(tasks[k], ts[k])
    decreases depth, 1, |tasks|
  {
    hide Compile, Shaped;
    if tasks != [] {
      CompileShaped(c, tasks[0], order, path + [|tasks|], depth);
      EmbeddedShaped(c, tasks[1..], order, path, depth);
      assert forall k :: 1 <= k < |tasks| ==> tasks[k] == tasks[1..][k - 1];
    }
  }

  /** No part of the tasker was made by `InfoTaskFactory`. */
  predicate NoInfo(t: Tasker)
    decreases t
  {
    match t
    case Info(_) => false
    case Multi(ts, _) => forall k :: 0 <= k < |ts| ==> NoInfo(ts[k])
    case _ => true
  }

  lemma {:induction false} BuiltWithoutInfo(c: Config, tc: TaskConfig)
    ensures ScanTask(c, tc).Builds? ==> NoInfo(ScanTask(c, tc).t)
    decreases tc, 1
  {
    if ScanTask(c, tc).Builds? {
      assert ScanFactory(c, TrimSpace(tc.typ), tc.raw) == ScanTask(c, tc);
      if TrimSpace(tc.typ) == MULTI {
        AllBuiltWithoutInfo(c, tc.raw.multi.value.tasks);
      }
    }
  }

  lemma {:induction false} AllBuiltWithoutInfo(c: Config, tasks: seq<TaskConfig>)
    ensures ScanAll(c, tasks).Builds? ==> forall k :: 0 <= k < |ScanAll(c, tasks).t| ==> NoInfo(ScanAll(c, tasks).t[k])
    decreases tasks
  {
    if tasks != [] {
      BuiltWithoutInfo(c, tasks[0]);
      AllBuiltWithoutInfo(c, tasks[1..]);
    }
  }

  // ---------------------------------------------------------------- the keys

  datatype Key = Key(endpoint: nat, verb: string)

  function Keys(rs: seq<Route>): (ks: seq<Key>)
    ensures |ks| == |rs| && forall k :: 0 <= k < |ks| ==> ks[k] == Key(rs[k].endpoint, rs[k].verb)
  {
    seq(|rs|, k requires 0 <= k < |rs| => Key(rs[k].endpoint, rs[k].verb))
  }

  /** The methods visited before an ignored one. */
  function Visited(c: Config, ignored: seq<string>, i: nat, names: seq<string>): seq<Key>
    requires i < |c.endpoints| && forall m :: m in names ==> m in c.endpoints[i].methods
  {
    if names == [] || c.endpoints[i].methods[names[0]].typ in ignored then []
    else [Key(i, names[0])] + Visited(c, ignored, i, names[1..])
  }

  function VisitedFrom(c: Config, ignored: seq<string>, order: Order, path: seq<nat>, i: nat): seq<Key>
    requires Valid(c, order, path) && i <= |c.endpoints|
    decreases |c.endpoints| - i
  {
    if i == |c.endpoints| then []
    else Visited(c, ignored, i, order(path, i)) + VisitedFrom(c, ignored, order, path, i + 1)
  }

  /** What every route of a result satisfies. */
  ghost predicate Faithful(c: Config, r: Route) {
    && r.endpoint < |c.endpoints| && r.path == c.endpoints[r.endpoint].path
    && r.verb in c.endpoints[r.endpoint].methods
    && var tc := c.endpoints[r.endpoint].methods[r.verb];
       Shaped(tc, r.task) && (ScanTask(c, tc).Builds? ==> r.task == ScanTask(c, tc).t)
  }

  ghost predicate AllFaithful(c: Config, rs: seq<Route>) {
    forall k :: 0 <= k < |rs| ==> Faithful(c, rs[k])
  }

  lemma {:induction false} MethodRoutes(c: Config, ignored: seq<string>, order: Order, path: seq<nat>, i: nat,
                                        names: seq<string>, depth: nat)
    requires AlwaysValid(c, order) && depth > 0 && i < |c.endpoints|
    requires forall m :: m in names ==> m in c.endpoints[i].methods
    requires AtMethods(c, ignored, order, path, i, names, depth).Done?
    ensures var rs := AtMethods(c, ignored, order, path, i, names, depth).value;
            Keys(rs) == Visited(c, ignored, i, names) && AllFaithful(c, rs)
    decreases |names|
  {
    hide Compile, Shaped, ScanTask;
    if names != [] {
      var tc := c.endpoints[i].methods[names[0]];
      if tc.typ !in ignored {
        CompileShaped(c, tc, order, path + [i, |names|], depth);
        CompileScanned(c, tc, order, path + [i, |names|], depth);
        MethodRoutes(c, ignored, order, path, i, names[1..], depth);
        var first := RoutesOf(c, i, names[0], Compile(c, tc, order, path + [i, |names|], depth).value);
        assert Faithful(c, first[0]);
        assert Keys(first) == [Key(i, names[0])];
      }
    }
  }

  lemma {:induction false} RoutesFrom(c: Config, ignored: seq<string>, order: Order, path: seq<nat>, i: nat, depth: nat)
    requires AlwaysValid(c, order) && Valid(c, order, path) && depth > 0 && i <= |c.endpoints|
    requires FromEndpoint(c, ignored, order, path, i, depth).Done?
    ensures var rs := FromEndpoint(c, ignored, order, path, i, depth).value;
            Keys(rs) == VisitedFrom(c, ignored, order, path, i) && AllFaithful(c, rs)
    decreases |c.endpoints| - i
  {
    hide AtMethods, Faithful;
    if i < |c.endpoints| {
      MethodRoutes(c, ignored, order, path, i, order(path, i), depth);
      RoutesFrom(c, ignored, order, path, i + 1, depth);
    }
  }

  // ---------------------------------------------------------------- what the keys are

  predicate Ignores(e: Endpoint, ignored: seq<string>) {
    exists m :: m in e.methods && e.methods[m].typ in ignored
  }

  ghost predicate Ordered(keys: seq<Key>) {
    forall a, b :: 0 <= a < b < |keys| ==> keys[a] != keys[b] && keys[a].endpoint <= keys[b].endpoint
  }

  lemma {:induction false} VisitedMeaning(c: Config, ignored: seq<string>, i: nat, names: seq<string>)
    requires i < |c.endpoints| && forall m :: m in names ==> m in c.endpoints[i].methods
    requires forall j, k :: 0 <= j < k < |names| ==> names[j] != names[k]
    ensures var keys := Visited(c, ignored, i, names);
            && (forall key :: key in keys ==> key.endpoint == i && key.verb in names
                                              && c.endpoints[i].methods[key.verb].typ !in ignored)
            && Ordered(keys)
            && ((forall m :: m in names ==> c.endpoints[i].methods[m].typ !in ignored) ==>
                  |keys| == |names| && forall m :: m in names ==> Key(i, m) in keys)
  {
    if names != [] {
      assert names == [names[0]] + names[1..];
      assert names[0] !in names[1..];
      VisitedMeaning(c, ignored, i, names[1..]);
      var keys, rest := Visited(c, ignored, i, names), Visited(c, ignored, i, names[1..]);
      if keys != [] {
        assert keys == [Key(i, names[0])] + rest;
        assert Key(i, names[0]) !in rest;
      }
    }
  }

  lemma OrderedConcat(a: seq<Key>, b: seq<Key>, i: nat)
    requires Ordered(a) && Ordered(b)
    requires forall key :: key in a ==> key.endpoint == i
    requires forall key :: key in b ==> key.endpoint > i
    ensures Ordered(a + b)
  {
  }

  ghost predicate KeyOk(c: Config, ignored: seq<string>, key: Key) {
    && key.endpoint < |c.endpoints| && key.verb in c.endpoints[key.endpoint].methods
    && c.endpoints[key.endpoint].methods[key.verb].typ !in ignored
  }

  lemma {:induction false} VisitedAll(c: Config, ignored: seq<string>, order: Order, path: seq<nat>, i: nat,
                                      j: nat, m: string)
    requires Valid(c, order, path) && i <= j < |c.endpoints|
    requires m in c.endpoints[j].methods && !Ignores(c.endpoints[j], ignored)
    ensures Key(j, m) in VisitedFrom(c, ignored, order, path, i)
    decreases j - i
  {
    hide Visited;
    VisitedMeaning(c, ignored, i, order(path, i));
    if i < j { VisitedAll(c, ignored, order, path, i + 1, j, m); }
  }

  lemma {:induction false} VisitedOk(c: Config, ignored: seq<string>, order: Order, path: seq<nat>, i: nat)
    requires Valid(c, order, path) && i <= |c.endpoints|
    ensures forall key :: key in VisitedFrom(c, ignored, order, path, i) ==> KeyOk(c, ignored, key) && i <= key.endpoint
    ensures Ordered(VisitedFrom(c, ignored, order, path, i))
    decreases |c.endpoints| - i
  {
    hide Visited, Ordered;
    if i < |c.endpoints| {
      var here, rest := Visited(c, ignored, i, order(path, i)), VisitedFrom(c, ignored, order, path, i + 1);
      VisitedMeaning(c, ignored, i, order(path, i));
      VisitedOk(c, ignored, order, path, i + 1);
      OrderedConcat(here, rest, i);
    } else {
      NothingOrdered();
    }
  }

  lemma NothingOrdered()
    ensures Ordered([])
  {
  }

  lemma VisitedFromMeaning(c: Config, ignored: seq<string>, order: Order, path: seq<nat>)
    requires Valid(c, order, path)
    ensures var keys := VisitedFrom(c, ignored, order, path, 0);
            && (forall key :: key in keys ==> KeyOk(c, ignored, key))
            && Ordered(keys)
            && (forall j, m :: 0 <= j < |c.endpoints| && m in c.endpoints[j].methods && !Ignores(c.endpoints[j], ignored) ==>
                  Key(j, m) in keys)
  {
    hide VisitedFrom, Ignores, Ordered, KeyOk;
    VisitedOk(c, ignored, order, path, 0);
    forall j, m | 0 <= j < |c.endpoints| && m in c.endpoints[j].methods && !Ignores(c.endpoints[j], ignored)
      ensures Key(j, m) in VisitedFrom(c, ignored, order, path, 0)
    {
      VisitedAll(c, ignored, order, path, 0, j, m);
    }
  }

  /** Number of methods of all endpoints from `i` on. */
  function MethodCount(c: Config, i: nat): nat
    requires i <= |c.endpoints|
    decreases |c.endpoints| - i
  {
    if i == |c.endpoints| then 0 else |c.endpoints[i].methods| + MethodCount(c, i + 1)
  }

  lemma {:induction false} ListsAll<V>(names: seq<string>, methods: map<string, V>)
    requires Lists(names, methods)
    ensures |names| == |methods|
  {
    if names == [] {
      assert methods.Keys == {};
    } else {
      var rest := methods - {names[0]};
      assert names == [names[0]] + names[1..];
      assert names[0] !in names[1..];
      ListsAll(names[1..], rest);
      assert methods.Keys == rest.Keys + {names[0]};
      assert |methods| == |methods.Keys| && |rest| == |rest.Keys|;
    }
  }

  lemma {:induction false} CountFrom(c: Config, order: Order, path: seq<nat>, i: nat)
    requires Valid(c, order, path) && i <= |c.endpoints|
    ensures |VisitedFrom(c, [], order, path, i)| == MethodCount(c, i)
    decreases |c.endpoints| - i
  {
    hide Visited;
    if i < |c.endpoints| {
      VisitedMeaning(c, [], i, order(path, i));
      assert |Visited(c, [], i, order(path, i))| == |order(path, i)|;
      ListsAll(order(path, i), c.endpoints[i].methods);
      CountFrom(c, order, path, i + 1);
    }
  }

  /** A successful `routes()` returns exactly one route per endpoint and method,
      grouped in endpoint order, each with its endpoint's path and the tasker its
      configuration asks for. */
  lemma OneRoutePerMethod(c: Config, order: Order, path: seq<nat>, depth: nat)
    requires AlwaysValid(c, order) && Routes(c, [], order, path, depth).Done?
    ensures var rs := Routes(c, [], order, path, depth).value;
            && |rs| == MethodCount(c, 0)
            && Ordered(Keys(rs)) && AllFaithful(c, rs)
            && (forall i: nat, m :: Key(i, m) in Keys(rs) <==> i < |c.endpoints| && m in c.endpoints[i].methods)
  {
    hide FromEndpoint, AllFaithful;
    assert Valid(c, order, path);
    RoutesFrom(c, [], order, path, 0, depth);
    VisitedFromMeaning(c, [], order, path);
    CountFrom(c, order, path, 0);
  }

  lemma {:induction false} ParamsOkFrom(c: Config, order: Order, path: seq<nat>, i: nat, depth: nat)
    requires AlwaysValid(c, order) && Valid(c, order, path) && depth > 0 && i <= |c.endpoints|
    requires FromEndpoint(c, [], order, path, i, depth).Done?
    ensures forall j :: i <= j < |c.endpoints| ==>
              c.endpoints[j].paramsOk && forall m :: m in c.endpoints[j].methods ==> c.endpoints[j].methods[m].paramsOk
    decreases |c.endpoints| - i
  {
    hide AtMethods;
    if i < |c.endpoints| {
      DoneMethods(c, order, path, i, order(path, i), depth);
      ParamsOkFrom(c, order, path, i + 1, depth);
    }
  }

  // ---------------------------------------------------------------- the info listing

  /** Nothing stops a run that skips `info`. */
  ghost predicate Sound(c: Config, i: nat)
    requires i < |c.endpoints|
  {
    && c.endpoints[i].paramsOk
    && forall m :: m in c.endpoints[i].methods ==>
         c.endpoints[i].methods[m].typ == INFO || ScanTask(c, c.endpoints[i].methods[m]).Builds?
  }

  lemma {:induction false} DoneMethods(c: Config, order: Order, path: seq<nat>, i: nat, names: seq<string>, depth: nat)
    requires AlwaysValid(c, order) && depth > 0 && i < |c.endpoints|
    requires forall m :: m in names ==> m in c.endpoints[i].methods
    requires AtMethods(c, [], order, path, i, names, depth).Done?
    ensures forall m :: m in names ==> !ScanTask(c, c.endpoints[i].methods[m]).Rejects?
    decreases |names|
  {
    hide Compile, ScanTask;
    if names != [] {
      assert names == [names[0]] + names[1..];
      CompileScanned(c, c.endpoints[i].methods[names[0]], order, path + [i, |names|], depth);
      DoneMethods(c, order, path, i, names[1..], depth);
    }
  }

  lemma SoundEndpoint(c: Config, order: Order, path: seq<nat>, i: nat, depth: nat)
    requires AlwaysValid(c, order) && depth > 0 && i < |c.endpoints|
    requires AuthorizersOk(c) && !InfoLoops(c) && forall j :: 0 <= j < i ==> Passable(c, c.endpoints[j])
    requires AtEndpoint(c, [], order, path, i, depth).Done?
    ensures Sound(c, i) && Passable(c, c.endpoints[i])
  {
    hide AtMethods, ScanTask;
    assert Valid(c, order, path);
    assert !LoopAt(c, i);
    DoneMethods(c, order, path, i, order(path, i), depth);
    forall m | m in c.endpoints[i].methods
      ensures c.endpoints[i].methods[m].typ == INFO || ScanTask(c, c.endpoints[i].methods[m]).Builds?
    {
      assert !Hidden(c, c.endpoints[i].methods[m]);
    }
  }

  lemma {:induction false} SoundFrom(c: Config, order: Order, path: seq<nat>, i: nat, depth: nat)
    requires AlwaysValid(c, order) && depth > 0 && i <= |c.endpoints|
    requires AuthorizersOk(c) && !InfoLoops(c) && forall j :: 0 <= j < i ==> Passable(c, c.endpoints[j])
    requires FromEndpoint(c, [], order, path, i, depth).Done?
    ensures forall j :: i <= j < |c.endpoints| ==> Sound(c, j)
    decreases |c.endpoints| - i
  {
    hide AtEndpoint, InfoLoops, Passable, Sound;
    if i < |c.endpoints| {
      SoundEndpoint(c, order, path, i, depth);
      SoundFrom(c, order, path, i + 1, depth);
    }
  }

  lemma {:induction false} SkippingMethods(c: Config, order: Order, path: seq<nat>, i: nat, names: seq<string>,
                                           depth: nat)
    requires AlwaysValid(c, order) && i < |c.endpoints| && Sound(c, i) && depth >= Tallest(c.endpoints)
    requires forall m :: m in names ==> m in c.endpoints[i].methods
    ensures AtMethods(c, [INFO], order, path, i, names, depth).Done?
    decreases |names|
  {
    hide Compile, ScanTask, Tallest;
    if names != [] {
      CompileScanned(c, c.endpoints[i].methods[names[0]], order, path + [i, |names|], depth);
      SkippingMethods(c, order, path, i, names[1..], depth);
    }
  }

  lemma {:induction false} SkippingFrom(c: Config, order: Order, path: seq<nat>, i: nat, depth: nat)
    requires AlwaysValid(c, order) && Valid(c, order, path) && i <= |c.endpoints| && depth >= Tallest(c.endpoints)
    requires forall j :: 0 <= j < |c.endpoints| ==> Sound(c, j)
    ensures FromEndpoint(c, [INFO], order, path, i, depth).Done?
    decreases |c.endpoints| - i
  {
    hide AtMethods, Tallest;
    if i < |c.endpoints| {
      assert Sound(c, i);
      SkippingMethods(c, order, path, i, order(path, i), depth);
      SkippingFrom(c, order, path, i + 1, depth);
    }
  }

  lemma ListedTasks(c: Config, listed: seq<Route>, all: seq<Route>, k: nat) returns (n: nat)
    requires forall j :: 0 <= j < |c.endpoints| ==> Sound(c, j)
    requires AllFaithful(c, listed) && AllFaithful(c, all) && k < |listed|
    requires KeyOk(c, [INFO], Keys(listed)[k]) && Keys(listed)[k] in Keys(all)
    ensures n < |all| && all[n] == listed[k] && NoInfo(listed[k].task)
    ensures Faithful(c, all[n]) && ScanTask(c, c.endpoints[all[n].endpoint].methods[all[n].verb]).Builds?
  {
    hide ScanTask, Shaped, NoInfo;
    var r := listed[k];
    assert Faithful(c, r) && Sound(c, r.endpoint);
    n :| 0 <= n < |all| && Keys(all)[n] == Keys(listed)[k];
    assert Faithful(c, all[n]);
    BuiltWithoutInfo(c, c.endpoints[r.endpoint].methods[r.verb]);
  }

  /** A listing: part of the table, in its order up to the methods of an
      endpoint, without info tasks, and complete on the endpoints without an
      info method. */
  ghost predicate ListingOf(c: Config, all: seq<Route>, listed: seq<Route>) {
    && Ordered(Keys(listed))
    && (forall r :: r in listed ==> r in all && NoInfo(r.task))
    && (forall r :: r in all ==> r.endpoint < |c.endpoints|)
    && (forall r :: r in all && !HasInfo(c.endpoints[r.endpoint]) ==> r in listed)
  }

  /** Any run of `routes("info")` that ends well lists the table of any run of
      `routes()` that does. */
  lemma RunsAgree(c: Config, order: Order, depth: nat, order': Order, path': seq<nat>, depth': nat)
    requires AlwaysValid(c, order) && AlwaysValid(c, order') && !InfoLoops(c)
    requires Routes(c, [], order, [], depth).Done? && Routes(c, [INFO], order', path', depth').Done?
    ensures ListingOf(c, Routes(c, [], order, [], depth).value, Routes(c, [INFO], order', path', depth').value)
  {
    hide FromEndpoint, Sound, NoInfo, HasInfo, Faithful, InfoLoops;
    assert Valid(c, order, []) && Valid(c, order', path');
    SoundFrom(c, order, [], 0, depth);
    RoutesFrom(c, [], order, [], 0, depth);
    RoutesFrom(c, [INFO], order', path', 0, depth');
    VisitedFromMeaning(c, [], order, []);
    VisitedFromMeaning(c, [INFO], order', path');
    var all, listed := Routes(c, [], order, [], depth).value, Routes(c, [INFO], order', path', depth').value;
    SameRoutes(c, all, listed);
  }

  /** If nothing loops and `routes()` succeeds in some visiting order, then
      `routes("info")` succeeds in every one. Every route it lists is one of
      those of `routes()` and holds no info task; and of an endpoint without an
      info method it lists them all. */
  lemma InfoListsTheRoutes(c: Config, order: Order, depth: nat, order': Order, path': seq<nat>, depth': nat)
    requires AlwaysValid(c, order) && AlwaysValid(c, order') && !InfoLoops(c)
    requires Routes(c, [], order, [], depth).Done?
    requires depth' >= Tallest(c.endpoints)
    ensures Routes(c, [INFO], order', path', depth').Done?
    ensures ListingOf(c, Routes(c, [], order, [], depth).value, Routes(c, [INFO], order', path', depth').value)
  {
    hide FromEndpoint, Sound, Tallest, InfoLoops, ListingOf;
    assert Valid(c, order, []) && Valid(c, order', path');
    SoundFrom(c, order, [], 0, depth);
    SkippingFrom(c, order', path', 0, depth');
    RunsAgree(c, order, depth, order', path', depth');
  }

  /** From keys to routes. */
  lemma SameRoutes(c: Config, all: seq<Route>, listed: seq<Route>)
    requires forall j :: 0 <= j < |c.endpoints| ==> Sound(c, j)
    requires AllFaithful(c, listed) && AllFaithful(c, all)
    requires forall key :: key in Keys(listed) ==> KeyOk(c, [INFO], key)
    requires forall j, m :: 0 <= j < |c.endpoints| && m in c.endpoints[j].methods ==> Key(j, m) in Keys(all)
    requires forall key :: key in Keys(all) ==> KeyOk(c, [], key)
    requires forall j, m :: 0 <= j < |c.endpoints| && m in c.endpoints[j].methods && !Ignores(c.endpoints[j], [INFO]) ==>
                              Key(j, m) in Keys(listed)
    ensures forall r :: r in listed ==> r in all && NoInfo(r.task)
    ensures forall r :: r in all ==> r.endpoint < |c.endpoints|
    ensures forall r :: r in all && !HasInfo(c.endpoints[r.endpoint]) ==> r in listed
  {
    hide Sound, NoInfo, Faithful;
    forall r | r in listed
      ensures r in all && NoInfo(r.task)
    {
      var k :| 0 <= k < |listed| && listed[k] == r;
      assert Keys(listed)[k] in Keys(listed);
      var n := ListedTasks(c, listed, all, k);
    }
    forall r | r in all
      ensures r.endpoint < |c.endpoints|
      ensures !HasInfo(c.endpoints[r.endpoint]) ==> r in listed
    {
      var k :| 0 <= k < |all| && all[k] == r;
      assert Keys(all)[k] in Keys(all);
      if !HasInfo(c.endpoints[r.endpoint]) {
        var n :| 0 <= n < |listed| && Keys(listed)[n] == Key(r.endpoint, r.verb);
        assert Keys(listed)[n] in Keys(listed);
        var j := ListedTasks(c, listed, all, n);
        SameKeySameRoute(c, all[j], r);
      }
    }
  }

  lemma SameKeySameRoute(c: Config, a: Route, b: Route)
    requires Faithful(c, a) && Faithful(c, b) && a.endpoint == b.endpoint && a.verb == b.verb
    requires ScanTask(c, c.endpoints[a.endpoint].methods[a.verb]).Builds?
    ensures a == b
  {
  }

  // ---------------------------------------------------------------- the info tasks in the table

  /** An info task holds what a nested `routes("info")` returned. */
  ghost predicate Carries(c: Config, order: Order, t: Tasker)
    requires AlwaysValid(c, order)
  {
    t.Info? ==> exists path, depth :: Routes(c, [INFO], order, path, depth) == Done(t.routes)
  }

  lemma CompileCarries(c: Config, tc: TaskConfig, order: Order, path: seq<nat>, depth: nat)
    requires AlwaysValid(c, order) && depth > 0 && Compile(c, tc, order, path, depth).Done?
    ensures forall t :: t in Compile(c, tc, order, path, depth).value ==> Carries(c, order, t)
  {
    hide Routes, Embedded;
    if depth > 1 && TrimSpace(tc.typ) == INFO {
      assert Routes(c, [INFO], order, path, depth - 2).Done?;
    }
  }

  lemma {:induction false} MethodsCarry(c: Config, order: Order, path: seq<nat>, i: nat, names: seq<string>, depth: nat)
    requires AlwaysValid(c, order) && depth > 0 && i < |c.endpoints|
    requires forall m :: m in names ==> m in c.endpoints[i].methods
    requires AtMethods(c, [], order, path, i, names, depth).Done?
    ensures forall r :: r in AtMethods(c, [], order, path, i, names, depth).value ==> Carries(c, order, r.task)
    decreases |names|
  {
    hide Compile, Carries;
    if names != [] {
      CompileCarries(c, c.endpoints[i].methods[names[0]], order, path + [i, |names|], depth);
      MethodsCarry(c, order, path, i, names[1..], depth);
    }
  }

  lemma {:induction false} RoutesCarry(c: Config, order: Order, path: seq<nat>, i: nat, depth: nat)
    requires AlwaysValid(c, order) && Valid(c, order, path) && depth > 0 && i <= |c.endpoints|
    requires FromEndpoint(c, [], order, path, i, depth).Done?
    ensures forall r :: r in FromEndpoint(c, [], order, path, i, depth).value ==> Carries(c, order, r.task)
    decreases |c.endpoints| - i
  {
    hide AtMethods, Carries;
    if i < |c.endpoints| {
      MethodsCarry(c, order, path, i, order(path, i), depth);
      RoutesCarry(c, order, path, i + 1, depth);
    }
  }

  /** Where `routes()` comes to no info task, all that it made was built without. */
  lemma {:induction false} NothingReached(c: Config, order: Order, i: nat, depth: nat)
    requires AlwaysValid(c, order) && depth > 0 && i <= |c.endpoints|
    requires forall j: nat :: !ReachedAt(c, j)
    requires forall j :: 0 <= j < i ==> c.endpoints[j].paramsOk && AllBuild(c, c.endpoints[j])
    requires FromEndpoint(c, [], order, [], i, depth).Done?
    ensures forall j :: 0 <= j < |c.endpoints| ==> AllBuild(c, c.endpoints[j])
    decreases |c.endpoints| - i
  {
    hide AtMethods, ScanTask;
    if i < |c.endpoints| {
      assert Valid(c, order, []);
      assert !ReachedAt(c, i);
      DoneMethods(c, order, [], i, order([], i), depth);
      assert AllBuild(c, c.endpoints[i]);
      NothingReached(c, order, i + 1, depth);
    }
  }

  /** The table and the listings it holds: if no visiting order loops, every
      route of a successful `routes()` either holds no info task at all or is one,
      and then carries a listing of that very table. */
  lemma InfoTasksListTheTable(c: Config, order: Order, depth: nat, route: Route)
    requires AlwaysValid(c, order) && !Loops(c) && Routes(c, [], order, [], depth).Done?
    requires route in Routes(c, [], order, [], depth).value
    ensures NoInfo(route.task) <==> !route.task.Info?
    ensures route.task.Info? ==> ListingOf(c, Routes(c, [], order, [], depth).value, route.task.routes)
  {
    hide FromEndpoint, ScanTask, Shaped, ListingOf, LoopAt, ReachedAt;
    assert Valid(c, order, []);
    RoutesFrom(c, [], order, [], 0, depth);
    var all := Routes(c, [], order, [], depth).value;
    var k :| 0 <= k < |all| && all[k] == route;
    assert Faithful(c, all[k]);
    var tc := c.endpoints[route.endpoint].methods[route.verb];
    BuiltWithoutInfo(c, tc);
    if InfoLoops(c) {
      NothingReached(c, order, 0, depth);
    } else {
      SoundFrom(c, order, [], 0, depth);
      assert Sound(c, route.endpoint);
      RoutesCarry(c, order, [], 0, depth);
      if route.task.Info? {
        var path, d :| Routes(c, [INFO], order, path, d) == Done(route.task.routes);
        RunsAgree(c, order, depth, order, path, d);
      }
      InfoIsInfo(tc, route.task);
    }
  }

  lemma InfoIsInfo(tc: TaskConfig, t: Tasker)
    requires Shaped(tc, t)
    ensures tc.typ == INFO ==> t.Info?
  {
  }
}
