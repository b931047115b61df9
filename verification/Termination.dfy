/** When `routes()` comes to an end, exactly: which configurations it can recurse
    on for ever, whatever the stack, and that on all others it never does. */
module Termination {
  import opened Text
  import opened Routing
  import TaskItems

  // ---------------------------------------------------------------- a look at one task

  datatype Scan<+T> = Builds(t: T) | Rejects(e: Error) | ReachesInfo

  /** What compiling a task comes to without running `InfoTaskFactory`: a tasker,
      an error, or a call of that factory. */
  function ScanTask(c: Config, tc: TaskConfig): Scan<Tasker>
    decreases tc, 1
  {
    var typ := TrimSpace(tc.typ);
    if typ == "" then Rejects(InvalidType)
    else if !tc.paramsOk then Rejects(BadParams)
    else if typ !in BUILTIN then Rejects(UnknownTask(typ))
    else match ScanFactory(c, typ, tc.raw)
      case Rejects(e) => Rejects(TaskReturned(typ, e))
      case other => other
  }

  function ScanFactory(c: Config, typ: string, raw: Raw): Scan<Tasker>
    decreases raw, 0
  {
    if typ == INFO then ReachesInfo
    else if typ == MULTI then
      match raw.multi
      case None => Rejects(BadConfig)
      case Some(m) =>
        if !MultiAccepts(m) then Rejects(BadConfig)
        else match ScanAll(c, m.tasks)
          case Builds(ts) => Builds(Multi(ts, TaskItems.IndexOf(m.single)))
          case Rejects(e) => Rejects(e)
          case ReachesInfo => ReachesInfo
    else
      match LeafFactory(c, typ, raw)
      case Ok(t) => Builds(t)
      case Err(e) => Rejects(e)
  }

  function ScanAll(c: Config, tasks: seq<TaskConfig>): Scan<seq<Tasker>>
    decreases tasks
  {
    if tasks == [] then Builds([])
    else if tasks[0].typ == MULTI then Rejects(EmbeddedMulti)
    else match ScanTask(c, tasks[0])
      case Rejects(e) => Rejects(e)
      case ReachesInfo => ReachesInfo
      case Builds(t) =>
        match ScanAll(c, tasks[1..])
        case Builds(ts) => Builds([t] + ts)
        case other => other
  }

  /** Stack frames the compilation of a task needs, apart from `info` tasks. */
  function Height(tc: TaskConfig): (h: nat)
    ensures h >= 2
    decreases tc
  {
    1 + (match tc.raw.multi case None => 1 case Some(m) => Heights(m.tasks))
  }

  function Heights(tasks: seq<TaskConfig>): (h: nat)
    ensures h >= 1
    decreases tasks
  {
    if tasks == [] then 1
    else
      var a, b := Height(tasks[0]), Heights(tasks[1..]);
      if a > b then a else b
  }

  /** `out` is `done`, or the stack ended first. */
  ghost predicate Within<T>(out: Outcome<T>, done: Outcome<T>, enough: bool) {
    out == done || (out == Overflow && !enough)
  }

  lemma {:induction false} CompileScanned(c: Config, tc: TaskConfig, order: Order, path: seq<nat>, depth: nat)
    requires AlwaysValid(c, order) && depth > 0
    ensures match ScanTask(c, tc)
            case Builds(t) => Within(Compile(c, tc, order, path, depth), Done([t]), depth >= Height(tc))
            case Rejects(e) => Within(Compile(c, tc, order, path, depth), Fails(e), depth >= Height(tc))
            case ReachesInfo => true
    decreases depth, 1, 0
  {
    var typ := TrimSpace(tc.typ);
    if typ != "" && tc.paramsOk && typ in BUILTIN && depth > 1 && typ == MULTI && tc.raw.multi.Some? {
      EmbeddedScanned(c, tc.raw.multi.value.tasks, order, path, depth - 1);
    }
  }

  lemma {:induction false} EmbeddedScanned(c: Config, tasks: seq<TaskConfig>, order: Order, path: seq<nat>, depth: nat)
    requires AlwaysValid(c, order) && depth > 0
    ensures match ScanAll(c, tasks)
            case Builds(ts) => Within(Embedded(c, tasks, order, path, depth), Done(ts), depth >= Heights(tasks))
            case Rejects(e) => Within(Embedded(c, tasks, order, path, depth), Fails(e), depth >= Heights(tasks))
            case ReachesInfo => true
    decreases depth, 2, |tasks|
  {
    if tasks != [] && tasks[0].typ != MULTI {
      CompileScanned(c, tasks[0], order, path + [|tasks|], depth);
      EmbeddedScanned(c, tasks[1..], order, path, depth);
    }
  }

  // ---------------------------------------------------------------- through InfoTaskFactory

  /** Every activation of `routes("info")` below the root with fewer frames
      than `depth` overflows. */
  ghost predicate InfoOverflows(c: Config, order: Order, depth: nat)
    requires AlwaysValid(c, order)
  {
    forall d: nat, path: seq<nat> :: d < depth && path != [] ==> Routes(c, [INFO], order, path, d) == Overflow
  }

  lemma {:induction false} CompileOverflows(c: Config, tc: TaskConfig, order: Order, path: seq<nat>, depth: nat)
    requires AlwaysValid(c, order) && depth > 0 && path != []
    requires ScanTask(c, tc).ReachesInfo? && InfoOverflows(c, order, depth)
    ensures Compile(c, tc, order, path, depth) == Overflow
    decreases depth, 1, 0
  {
    var typ := TrimSpace(tc.typ);
    if depth > 1 {
      if typ == INFO {
        assert Routes(c, [INFO], order, path, depth - 2) == Overflow;
      } else {
        EmbeddedOverflows(c, tc.raw.multi.value.tasks, order, path, depth - 1);
      }
    }
  }

  lemma {:induction false} EmbeddedOverflows(c: Config, tasks: seq<TaskConfig>, order: Order, path: seq<nat>,
                                             depth: nat)
    requires AlwaysValid(c, order) && depth > 0 && path != []
    requires ScanAll(c, tasks).ReachesInfo? && InfoOverflows(c, order, depth)
    ensures Embedded(c, tasks, order, path, depth) == Overflow
    decreases depth, 2, |tasks|
  {
    if ScanTask(c, tasks[0]).ReachesInfo? {
      CompileOverflows(c, tasks[0], order, path + [|tasks|], depth);
    } else {
      CompileScanned(c, tasks[0], order, path + [|tasks|], depth);
      EmbeddedOverflows(c, tasks[1..], order, path, depth);
    }
  }

  /** Every activation of `routes("info")` with at least `enough` frames ends. */
  ghost predicate InfoEnds(c: Config, order: Order, enough: nat)
    requires AlwaysValid(c, order)
  {
    forall d: nat, path: seq<nat> :: d >= enough ==> Routes(c, [INFO], order, path, d) != Overflow
  }

  lemma {:induction false} CompileEnds(c: Config, tc: TaskConfig, order: Order, path: seq<nat>, depth: nat, enough: nat)
    requires AlwaysValid(c, order) && InfoEnds(c, order, enough) && depth >= enough + Height(tc)
    ensures Compile(c, tc, order, path, depth) != Overflow
    decreases depth, 1, 0
  {
    var typ := TrimSpace(tc.typ);
    if typ == INFO {
      assert Routes(c, [INFO], order, path, depth - 2) != Overflow;
    } else if typ == MULTI && tc.raw.multi.Some? {
      EmbeddedEnds(c, tc.raw.multi.value.tasks, order, path, depth - 1, enough);
    }
  }

  lemma {:induction false} EmbeddedEnds(c: Config, tasks: seq<TaskConfig>, order: Order, path: seq<nat>,
                                        depth: nat, enough: nat)
    requires AlwaysValid(c, order) && InfoEnds(c, order, enough) && depth >= enough + Heights(tasks)
    ensures Embedded(c, tasks, order, path, depth) != Overflow
    decreases depth, 2, |tasks|
  {
    if tasks != [] && tasks[0].typ != MULTI {
      CompileEnds(c, tasks[0], order, path + [|tasks|], depth, enough);
      EmbeddedEnds(c, tasks[1..], order, path, depth, enough);
    }
  }

  // ---------------------------------------------------------------- the condition

  predicate HasInfo(e: Endpoint) {
    exists m :: m in e.methods && e.methods[m].typ == INFO
  }

  /** A task that calls `InfoTaskFactory` although `routes("info")` does not
      ignore it: nested in a multi task, or spelled with spaces around it. */
  predicate Hidden(c: Config, tc: TaskConfig) {
    tc.typ != INFO && ScanTask(c, tc).ReachesInfo?
  }

  predicate HasHidden(c: Config, e: Endpoint) {
    exists m :: m in e.methods && Hidden(c, e.methods[m])
  }

  predicate AllBuild(c: Config, e: Endpoint) {
    forall m :: m in e.methods ==> ScanTask(c, e.methods[m]).Builds?
  }

  /** Some visit of `routes("info")` gets past this endpoint. */
  predicate Passable(c: Config, e: Endpoint) {
    e.paramsOk && (HasInfo(e) || AllBuild(c, e))
  }

  predicate LoopAt(c: Config, k: nat) {
    && k < |c.endpoints| && c.endpoints[k].paramsOk && HasHidden(c, c.endpoints[k])
    && forall i :: 0 <= i < k ==> Passable(c, c.endpoints[i])
  }

  /** `routes("info")` can come to a hidden info task. */
  ghost predicate InfoLoops(c: Config) {
    AuthorizersOk(c) && exists k: nat :: LoopAt(c, k)
  }

  predicate ReachedAt(c: Config, j: nat) {
    && j < |c.endpoints| && c.endpoints[j].paramsOk
    && (exists m :: m in c.endpoints[j].methods && ScanTask(c, c.endpoints[j].methods[m]).ReachesInfo?)
    && forall i :: 0 <= i < j ==> c.endpoints[i].paramsOk && AllBuild(c, c.endpoints[i])
  }

  /** `routes()` gets to an info task at all, and from there the loop. */
  ghost predicate Loops(c: Config) {
    InfoLoops(c) && exists j: nat :: ReachedAt(c, j)
  }

  // ---------------------------------------------------------------- loops do overflow

  /** The methods with a chosen one first. */
  ghost function Enumerate(names: set<string>): (s: seq<string>)
    ensures forall j, k :: 0 <= j < k < |s| ==> s[j] != s[k]
    ensures forall m :: m in s <==> m in names
  {
    if names == {} then []
    else
      var m :| m in names;
      [m] + Enumerate(names - {m})
  }

  ghost function ChosenFirst(methods: map<string, TaskConfig>, chosen: TaskConfig -> bool): (s: seq<string>)
    ensures Lists(s, methods)
    ensures (exists m :: m in methods && chosen(methods[m])) ==> s != [] && chosen(methods[s[0]])
  {
    if exists m :: m in methods && chosen(methods[m]) then
      var m :| m in methods && chosen(methods[m]);
      [m] + Enumerate(methods.Keys - {m})
    else Enumerate(methods.Keys)
  }

  /** The visits that loop: at the root an info task comes first; below it, a
      literal `info` first, which skips the endpoint, until the hidden one. */
  ghost function LoopingOrder(c: Config, k: nat): (order: Order)
    ensures AlwaysValid(c, order)
  {
    (path: seq<nat>, i: nat) =>
      if i >= |c.endpoints| then []
      else if path == [] then ChosenFirst(c.endpoints[i].methods, tc => ScanTask(c, tc).ReachesInfo?)
      else if i < k then ChosenFirst(c.endpoints[i].methods, (tc: TaskConfig) => tc.typ == INFO)
      else ChosenFirst(c.endpoints[i].methods, tc => Hidden(c, tc))
  }

  lemma {:induction false} MethodsBuild(c: Config, ignored: seq<string>, order: Order, path: seq<nat>, i: nat,
                                        names: seq<string>, depth: nat)
    requires AlwaysValid(c, order) && depth > 0 && i < |c.endpoints|
    requires forall m :: m in names ==> m in c.endpoints[i].methods && !Hidden(c, c.endpoints[i].methods[m])
    requires forall m :: m in names ==>
               c.endpoints[i].methods[m].typ in ignored || ScanTask(c, c.endpoints[i].methods[m]).Builds?
    ensures !AtMethods(c, ignored, order, path, i, names, depth).Fails?
    decreases |names|
  {
    if names != [] {
      CompileScanned(c, c.endpoints[i].methods[names[0]], order, path + [i, |names|], depth);
      MethodsBuild(c, ignored, order, path, i, names[1..], depth);
    }
  }

  /** An endpoint whose visit starts with an ignored task passes. */
  lemma FirstIgnored(c: Config, ignored: seq<string>, order: Order, path: seq<nat>, i: nat, depth: nat)
    requires AlwaysValid(c, order) && depth > 0 && i < |c.endpoints| && c.endpoints[i].paramsOk
    requires Valid(c, order, path) && order(path, i) != []
    requires c.endpoints[i].methods[order(path, i)[0]].typ in ignored
    ensures AtEndpoint(c, ignored, order, path, i, depth) == Done([])
  {
  }

  lemma AllBuildPasses(c: Config, ignored: seq<string>, order: Order, path: seq<nat>, i: nat, depth: nat)
    requires AlwaysValid(c, order) && depth > 0 && i < |c.endpoints| && c.endpoints[i].paramsOk
    requires AllBuild(c, c.endpoints[i])
    ensures !AtEndpoint(c, ignored, order, path, i, depth).Fails?
  {
    assert Valid(c, order, path);
    MethodsBuild(c, ignored, order, path, i, order(path, i), depth);
  }

  /** An endpoint whose visit starts with a call of `InfoTaskFactory` overflows. */
  lemma FirstReaches(c: Config, ignored: seq<string>, order: Order, path: seq<nat>, i: nat, depth: nat)
    requires AlwaysValid(c, order) && depth > 0 && i < |c.endpoints| && c.endpoints[i].paramsOk
    requires Valid(c, order, path) && order(path, i) != []
    requires var tc := c.endpoints[i].methods[order(path, i)[0]];
             tc.typ !in ignored && ScanTask(c, tc).ReachesInfo?
    requires InfoOverflows(c, order, depth)
    ensures AtEndpoint(c, ignored, order, path, i, depth) == Overflow
  {
    var names := order(path, i);
    CompileOverflows(c, c.endpoints[i].methods[names[0]], order, path + [i, |names|], depth);
  }

  lemma LoopingVisits(c: Config, k: nat, path: seq<nat>, i: nat)
    requires LoopAt(c, k) && path != [] && i <= k
    ensures Valid(c, LoopingOrder(c, k), path)
    ensures var names := LoopingOrder(c, k)(path, i);
            && (i < k && HasInfo(c.endpoints[i]) ==> names != [] && c.endpoints[i].methods[names[0]].typ == INFO)
            && (i == k ==> names != [] && Hidden(c, c.endpoints[i].methods[names[0]]))
  {
    assert Valid(c, LoopingOrder(c, k), path);
  }

  lemma RootVisits(c: Config, k: nat, j: nat)
    requires ReachedAt(c, j)
    ensures Valid(c, LoopingOrder(c, k), [])
    ensures var names := LoopingOrder(c, k)([], j);
            names != [] && ScanTask(c, c.endpoints[j].methods[names[0]]).ReachesInfo?
  {
    assert Valid(c, LoopingOrder(c, k), []);
  }

  lemma {:induction false} LoopOverflows(c: Config, k: nat, path: seq<nat>, depth: nat)
    requires AuthorizersOk(c) && LoopAt(c, k) && path != []
    ensures Routes(c, [INFO], LoopingOrder(c, k), path, depth) == Overflow
    decreases depth, 1, 0
  {
    if depth > 0 {
      LoopBelow(c, k, depth);
      LoopOverflowsFrom(c, k, path, 0, depth);
    }
  }

  lemma {:induction false} LoopBelow(c: Config, k: nat, depth: nat)
    requires AuthorizersOk(c) && LoopAt(c, k)
    ensures InfoOverflows(c, LoopingOrder(c, k), depth)
    decreases depth, 0, 0
  {
    forall d: nat, path: seq<nat> | d < depth && path != []
      ensures Routes(c, [INFO], LoopingOrder(c, k), path, d) == Overflow
    {
      LoopOverflows(c, k, path, d);
    }
  }

  lemma {:induction false} LoopOverflowsFrom(c: Config, k: nat, path: seq<nat>, i: nat, depth: nat)
    requires AuthorizersOk(c) && LoopAt(c, k) && path != [] && i <= k && depth > 0
    requires InfoOverflows(c, LoopingOrder(c, k), depth)
    ensures FromEndpoint(c, [INFO], LoopingOrder(c, k), path, i, depth) == Overflow
    decreases k - i
  {
    hide AtEndpoint, ScanTask, LoopingOrder, AlwaysValid;
    var order := LoopingOrder(c, k);
    LoopingVisits(c, k, path, i);
    if i == k {
      FirstReaches(c, [INFO], order, path, i, depth);
    } else {
      assert Passable(c, c.endpoints[i]);
      if HasInfo(c.endpoints[i]) {
        FirstIgnored(c, [INFO], order, path, i, depth);
      } else {
        AllBuildPasses(c, [INFO], order, path, i, depth);
      }
      LoopOverflowsFrom(c, k, path, i + 1, depth);
    }
  }

  lemma {:induction false} RootOverflowsFrom(c: Config, k: nat, j: nat, i: nat, depth: nat)
    requires AuthorizersOk(c) && LoopAt(c, k) && ReachedAt(c, j) && i <= j && depth > 0
    ensures FromEndpoint(c, [], LoopingOrder(c, k), [], i, depth) == Overflow
    decreases j - i
  {
    hide AtEndpoint, ScanTask, LoopingOrder, AlwaysValid;
    var order := LoopingOrder(c, k);
    if i < j {
      AllBuildPasses(c, [], order, [], i, depth);
      RootOverflowsFrom(c, k, j, i + 1, depth);
    } else {
      RootVisits(c, k, j);
      LoopBelow(c, k, depth);
      FirstReaches(c, [], order, [], i, depth);
    }
  }

  // ---------------------------------------------------------------- the others do not

  function EndpointHeight(names: seq<string>, methods: map<string, TaskConfig>): (h: nat)
    requires forall m :: m in names ==> m in methods
    ensures h >= 1
    ensures forall m :: m in names ==> Height(methods[m]) <= h
  {
    if names == [] then 1
    else
      var a, b := Height(methods[names[0]]), EndpointHeight(names[1..], methods);
      if a > b then a else b
  }

  /** Stack frames that are enough for any task of the configuration. */
  ghost function Tallest(endpoints: seq<Endpoint>): (h: nat)
    ensures h >= 1
    ensures forall i, m :: 0 <= i < |endpoints| && m in endpoints[i].methods ==> Height(endpoints[i].methods[m]) <= h
  {
    if endpoints == [] then 1
    else
      var a, b := EndpointHeight(Enumerate(endpoints[0].methods.Keys), endpoints[0].methods), Tallest(endpoints[1..]);
      if a > b then a else b
  }

  /** Without a hidden task among them, methods end; and if they all pass, then
      one was ignored or all of them build. */
  lemma {:induction false} MethodsEnd(c: Config, order: Order, path: seq<nat>, i: nat, names: seq<string>, depth: nat)
    requires AlwaysValid(c, order) && i < |c.endpoints| && depth >= Tallest(c.endpoints)
    requires forall m :: m in names ==> m in c.endpoints[i].methods && !Hidden(c, c.endpoints[i].methods[m])
    ensures AtMethods(c, [INFO], order, path, i, names, depth) != Overflow
    ensures AtMethods(c, [INFO], order, path, i, names, depth).Done? ==>
              || (exists m :: m in names && c.endpoints[i].methods[m].typ == INFO)
              || (forall m :: m in names ==> ScanTask(c, c.endpoints[i].methods[m]).Builds?)
    decreases |names|
  {
    hide Compile, ScanTask, Tallest;
    if names != [] {
      var tc := c.endpoints[i].methods[names[0]];
      assert names[0] in names;
      assert names == [names[0]] + names[1..];
      if tc.typ != INFO {
        CompileScanned(c, tc, order, path + [i, |names|], depth);
        MethodsEnd(c, order, path, i, names[1..], depth);
      }
    }
  }

  lemma EndpointEnds(c: Config, order: Order, path: seq<nat>, i: nat, depth: nat)
    requires AlwaysValid(c, order) && i < |c.endpoints| && depth >= Tallest(c.endpoints)
    requires c.endpoints[i].paramsOk ==> !HasHidden(c, c.endpoints[i])
    ensures AtEndpoint(c, [INFO], order, path, i, depth) != Overflow
    ensures AtEndpoint(c, [INFO], order, path, i, depth).Done? ==> Passable(c, c.endpoints[i])
  {
    if c.endpoints[i].paramsOk {
      assert Valid(c, order, path);
      MethodsEnd(c, order, path, i, order(path, i), depth);
    }
  }

  lemma {:induction false} InfoEndsFrom(c: Config, order: Order, path: seq<nat>, i: nat, depth: nat)
    requires AlwaysValid(c, order) && AuthorizersOk(c) && !InfoLoops(c)
    requires i <= |c.endpoints| && depth >= Tallest(c.endpoints)
    requires forall j :: 0 <= j < i ==> Passable(c, c.endpoints[j])
    ensures FromEndpoint(c, [INFO], order, path, i, depth) != Overflow
    decreases |c.endpoints| - i
  {
    hide AtEndpoint, ScanTask, HasHidden, Passable, Tallest;
    if i < |c.endpoints| {
      assert !LoopAt(c, i);
      EndpointEnds(c, order, path, i, depth);
      if AtEndpoint(c, [INFO], order, path, i, depth).Done? {
        InfoEndsFrom(c, order, path, i + 1, depth);
      }
    }
  }

  lemma InfoAlwaysEnds(c: Config, order: Order)
    requires AlwaysValid(c, order) && !InfoLoops(c)
    ensures InfoEnds(c, order, Tallest(c.endpoints))
  {
    forall d: nat, path: seq<nat> | d >= Tallest(c.endpoints)
      ensures Routes(c, [INFO], order, path, d) != Overflow
    {
      if AuthorizersOk(c) { InfoEndsFrom(c, order, path, 0, d); }
    }
  }

  /** Stack frames that are enough for `routes()` if anything is. */
  ghost function Bound(c: Config): nat { 2 * Tallest(c.endpoints) }

  lemma {:induction false} RootMethodsEnd(c: Config, order: Order, i: nat, names: seq<string>, depth: nat)
    requires AlwaysValid(c, order) && i < |c.endpoints| && depth >= Bound(c)
    requires forall m :: m in names ==> m in c.endpoints[i].methods
    requires !InfoLoops(c) || forall m :: m in names ==> !ScanTask(c, c.endpoints[i].methods[m]).ReachesInfo?
    ensures AtMethods(c, [], order, [], i, names, depth) != Overflow
    ensures AtMethods(c, [], order, [], i, names, depth).Done? ==>
              forall m :: m in names ==> !ScanTask(c, c.endpoints[i].methods[m]).Rejects?
    decreases |names|
  {
    hide Compile, ScanTask, Tallest, Height, InfoLoops;
    if names != [] {
      var tc := c.endpoints[i].methods[names[0]];
      assert names[0] in names;
      assert names == [names[0]] + names[1..];
      CompileScanned(c, tc, order, [] + [i, |names|], depth);
      if ScanTask(c, tc).ReachesInfo? {
        InfoAlwaysEnds(c, order);
        CompileEnds(c, tc, order, [] + [i, |names|], depth, Tallest(c.endpoints));
      }
      RootMethodsEnd(c, order, i, names[1..], depth);
    }
  }

  lemma RootEndpointEnds(c: Config, order: Order, i: nat, depth: nat)
    requires AlwaysValid(c, order) && i < |c.endpoints| && depth >= Bound(c)
    requires InfoLoops(c) && c.endpoints[i].paramsOk ==>
               forall m :: m in c.endpoints[i].methods ==> !ScanTask(c, c.endpoints[i].methods[m]).ReachesInfo?
    ensures AtEndpoint(c, [], order, [], i, depth) != Overflow
    ensures AtEndpoint(c, [], order, [], i, depth).Done? && InfoLoops(c) ==>
              c.endpoints[i].paramsOk && AllBuild(c, c.endpoints[i])
  {
    if c.endpoints[i].paramsOk {
      assert Valid(c, order, []);
      RootMethodsEnd(c, order, i, order([], i), depth);
    }
  }

  lemma {:induction false} RootEndsFrom(c: Config, order: Order, i: nat, depth: nat)
    requires AlwaysValid(c, order) && AuthorizersOk(c) && !Loops(c)
    requires i <= |c.endpoints| && depth >= Bound(c)
    requires InfoLoops(c) ==> forall j :: 0 <= j < i ==> c.endpoints[j].paramsOk && AllBuild(c, c.endpoints[j])
    ensures FromEndpoint(c, [], order, [], i, depth) != Overflow
    decreases |c.endpoints| - i
  {
    hide AtEndpoint, ScanTask, AllBuild, Tallest;
    if i < |c.endpoints| {
      assert InfoLoops(c) ==> !ReachedAt(c, i);
      RootEndpointEnds(c, order, i, depth);
      if AtEndpoint(c, [], order, [], i, depth).Done? {
        RootEndsFrom(c, order, i + 1, depth);
      }
    }
  }

  // ---------------------------------------------------------------- exactly

  /** In this visiting order the calls nest deeper than any stack. */
  ghost predicate Diverges(c: Config, ignored: seq<string>, order: Order, path: seq<nat>)
    requires AlwaysValid(c, order)
  {
    forall depth :: Routes(c, ignored, order, path, depth) == Overflow
  }

  /** In no visiting order is a stack of `enough` frames or more exhausted. */
  ghost predicate AlwaysEnds(c: Config, ignored: seq<string>, path: seq<nat>, enough: nat) {
    forall order, depth :: AlwaysValid(c, order) && depth >= enough ==> Routes(c, ignored, order, path, depth) != Overflow
  }

  lemma EndsOrDiverges(c: Config, ignored: seq<string>, order: Order, path: seq<nat>, enough: nat)
    requires AlwaysValid(c, order) && Diverges(c, ignored, order, path)
    ensures !AlwaysEnds(c, ignored, path, enough)
  {
    assert Routes(c, ignored, order, path, enough) == Overflow;
  }

  /** On a looping configuration `routes()` has a visiting order that exhausts
      every stack; on every other one, no order exhausts a stack of `Bound(c)`
      frames or more. */
  lemma RoutesTerminates(c: Config)
    ensures Loops(c) <==> exists order :: AlwaysValid(c, order) && Diverges(c, [], order, [])
    ensures !Loops(c) <==> AlwaysEnds(c, [], [], Bound(c))
  {
    hide FromEndpoint, LoopAt, ReachedAt;
    if Loops(c) {
      var k: nat :| LoopAt(c, k);
      var j: nat :| ReachedAt(c, j);
      var order := LoopingOrder(c, k);
      forall depth: nat
        ensures Routes(c, [], order, [], depth) == Overflow
      {
        if depth > 0 { RootOverflowsFrom(c, k, j, 0, depth); }
      }
      EndsOrDiverges(c, [], order, [], Bound(c));
    } else {
      forall order, depth: nat | AlwaysValid(c, order) && depth >= Bound(c)
        ensures Routes(c, [], order, [], depth) != Overflow
      {
        if AuthorizersOk(c) { RootEndsFrom(c, order, 0, depth); }
      }
      forall order | AlwaysValid(c, order)
        ensures !Diverges(c, [], order, [])
      {
        if Diverges(c, [], order, []) { EndsOrDiverges(c, [], order, [], Bound(c)); }
      }
    }
  }

  /** The same for `routes("info")`, as `InfoTaskFactory` calls it. */
  lemma InfoRoutesTerminates(c: Config, path: seq<nat>)
    requires path != []
    ensures InfoLoops(c) <==> exists order :: AlwaysValid(c, order) && Diverges(c, [INFO], order, path)
    ensures !InfoLoops(c) <==> AlwaysEnds(c, [INFO], path, Tallest(c.endpoints))
  {
    hide Routes, LoopAt;
    if InfoLoops(c) {
      var k: nat :| LoopAt(c, k);
      var order := LoopingOrder(c, k);
      forall depth: nat
        ensures Routes(c, [INFO], order, path, depth) == Overflow
      {
        LoopOverflows(c, k, path, depth);
      }
      EndsOrDiverges(c, [INFO], order, path, Tallest(c.endpoints));
    } else {
      forall order, depth: nat | AlwaysValid(c, order) && depth >= Tallest(c.endpoints)
        ensures Routes(c, [INFO], order, path, depth) != Overflow
      {
        InfoAlwaysEnds(c, order);
      }
      forall order | AlwaysValid(c, order)
        ensures !Diverges(c, [INFO], order, path)
      {
        if Diverges(c, [INFO], order, path) { EndsOrDiverges(c, [INFO], order, path, Tallest(c.endpoints)); }
      }
    }
  }

  /** With a single endpoint and a single method that hides an info task, such
      as a multi task whose first embedded task is one, there is no way out:
      every run exhausts every stack. */
  lemma {:induction false} LoneHiddenTaskOverflows(c: Config, verb: string, ignored: seq<string>, order: Order,
                                                   path: seq<nat>, depth: nat)
    requires AlwaysValid(c, order) && AuthorizersOk(c) && |c.endpoints| == 1 && c.endpoints[0].paramsOk
    requires c.endpoints[0].methods.Keys == {verb} && Hidden(c, c.endpoints[0].methods[verb])
    requires ignored == [] || ignored == [INFO]
    ensures Routes(c, ignored, order, path, depth) == Overflow
    decreases depth
  {
    if depth > 0 {
      forall d: nat, p: seq<nat> | d < depth && p != []
        ensures Routes(c, [INFO], order, p, d) == Overflow
      {
        LoneHiddenTaskOverflows(c, verb, [INFO], order, p, d);
      }
      hide AtEndpoint, ScanTask;
      assert Valid(c, order, path);
      assert verb in order(path, 0);
      assert order(path, 0)[0] in c.endpoints[0].methods;
      FirstReaches(c, ignored, order, path, 0, depth);
    }
  }

  /** The multi task of that example. */
  lemma MultiOfInfoIsHidden(c: Config, tc: TaskConfig)
    requires TrimSpace(tc.typ) == MULTI && tc.paramsOk && tc.raw.multi.Some? && MultiAccepts(tc.raw.multi.value)
    requires TrimSpace(tc.raw.multi.value.tasks[0].typ) == INFO && tc.raw.multi.value.tasks[0].paramsOk
    ensures Hidden(c, tc)
  {
    assert ScanTask(c, tc.raw.multi.value.tasks[0]).ReachesInfo?;
    assert ScanAll(c, tc.raw.multi.value.tasks).ReachesInfo?;
    assert ScanFactory(c, MULTI, tc.raw).ReachesInfo?;
  }

  // ---------------------------------------------------------------- the stack only ends runs

  /** A run that ends is the same with one more frame, and so with any more. */
  lemma {:induction false} RoutesStable(c: Config, ignored: seq<string>, order: Order, path: seq<nat>, depth: nat)
    requires AlwaysValid(c, order) && Routes(c, ignored, order, path, depth) != Overflow
    ensures Routes(c, ignored, order, path, depth + 1) == Routes(c, ignored, order, path, depth)
    decreases depth, 3, 0
  {
    if AuthorizersOk(c) { FromEndpointStable(c, ignored, order, path, 0, depth); }
  }

  lemma {:induction false} FromEndpointStable(c: Config, ignored: seq<string>, order: Order, path: seq<nat>,
                                              i: nat, depth: nat)
    requires AlwaysValid(c, order) && depth > 0 && i <= |c.endpoints|
    requires FromEndpoint(c, ignored, order, path, i, depth) != Overflow
    ensures FromEndpoint(c, ignored, order, path, i, depth + 1) == FromEndpoint(c, ignored, order, path, i, depth)
    decreases depth, 2, |c.endpoints| - i
  {
    hide AtMethods;
    if i < |c.endpoints| {
      if c.endpoints[i].paramsOk {
        assert Valid(c, order, path);
        assert AtEndpoint(c, ignored, order, path, i, depth) == AtMethods(c, ignored, order, path, i, order(path, i), depth);
        AtMethodsStable(c, ignored, order, path, i, order(path, i), depth);
      }
      if AtEndpoint(c, ignored, order, path, i, depth).Done? {
        FromEndpointStable(c, ignored, order, path, i + 1, depth);
      }
    }
  }

  lemma {:induction false} AtMethodsStable(c: Config, ignored: seq<string>, order: Order, path: seq<nat>, i: nat,
                                           names: seq<string>, depth: nat)
    requires AlwaysValid(c, order) && depth > 0 && i < |c.endpoints|
    requires forall m :: m in names ==> m in c.endpoints[i].methods
    requires AtMethods(c, ignored, order, path, i, names, depth) != Overflow
    ensures AtMethods(c, ignored, order, path, i, names, depth + 1) == AtMethods(c, ignored, order, path, i, names, depth)
    decreases depth, 1, |names|
  {
    hide Compile, AlwaysValid;
    if names != [] {
      var tc := c.endpoints[i].methods[names[0]];
      if tc.typ !in ignored {
        CompileStable(c, tc, order, path + [i, |names|], depth);
        if Compile(c, tc, order, path + [i, |names|], depth).Done? {
          AtMethodsStable(c, ignored, order, path, i, names[1..], depth);
        }
      }
    }
  }

  lemma {:induction false} CompileStable(c: Config, tc: TaskConfig, order: Order, path: seq<nat>, depth: nat)
    requires AlwaysValid(c, order) && depth > 0 && Compile(c, tc, order, path, depth) != Overflow
    ensures Compile(c, tc, order, path, depth + 1) == Compile(c, tc, order, path, depth)
    decreases depth, 0, 0
  {
    hide Routes, Embedded, LeafFactory, AlwaysValid;
    var typ := TrimSpace(tc.typ);
    if typ != "" && tc.paramsOk && typ in BUILTIN && depth > 1 {
      if typ == INFO {
        RoutesStable(c, [INFO], order, path, depth - 2);
      } else if typ == MULTI && tc.raw.multi.Some? && MultiAccepts(tc.raw.multi.value) {
        EmbeddedStable(c, tc.raw.multi.value.tasks, order, path, depth - 1);
      }
    }
  }

  lemma {:induction false} EmbeddedStable(c: Config, tasks: seq<TaskConfig>, order: Order, path: seq<nat>, depth: nat)
    requires AlwaysValid(c, order) && depth > 0 && Embedded(c, tasks, order, path, depth) != Overflow
    ensures Embedded(c, tasks, order, path, depth + 1) == Embedded(c, tasks, order, path, depth)
    decreases depth, 4, |tasks|
  {
    hide Compile, AlwaysValid;
    if tasks != [] && tasks[0].typ != MULTI {
      CompileStable(c, tasks[0], order, path + [|tasks|], depth);
      if Compile(c, tasks[0], order, path + [|tasks|], depth).Done? {
        EmbeddedStable(c, tasks[1..], order, path, depth);
      }
    }
  }

  // ---------------------------------------------------------------- a sufficient condition

  /** An `info` task, spelled any way, at any depth inside. */
  predicate EmbedsInfo(raw: Raw)
    decreases raw
  {
    raw.multi.Some? && exists k :: 0 <= k < |raw.multi.value.tasks| && IsOrEmbedsInfo(raw.multi.value.tasks[k])
  }

  predicate IsOrEmbedsInfo(tc: TaskConfig)
    decreases tc
  {
    TrimSpace(tc.typ) == INFO || EmbedsInfo(tc.raw)
  }

  lemma {:induction false} OnlyThroughInfo(c: Config, tc: TaskConfig)
    ensures ScanTask(c, tc).ReachesInfo? ==> IsOrEmbedsInfo(tc)
    decreases tc, 1
  {
    if ScanTask(c, tc).ReachesInfo? && TrimSpace(tc.typ) != INFO {
      assert ScanFactory(c, TrimSpace(tc.typ), tc.raw).ReachesInfo?;
      OnlyThroughEmbedded(c, tc.raw.multi.value.tasks);
      assert EmbedsInfo(tc.raw);
    }
  }

  lemma {:induction false} OnlyThroughEmbedded(c: Config, tasks: seq<TaskConfig>)
    ensures ScanAll(c, tasks).ReachesInfo? ==> exists k :: 0 <= k < |tasks| && IsOrEmbedsInfo(tasks[k])
    decreases tasks
  {
    if tasks != [] {
      OnlyThroughInfo(c, tasks[0]);
      OnlyThroughEmbedded(c, tasks[1..]);
      if k :| 0 <= k < |tasks[1..]| && IsOrEmbedsInfo(tasks[1..][k]) {
        assert IsOrEmbedsInfo(tasks[k + 1]);
      }
    }
  }

  /** If no task embeds an info task and every method's type that trims to
      `info` is literally `info`, then nothing loops. */
  lemma PlainConfigsEnd(c: Config)
    requires forall i, m :: 0 <= i < |c.endpoints| && m in c.endpoints[i].methods ==>
               var tc := c.endpoints[i].methods[m];
               !EmbedsInfo(tc.raw) && (TrimSpace(tc.typ) == INFO ==> tc.typ == INFO)
    ensures !InfoLoops(c) && !Loops(c)
  {
    forall i, m | 0 <= i < |c.endpoints| && m in c.endpoints[i].methods
      ensures !Hidden(c, c.endpoints[i].methods[m])
    {
      OnlyThroughInfo(c, c.endpoints[i].methods[m]);
    }
  }
}
