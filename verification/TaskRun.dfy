/** Running the taskers a configuration compiled to: `MultiTask.Run` and the
    selection of a single result, whose index was checked at compile time
    against the number of embedded configurations. */
module TaskRun {
  import opened Text
  import opened Responses
  import opened Routing
  import TaskItems
  import Listing

  /** What a task outside this model does when run: crash, answer outright (as
      redis does when it cannot connect), or produce its entries. */
  datatype Behaviour = Crashes | Responds(response: State) | Produces(entry: nat -> State)

  /** Every place in a task tree has its own behaviour. */
  type World = seq<nat> -> Behaviour

  function Produced(count: nat, entry: nat -> State): (entries: seq<State>)
    ensures |entries| == count && forall k: nat :: k < count ==> entries[k] == entry(k)
  {
    seq(count, k requires 0 <= k < count => entry(k))
  }

  function RunTask(text: StatusText, w: World, t: Tasker, path: seq<nat>): TaskItems.Reply
    decreases t
  {
    match t
    case Leaf(_, count, index) =>
      (match w(path)
       case Crashes => TaskItems.Panic
       case Responds(s) => TaskItems.Answer(s)
       case Produces(entry) => TaskItems.Select(text, Produced(count, entry), index))
    case Files =>
      (match w(path) case Responds(s) => TaskItems.Answer(s) case _ => TaskItems.Panic)
    case Info(_) =>
      (match w(path) case Responds(s) => TaskItems.Answer(s) case _ => TaskItems.Panic)
    case Multi(tasks, index) =>
      match RunAll(text, w, tasks, path)
      case None => TaskItems.Panic
      case Some(results) => TaskItems.Select(text, results, index)
  }

  /** The responses of the tasks in order, unless one of them panics. */
  function RunAll(text: StatusText, w: World, tasks: seq<Tasker>, path: seq<nat>): Option<seq<State>>
    decreases tasks
  {
    if tasks == [] then Some([])
    else
      var last := |tasks| - 1;
      match RunAll(text, w, tasks[..last], path)
      case None => None
      case Some(results) =>
        match RunTask(text, w, tasks[last], path + [last])
        case Panic => None
        case Answer(r) => Some(results + [r])
  }

  /** `Run` of every kind of tasker. */
  method Run(text: StatusText, w: World, t: Tasker, path: seq<nat>) returns (reply: TaskItems.Reply)
    ensures reply == RunTask(text, w, t, path)
    decreases t
  {
    if t.Multi? {
      reply := RunMulti(text, w, t, path);
    } else {
      reply := RunTask(text, w, t, path);
    }
  }

  /** `MultiTask.Run`. */
  method RunMulti(text: StatusText, w: World, t: Tasker, path: seq<nat>) returns (reply: TaskItems.Reply)
    requires t.Multi?
    ensures reply == RunTask(text, w, t, path)
    decreases t, 0
  {
    var results: seq<State> := [];
    for k := 0 to |t.tasks|
      invariant RunAll(text, w, t.tasks[..k], path) == Some(results)
      invariant |results| == k
    {
      assert t.tasks[..k + 1][..k] == t.tasks[..k];
      var tr := Run(text, w, t.tasks[k], path + [k]);
      if tr.Panic? {
        PanicSpreads(text, w, t.tasks, path, k + 1);
        return TaskItems.Panic;
      }
      results := results + [tr.response];
    }
    assert t.tasks[..|t.tasks|] == t.tasks;
    var response := Initial(text, OK);
    if t.index != -1 {
      if !(0 <= t.index < |results|) {
        return TaskItems.Panic;
      }
      reply := TaskItems.Answer(Put(response, "result", One(results[t.index])));
    } else {
      reply := TaskItems.Answer(Put(response, "result", Many(results)));
    }
  }

  lemma {:induction false} PanicSpreads(text: StatusText, w: World, tasks: seq<Tasker>, path: seq<nat>, n: nat)
    requires n <= |tasks| && RunAll(text, w, tasks[..n], path) == None
    ensures RunAll(text, w, tasks, path) == None
  {
    if n < |tasks| {
      var last := |tasks| - 1;
      assert tasks[..last][..n] == tasks[..n];
      PanicSpreads(text, w, tasks[..last], path, n);
    } else {
      assert tasks[..n] == tasks;
    }
  }

  /** Without a panic there is one response per task, in order. */
  lemma {:induction false} OneResponseEach(text: StatusText, w: World, tasks: seq<Tasker>, path: seq<nat>)
    ensures RunAll(text, w, tasks, path) == None <==>
            exists k :: 0 <= k < |tasks| && RunTask(text, w, tasks[k], path + [k]) == TaskItems.Panic
    ensures RunAll(text, w, tasks, path).Some? ==>
            var results := RunAll(text, w, tasks, path).value;
            && |results| == |tasks|
            && forall k :: 0 <= k < |tasks| ==> RunTask(text, w, tasks[k], path + [k]) == TaskItems.Answer(results[k])
    decreases |tasks|
  {
    if tasks != [] {
      var last := |tasks| - 1;
      OneResponseEach(text, w, tasks[..last], path);
      if k :| 0 <= k < last && RunTask(text, w, tasks[..last][k], path + [k]) == TaskItems.Panic {
        assert RunTask(text, w, tasks[k], path + [k]) == TaskItems.Panic;
      }
    }
  }

  // ---------------------------------------------------------------- what is answered

  /** The answer with a result, and nothing else. */
  function Answering(text: StatusText, result: Value): TaskItems.Reply {
    TaskItems.Answer(State(200, false, None,
                           map["status" := Num(200), "message" := Str(text(200)), "result" := result]))
  }

  /** A multi task that answers has run every embedded task, and all of them
      answered. Its result is the response of the task that `single_result`
      names, or all of them, each at the place of its configuration. */
  lemma MultiAnswers(text: StatusText, w: World, tc: TaskConfig, t: Tasker, path: seq<nat>)
    requires Listing.Shaped(tc, t) && t.Multi? && RunTask(text, w, t, path).Answer?
    ensures |t.tasks| == |tc.raw.multi.value.tasks|
    ensures forall k :: 0 <= k < |t.tasks| ==> RunTask(text, w, t.tasks[k], path + [k]).Answer?
    ensures var single := tc.raw.multi.value.single;
            if single.Some? && single.value != -1 then
              && 0 <= single.value < |t.tasks|
              && RunTask(text, w, t, path)
                 == Answering(text, One(RunTask(text, w, t.tasks[single.value], path + [single.value]).response))
            else
              exists results :: && RunTask(text, w, t, path) == Answering(text, Many(results))
                                && |results| == |t.tasks|
                                && forall k :: 0 <= k < |results| ==>
                                     results[k] == RunTask(text, w, t.tasks[k], path + [k]).response
  {
    hide TaskItems.Select;
    OneResponseEach(text, w, t.tasks, path);
    var results := RunAll(text, w, t.tasks, path).value;
    TaskItems.SelectHolds(text, results, t.index);
  }

  /** The same of a task that works through items and gets to produce its
      entries: that of the item `single_result` names, always the first for
      mysql, or all of them in order. */
  lemma ListAnswers(text: StatusText, w: World, tc: TaskConfig, t: Tasker, path: seq<nat>)
    requires Listing.Shaped(tc, t) && t.Leaf? && w(path).Produces? && RunTask(text, w, t, path).Answer?
    ensures TrimSpace(tc.typ) in tc.raw.lists
    ensures var list, entry := tc.raw.lists[TrimSpace(tc.typ)], w(path).entry;
            var single := if TrimSpace(tc.typ) == "mysql" then Some(0) else list.single;
            if single.Some? && single.value != -1 then
              0 <= single.value < |list.items| && RunTask(text, w, t, path) == Answering(text, One(entry(single.value)))
            else
              exists results :: && RunTask(text, w, t, path) == Answering(text, Many(results))
                                && |results| == |list.items|
                                && forall k: nat :: k < |results| ==> results[k] == entry(k)
  {
    hide TaskItems.Select;
    TaskItems.SelectHolds(text, Produced(t.count, w(path).entry), t.index);
  }

  // ---------------------------------------------------------------- index safety

  predicate BelowMinusOne(single: Option<int>) { single.Some? && single.value < -1 }

  /** A configuration with a `single_result` below -1 somewhere, which no
      `Validate` refuses, or a mysql task without queries, which is not
      validated. */
  predicate Unsafe(tc: TaskConfig)
    decreases tc
  {
    var typ := TrimSpace(tc.typ);
    if typ == MULTI then
      tc.raw.multi.Some? &&
      ( || BelowMinusOne(tc.raw.multi.value.single)
        || exists k :: 0 <= k < |tc.raw.multi.value.tasks| && Unsafe(tc.raw.multi.value.tasks[k]))
    else UnsafeList(typ, tc.raw)
  }

  predicate UnsafeList(typ: string, raw: Raw) {
    && typ in LISTS && typ in raw.lists
    && if typ == MYSQL then raw.lists[typ].items == [] else BelowMinusOne(raw.lists[typ].single)
  }

  /** What goes wrong in one world: some task crashes, one that got to produce
      its entries selects out of range, or a multi task does. */
  predicate FailsIn(w: World, tc: TaskConfig, path: seq<nat>)
    decreases tc
  {
    var typ := TrimSpace(tc.typ);
    if typ == MULTI then
      tc.raw.multi.Some? &&
      ( || BelowMinusOne(tc.raw.multi.value.single)
        || exists k :: 0 <= k < |tc.raw.multi.value.tasks| && FailsIn(w, tc.raw.multi.value.tasks[k], path + [k]))
    else if typ in LISTS then w(path).Crashes? || (w(path).Produces? && UnsafeList(typ, tc.raw))
    else !w(path).Responds?
  }

  /** The index checked while compiling is in range at run time, in every world:
      a task built from a configuration panics if and only if some part of it
      crashes by itself, or it holds, at any depth, a `single_result` below -1 or
      a mysql task without queries where entries are selected at all. */
  lemma {:induction false} PanicsInWorld(text: StatusText, w: World, tc: TaskConfig, t: Tasker, path: seq<nat>)
    requires Listing.Shaped(tc, t)
    ensures RunTask(text, w, t, path) == TaskItems.Panic <==> FailsIn(w, tc, path)
    decreases tc
  {
    if t.Multi? {
      var configs := tc.raw.multi.value.tasks;
      forall k | 0 <= k < |t.tasks|
        ensures RunTask(text, w, t.tasks[k], path + [k]) == TaskItems.Panic <==> FailsIn(w, configs[k], path + [k])
      {
        PanicsInWorld(text, w, configs[k], t.tasks[k], path + [k]);
      }
      OneResponseEach(text, w, t.tasks, path);
    }
  }

  /** Every task answers or, if it works through items, gets to produce its
      entries. A redis task that cannot connect answers. */
  predicate Calm(w: World, t: Tasker, path: seq<nat>)
    decreases t
  {
    match t
    case Leaf(_, _, _) => !w(path).Crashes?
    case Multi(tasks, _) => forall k :: 0 <= k < |tasks| ==> Calm(w, tasks[k], path + [k])
    case _ => w(path).Responds?
  }

  /** Every task that works through items gets to produce its entries, and the
      others answer. */
  predicate Normal(w: World, t: Tasker, path: seq<nat>)
    decreases t
  {
    match t
    case Leaf(_, _, _) => w(path).Produces?
    case Multi(tasks, _) => forall k :: 0 <= k < |tasks| ==> Normal(w, tasks[k], path + [k])
    case _ => w(path).Responds?
  }

  lemma {:induction false} CalmFailures(w: World, tc: TaskConfig, t: Tasker, path: seq<nat>)
    requires Listing.Shaped(tc, t)
    ensures Calm(w, t, path) && FailsIn(w, tc, path) ==> Unsafe(tc)
    ensures Normal(w, t, path) ==> (FailsIn(w, tc, path) <==> Unsafe(tc))
    decreases tc
  {
    if t.Multi? {
      forall k | 0 <= k < |t.tasks|
        ensures Calm(w, t.tasks[k], path + [k]) && FailsIn(w, tc.raw.multi.value.tasks[k], path + [k]) ==>
                  Unsafe(tc.raw.multi.value.tasks[k])
        ensures Normal(w, t.tasks[k], path + [k]) ==>
                  (FailsIn(w, tc.raw.multi.value.tasks[k], path + [k]) <==> Unsafe(tc.raw.multi.value.tasks[k]))
      {
        CalmFailures(w, tc.raw.multi.value.tasks[k], t.tasks[k], path + [k]);
      }
    }
  }

  /** A safe configuration never panics where no task crashes by itself, whether
      or not its redis tasks connect. */
  lemma SafeTasksNeverPanic(text: StatusText, w: World, tc: TaskConfig, t: Tasker, path: seq<nat>)
    requires Listing.Shaped(tc, t) && Calm(w, t, path) && !Unsafe(tc)
    ensures RunTask(text, w, t, path) != TaskItems.Panic
  {
    PanicsInWorld(text, w, tc, t, path);
    CalmFailures(w, tc, t, path);
  }

  /** Where all entries are produced, the configuration alone decides. */
  lemma PanicsExactly(text: StatusText, w: World, tc: TaskConfig, t: Tasker, path: seq<nat>)
    requires Listing.Shaped(tc, t) && Normal(w, t, path)
    ensures RunTask(text, w, t, path) == TaskItems.Panic <==> Unsafe(tc)
  {
    PanicsInWorld(text, w, tc, t, path);
    CalmFailures(w, tc, t, path);
  }

  /** From compilation to the request: a compiled task is one tasker, which
      panics in a world exactly when the configuration fails in it; a safe
      configuration does so in no calm world. */
  lemma CompiledTaskPanicsExactly(c: Config, tc: TaskConfig, order: Order, path: seq<nat>, depth: nat,
                                  text: StatusText, w: World, at: seq<nat>)
    requires AlwaysValid(c, order) && depth > 0 && Compile(c, tc, order, path, depth).Done?
    ensures var ts := Compile(c, tc, order, path, depth).value;
            && |ts| == 1
            && (RunTask(text, w, ts[0], at) == TaskItems.Panic <==> FailsIn(w, tc, at))
            && (Calm(w, ts[0], at) && !Unsafe(tc) ==> RunTask(text, w, ts[0], at) != TaskItems.Panic)
            && (Normal(w, ts[0], at) ==> (RunTask(text, w, ts[0], at) == TaskItems.Panic <==> Unsafe(tc)))
  {
    Listing.CompileShaped(c, tc, order, path, depth);
    var t := Compile(c, tc, order, path, depth).value[0];
    PanicsInWorld(text, w, tc, t, at);
    CalmFailures(w, tc, t, at);
  }

  // ---------------------------------------------------------------- the item runs

  /** A place behaves as the item loop of a task with these items and outcomes. */
  ghost predicate RunsThrough<J>(w: World, path: seq<nat>, world: TaskItems.World<J>, ret: bool,
                                 items: seq<TaskItems.Item>, outcomes: seq<TaskItems.Outcome>)
    requires |items| == |outcomes| && forall k :: 0 <= k < |items| ==> TaskItems.Fits(items[k], outcomes[k])
  {
    && w(path).Produces?
    && forall k: nat :: k < |items| ==> w(path).entry(k) == TaskItems.Entry(world, ret, items[k], outcomes[k])
  }

  /** Running a compiled list task is the item loop over its configuration:
      the right-hand side is what `ItemRuns.RunItems` returns. */
  lemma LeafRunsItems<J>(w: World, path: seq<nat>, world: TaskItems.World<J>, ret: bool, typ: string, index: int,
                         items: seq<TaskItems.Item>, outcomes: seq<TaskItems.Outcome>)
    requires |items| == |outcomes| && forall k :: 0 <= k < |items| ==> TaskItems.Fits(items[k], outcomes[k])
    requires RunsThrough(w, path, world, ret, items, outcomes)
    ensures RunTask(world.text, w, Leaf(typ, |items|, index), path)
         == TaskItems.Select(world.text, TaskItems.Entries(world, ret, items, outcomes), index)
  {
    hide TaskItems.Entry;
    assert Produced(|items|, w(path).entry) == TaskItems.Entries(world, ret, items, outcomes);
  }
}
