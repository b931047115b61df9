/** Which configurations `routes()` accepts, in the terms of the configuration
    file, and what it says of the others. */
module Acceptance {
  import opened Text
  import opened Responses
  import opened Routing
  import opened Termination
  import Listing
  import TaskItems
  import TaskRun

  // ---------------------------------------------------------------- the configuration

  /** The configuration of a task that works through items. */
  ghost predicate ListOk(c: Config, typ: string, raw: Raw) {
    && typ in raw.lists && raw.lists[typ].items != []
    && (forall item :: item in raw.lists[typ].items ==> TaskItems.ItemOk(c.formats, item))
    && (raw.lists[typ].single.Some? ==> raw.lists[typ].single.value <= |raw.lists[typ].items| - 1)
  }

  /** A task that compiles, as far as its own configuration goes. */
  ghost predicate TaskOk(c: Config, tc: TaskConfig)
    decreases tc
  {
    && !Spaces(tc.typ) && tc.paramsOk
    && match TrimSpace(tc.typ)
       case "info" => true
       case "filesystem" => tc.raw.filesystem
       case "mysql" => "mysql" in tc.raw.lists
       case "cassandra" => ListOk(c, "cassandra", tc.raw)
       case "http" => ListOk(c, "http", tc.raw)
       case "postgres" => ListOk(c, "postgres", tc.raw)
       case "redis" => ListOk(c, "redis", tc.raw)
       case "shell" => ListOk(c, "shell", tc.raw)
       case "multi" =>
         && tc.raw.multi.Some?
         && var m := tc.raw.multi.value;
            && m.tasks != [] && (m.single.Some? ==> m.single.value <= |m.tasks| - 1)
            && forall k :: 0 <= k < |m.tasks| ==> m.tasks[k].typ != "multi" && TaskOk(c, m.tasks[k])
       case _ => false
  }

  ghost predicate Authorized(c: Config) {
    && (forall n :: n in c.authorizers ==> c.authorizers[n].typ in {"basic", "ldap", "http"} && c.authorizers[n].builds)
    && (forall i, m :: 0 <= i < |c.endpoints| && m in c.endpoints[i].methods ==>
          forall name :: name in c.endpoints[i].methods[m].authorizers ==> name in c.authorizers)
  }

  /** A configuration without a mistake. */
  ghost predicate Configured(c: Config) {
    && Authorized(c)
    && forall i :: 0 <= i < |c.endpoints| ==>
         c.endpoints[i].paramsOk && forall m :: m in c.endpoints[i].methods ==> TaskOk(c, c.endpoints[i].methods[m])
  }

  // ---------------------------------------------------------------- one level at a time

  lemma AuthorizedExactly(c: Config)
    ensures AuthorizersOk(c) <==> Authorized(c)
  {
    if Authorized(c) {
      forall i, m | 0 <= i < |c.endpoints| && m in c.endpoints[i].methods
        ensures NamesKnown(c, c.endpoints[i].methods[m].authorizers)
      {
        var names := c.endpoints[i].methods[m].authorizers;
        assert forall k :: 0 <= k < |names| ==> names[k] in names;
      }
    }
    if AuthorizersOk(c) {
      forall i, m, name | && 0 <= i < |c.endpoints| && m in c.endpoints[i].methods
                          && name in c.endpoints[i].methods[m].authorizers
        ensures name in c.authorizers
      {
        assert NamesKnown(c, c.endpoints[i].methods[m].authorizers);
      }
    }
  }

  lemma LeafOk(c: Config, tc: TaskConfig)
    requires !Spaces(tc.typ) && tc.paramsOk && TrimSpace(tc.typ) in LISTS + {FILESYSTEM}
    ensures LeafFactory(c, TrimSpace(tc.typ), tc.raw).Ok? <==> TaskOk(c, tc)
  {
    hide TaskItems.Acceptable, TaskItems.ItemOk, TrimSpace;
    var typ := TrimSpace(tc.typ);
    if typ in tc.raw.lists {
      TaskItems.AcceptableExactly(c.formats, tc.raw.lists[typ].items, tc.raw.lists[typ].single);
    }
  }

  lemma {:induction false} DoneIsOk(c: Config, tc: TaskConfig, order: Order, path: seq<nat>, depth: nat)
    requires AlwaysValid(c, order) && depth > 0 && Compile(c, tc, order, path, depth).Done?
    ensures TaskOk(c, tc)
    decreases depth, 0, 0
  {
    hide Routes, Embedded, LeafFactory, TrimSpace, AlwaysValid;
    var typ := TrimSpace(tc.typ);
    BlankExactly(tc.typ);
    if typ == MULTI {
      EmbeddedIsOk(c, tc.raw.multi.value.tasks, order, path, depth - 1);
    } else if typ != INFO {
      LeafOk(c, tc);
    }
  }

  lemma {:induction false} EmbeddedIsOk(c: Config, tasks: seq<TaskConfig>, order: Order, path: seq<nat>, depth: nat)
    requires AlwaysValid(c, order) && depth > 0 && Embedded(c, tasks, order, path, depth).Done?
    ensures forall k :: 0 <= k < |tasks| ==> tasks[k].typ != MULTI && TaskOk(c, tasks[k])
    decreases depth, 1, |tasks|
  {
    hide Compile, TaskOk, AlwaysValid;
    if tasks != [] {
      DoneIsOk(c, tasks[0], order, path + [|tasks|], depth);
      EmbeddedIsOk(c, tasks[1..], order, path, depth);
      assert forall k :: 1 <= k < |tasks| ==> tasks[k] == tasks[1..][k - 1];
    }
  }

  lemma {:induction false} MethodsAreOk(c: Config, order: Order, path: seq<nat>, i: nat, names: seq<string>, depth: nat)
    requires AlwaysValid(c, order) && depth > 0 && i < |c.endpoints|
    requires forall m :: m in names ==> m in c.endpoints[i].methods
    requires AtMethods(c, [], order, path, i, names, depth).Done?
    ensures forall m :: m in names ==> TaskOk(c, c.endpoints[i].methods[m])
    decreases |names|
  {
    hide Compile, TaskOk, AlwaysValid;
    if names != [] {
      assert names == [names[0]] + names[1..];
      DoneIsOk(c, c.endpoints[i].methods[names[0]], order, path + [i, |names|], depth);
      MethodsAreOk(c, order, path, i, names[1..], depth);
    }
  }

  lemma {:induction false} EndpointsAreOk(c: Config, order: Order, path: seq<nat>, i: nat, depth: nat)
    requires AlwaysValid(c, order) && Valid(c, order, path) && depth > 0 && i <= |c.endpoints|
    requires FromEndpoint(c, [], order, path, i, depth).Done?
    ensures forall j :: i <= j < |c.endpoints| ==>
              c.endpoints[j].paramsOk && forall m :: m in c.endpoints[j].methods ==> TaskOk(c, c.endpoints[j].methods[m])
    decreases |c.endpoints| - i
  {
    hide AtMethods, TaskOk;
    if i < |c.endpoints| {
      MethodsAreOk(c, order, path, i, order(path, i), depth);
      EndpointsAreOk(c, order, path, i + 1, depth);
    }
  }

  // ---------------------------------------------------------------- nothing fails without a mistake

  lemma {:induction false} RoutesDoNotFail(c: Config, ignored: seq<string>, order: Order, path: seq<nat>, depth: nat)
    requires AlwaysValid(c, order) && Configured(c)
    ensures !Routes(c, ignored, order, path, depth).Fails?
    decreases depth, 3, 0
  {
    hide FromEndpoint, TaskOk;
    AuthorizedExactly(c);
    if depth > 0 { EndpointsDoNotFail(c, ignored, order, path, 0, depth); }
  }

  lemma {:induction false} EndpointsDoNotFail(c: Config, ignored: seq<string>, order: Order, path: seq<nat>,
                                              i: nat, depth: nat)
    requires AlwaysValid(c, order) && depth > 0 && i <= |c.endpoints| && Configured(c)
    ensures !FromEndpoint(c, ignored, order, path, i, depth).Fails?
    decreases depth, 2, |c.endpoints| - i
  {
    hide AtMethods, TaskOk, Authorized;
    if i < |c.endpoints| {
      assert Valid(c, order, path);
      MethodsDoNotFail(c, ignored, order, path, i, order(path, i), depth);
      EndpointsDoNotFail(c, ignored, order, path, i + 1, depth);
    }
  }

  lemma {:induction false} MethodsDoNotFail(c: Config, ignored: seq<string>, order: Order, path: seq<nat>, i: nat,
                                            names: seq<string>, depth: nat)
    requires AlwaysValid(c, order) && depth > 0 && i < |c.endpoints| && Configured(c)
    requires forall m :: m in names ==> m in c.endpoints[i].methods
    ensures !AtMethods(c, ignored, order, path, i, names, depth).Fails?
    decreases depth, 1, |names|
  {
    hide Compile, TaskOk, Authorized, AlwaysValid;
    if names != [] {
      TaskDoesNotFail(c, c.endpoints[i].methods[names[0]], order, path + [i, |names|], depth);
      MethodsDoNotFail(c, ignored, order, path, i, names[1..], depth);
    }
  }

  lemma {:induction false} TaskDoesNotFail(c: Config, tc: TaskConfig, order: Order, path: seq<nat>, depth: nat)
    requires AlwaysValid(c, order) && depth > 0 && TaskOk(c, tc)
    requires Configured(c) || !IsOrEmbedsInfo(tc)
    ensures !Compile(c, tc, order, path, depth).Fails?
    decreases depth, 0, 0
  {
    hide Routes, Embedded, LeafFactory, TrimSpace, Configured, AlwaysValid;
    var typ := TrimSpace(tc.typ);
    BlankExactly(tc.typ);
    if depth > 1 {
      if typ == INFO {
        RoutesDoNotFail(c, [INFO], order, path, depth - 2);
      } else if typ == MULTI {
        EmbeddedDoNotFail(c, tc.raw.multi.value.tasks, order, path, depth - 1);
      } else {
        LeafOk(c, tc);
      }
    }
  }

  lemma {:induction false} EmbeddedDoNotFail(c: Config, tasks: seq<TaskConfig>, order: Order, path: seq<nat>, depth: nat)
    requires AlwaysValid(c, order) && depth > 0
    requires forall k :: 0 <= k < |tasks| ==> tasks[k].typ != MULTI && TaskOk(c, tasks[k])
    requires forall k :: 0 <= k < |tasks| ==> Configured(c) || !IsOrEmbedsInfo(tasks[k])
    ensures !Embedded(c, tasks, order, path, depth).Fails?
    decreases depth, 4, |tasks|
  {
    hide Compile, TaskOk, Configured, AlwaysValid, IsOrEmbedsInfo;
    if tasks != [] {
      TaskDoesNotFail(c, tasks[0], order, path + [|tasks|], depth);
      EmbeddedDoNotFail(c, tasks[1..], order, path, depth);
    }
  }

  // ---------------------------------------------------------------- main results

  /** What `routes()` accepts: a configuration that passes has no mistake, in
      whatever order it was visited; one without a mistake is never refused; and
      where nothing loops, passing and being without a mistake are the same. */
  lemma AcceptsExactly(c: Config, order: Order, depth: nat)
    requires AlwaysValid(c, order)
    ensures Routes(c, [], order, [], depth).Done? ==> Configured(c)
    ensures Configured(c) ==> !Routes(c, [], order, [], depth).Fails?
    ensures !Loops(c) && depth >= Bound(c) ==> (Routes(c, [], order, [], depth).Done? <==> Configured(c))
  {
    hide FromEndpoint, TaskOk, Loops, Bound;
    AuthorizedExactly(c);
    if Routes(c, [], order, [], depth).Done? {
      assert Valid(c, order, []);
      EndpointsAreOk(c, order, [], 0, depth);
    }
    if Configured(c) { RoutesDoNotFail(c, [], order, [], depth); }
    RoutesTerminates(c);
  }

  /** An authorizer of an unknown type, or one that does not build, or a name
      that a method lists and nobody configures, stops everything at once. */
  lemma UnauthorizedIsRefused(c: Config, ignored: seq<string>, order: Order, path: seq<nat>, depth: nat)
    requires AlwaysValid(c, order) && depth > 0
    ensures !Authorized(c) <==> Routes(c, ignored, order, path, depth) == Fails(BadAuthorizers)
  {
    hide FromEndpoint, Authorized;
    AuthorizedExactly(c);
    if AuthorizersOk(c) { OtherErrors(c, ignored, order, path, 0, depth); }
  }

  lemma {:induction false} OtherErrors(c: Config, ignored: seq<string>, order: Order, path: seq<nat>, i: nat, depth: nat)
    requires AlwaysValid(c, order) && depth > 0 && i <= |c.endpoints|
    ensures FromEndpoint(c, ignored, order, path, i, depth) != Fails(BadAuthorizers)
    decreases |c.endpoints| - i
  {
    hide AtMethods;
    if i < |c.endpoints| {
      assert Valid(c, order, path);
      OtherMethodErrors(c, ignored, order, path, i, order(path, i), depth);
      OtherErrors(c, ignored, order, path, i + 1, depth);
    }
  }

  lemma {:induction false} OtherMethodErrors(c: Config, ignored: seq<string>, order: Order, path: seq<nat>, i: nat,
                                             names: seq<string>, depth: nat)
    requires AlwaysValid(c, order) && depth > 0 && i < |c.endpoints|
    requires forall m :: m in names ==> m in c.endpoints[i].methods
    ensures AtMethods(c, ignored, order, path, i, names, depth) != Fails(BadAuthorizers)
    decreases |names|
  {
    hide Factory;
    if names != [] { OtherMethodErrors(c, ignored, order, path, i, names[1..], depth); }
  }

  /** How a task is refused: for its type, for its query parameters, for a type
      that has no factory, or by its factory. */
  lemma RefusalNamesTheMistake(c: Config, tc: TaskConfig, order: Order, path: seq<nat>, depth: nat)
    requires AlwaysValid(c, order) && depth > 0 && Compile(c, tc, order, path, depth).Fails?
    ensures var e, typ := Compile(c, tc, order, path, depth).e, TrimSpace(tc.typ);
            var known := {"cassandra", "filesystem", "http", "info", "multi", "mysql", "postgres", "redis", "shell"};
            && (e == InvalidType <==> Spaces(tc.typ))
            && (e == BadParams <==> !Spaces(tc.typ) && !tc.paramsOk)
            && (e == UnknownTask(typ) <==> !Spaces(tc.typ) && tc.paramsOk && typ !in known)
            && (e.TaskReturned? <==> !Spaces(tc.typ) && tc.paramsOk && typ in known)
            && (e.TaskReturned? ==> e.typ == typ)
  {
    hide Factory, TrimSpace;
    BlankExactly(tc.typ);
  }

  /** The same multi task with another `single_result`. */
  function WithSingle(tc: TaskConfig, n: int): TaskConfig
    requires tc.raw.multi.Some?
  {
    tc.(raw := tc.raw.(multi := Some(tc.raw.multi.value.(single := Some(n)))))
  }

  /** No `single_result` is too low: a multi task that compiles does so with one
      below -1 as well, and then panics at every request, in every world. */
  lemma NegativeSinglesCompile(c: Config, tc: TaskConfig, n: int, order: Order, path: seq<nat>, depth: nat,
                               text: StatusText, w: TaskRun.World, at: seq<nat>)
    requires TrimSpace(tc.typ) == MULTI && TaskOk(c, tc) && n < -1
    requires AlwaysValid(c, order) && !IsOrEmbedsInfo(tc) && depth >= Height(tc)
    ensures var out := Compile(c, WithSingle(tc, n), order, path, depth);
            out.Done? && |out.value| == 1 && TaskRun.RunTask(text, w, out.value[0], at) == TaskItems.Panic
  {
    hide AlwaysValid, ScanTask, Compile;
    var tc' := WithSingle(tc, n);
    var tasks := tc.raw.multi.value.tasks;
    assert TaskOk(c, tc') && !IsOrEmbedsInfo(tc');
    assert Height(tc) == 1 + Heights(tasks) && Height(tc') == 1 + Heights(tasks);
    OnlyThroughInfo(c, tc');
    CompileScanned(c, tc', order, path, depth);
    TaskDoesNotFail(c, tc', order, path, depth);
    Listing.CompileShaped(c, tc', order, path, depth);
    TaskRun.PanicsInWorld(text, w, tc', Compile(c, tc', order, path, depth).value[0], at);
  }
}
