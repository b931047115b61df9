/** The `Run` methods of the tasks that work through a list of items, on
    `Response` objects: an entry is a new object, filled step by step until the
    first failing step, and proved to hold what `TaskItems.Entry` says. */
module ItemRuns {
  import opened Text
  import opened Responses
  import opened TaskItems
  import Formats

  // ---------------------------------------------------------------- one item

  method NewEntry(text: StatusText) returns (entry: Response)
    ensures fresh(entry) && entry.text == text && entry.Snapshot() == Blank(text)
  {
    entry := new Response(text, OK);
    entry.StripStatusData();
  }

  function After<E>(values: seq<Value>, rest: Result<seq<Value>, E>): Result<seq<Value>, E> {
    match rest case Err(e) => Err(e) case Ok(vs) => Ok(values + vs)
  }

  lemma AfterNothing<E>(rest: Result<seq<Value>, E>)
    ensures After([], rest) == rest
  {
    if rest.Ok? {
      assert [] + rest.value == rest.value;
    }
  }

  lemma AfterBoth<E>(values: seq<Value>, v: Value, rest: Result<seq<Value>, E>)
    ensures After(values, After([v], rest)) == After(values + [v], rest)
  {
    if rest.Ok? {
      assert values + ([v] + rest.value) == values + [v] + rest.value;
    }
  }

  /** The loops over templates and over rows. */
  method GatherAll<E>(rs: seq<Result<Value, E>>) returns (r: Result<seq<Value>, E>)
    ensures r == Gather(rs)
  {
    var values: seq<Value> := [];
    assert rs[0..] == rs;
    AfterNothing(Gather(rs));
    for k := 0 to |rs|
      invariant Gather(rs) == After(values, Gather(rs[k..]))
    {
      match rs[k] {
        case Err(e) => return Err(e);
        case Ok(v) =>
          assert rs[k..][1..] == rs[k + 1..];
          AfterBoth(values, v, Gather(rs[k + 1..]));
          values := values + [v];
      }
    }
    r := Ok(values);
    assert values + [] == values;
  }

  /** A database error, with the driver's code added first. */
  method AddFailure(entry: Response, f: Failure)
    modifies entry`data
    ensures entry.Snapshot() == Failed(old(entry.Snapshot()), f)
  {
    if f.code.Some? {
      entry.AddValue("error_code", f.code.value);
    }
    entry.Error(f.err);
  }

  /** The same with the driver's code added last, as the mysql task does. */
  method AddCodeLast(entry: Response, f: Failure)
    modifies entry`data
    ensures entry.Snapshot() == Failed(old(entry.Snapshot()), f)
  {
    ghost var data := entry.data;
    entry.Error(f.err);
    if f.code.Some? {
      entry.AddValue("error_code", f.code.value);
      assert entry.data == data["error_code" := f.code.value]["error" := f.err];
    }
  }

  method AddFormatted<J>(w: World<J>, entry: Response, body: string, format: string)
    modifies entry`data
    ensures entry.Snapshot() == WithFormatted(w, old(entry.Snapshot()), body, format)
  {
    var r := Formats.Format(w.table, body, format);
    if r.err == None {
      entry.Result(w.show(r.result));
      entry.AddValue("format", Str(r.format));
    } else {
      entry.Error(w.showError(r.err.value));
    }
  }

  method RunCommand<J>(w: World<J>, item: Item, o: Outcome) returns (entry: Response)
    requires item.Command? && o.Ran?
    ensures fresh(entry) && entry.Snapshot() == ShellEntry(w, item, o)
  {
    hide Blank, WithFormatted;
    entry := NewEntry(w.text);
    label Append: {
      if o.command.Err? {
        entry.Error(o.command.error);
        break Append;
      }
      if item.returnCommand {
        entry.AddValue("command", o.command.value);
      }
      if o.output.Err? {
        entry.Error(o.output.error);
        break Append;
      }
      AddFormatted(w, entry, TrimSpace(o.output.value), item.format);
    }
    entry.StripStatusData();
  }

  method RunUrl<J>(w: World<J>, item: Item, o: Outcome) returns (entry: Response)
    requires item.Url? && o.Fetched?
    ensures fresh(entry) && entry.Snapshot() == HttpEntry(w, item, o)
  {
    hide Blank, WithFormatted, WithStatus;
    entry := NewEntry(w.text);
    if o.url.Some? {
      entry.Error(o.url.value);
      return;
    }
    if o.request.Some? {
      entry.Error(o.request.value);
      return;
    }
    if o.exchange.Some? {
      entry.Error(o.exchange.value);
      return;
    }
    if o.body.Err? {
      entry.Error(o.body.error);
      return;
    }
    entry.Status(o.status);
    if item.returnHeaders {
      entry.AddValue("headers", o.headers);
    }
    AddFormatted(w, entry, o.body.value, item.format);
  }

  method RunPostgresQuery<J>(w: World<J>, ret: bool, item: Item, o: Outcome) returns (entry: Response)
    requires item.PostgresQuery? && o.PostgresRows?
    ensures fresh(entry) && entry.Snapshot() == PostgresEntry(w, ret, item, o)
  {
    hide Blank, Failed, Gather;
    entry := NewEntry(w.text);
    if o.url.Some? {
      entry.Error(o.url.value);
      return;
    }
    var args := GatherAll(o.args);
    if args.Err? {
      entry.Error(args.error);
      return;
    }
    if ret {
      entry.AddValue("query", item.query);
      entry.AddValue("args", List(args.value));
    }
    if o.connect.Some? {
      AddFailure(entry, o.connect.value);
      return;
    }
    if o.query.Some? {
      AddFailure(entry, o.query.value);
      return;
    }
    var rows := GatherAll(o.rows);
    if rows.Err? {
      AddFailure(entry, rows.error);
      return;
    }
    entry.Result(List(rows.value));
  }

  method RunRedisQuery<J>(w: World<J>, ret: bool, item: Item, o: Outcome) returns (entry: Response)
    requires item.RedisQuery? && o.RedisReply?
    ensures fresh(entry) && entry.Snapshot() == RedisEntry(w, ret, item, o)
  {
    hide Blank, Gather;
    entry := NewEntry(w.text);
    var args := GatherAll(o.args);
    if args.Err? {
      entry.Error(args.error);
      return;
    }
    if ret {
      entry.AddValue("command", item.command);
      entry.AddValue("args", List(args.value));
    }
    if o.reply.Err? {
      entry.Error(o.reply.error);
      return;
    }
    if o.reply.value == None {
      entry.Error(w.notFound);
      return;
    }
    if o.converted.Err? {
      entry.Error(o.converted.error);
      return;
    }
    entry.Result(o.converted.value);
  }

  method RunCassandraQuery<J>(w: World<J>, ret: bool, item: Item, o: Outcome) returns (entry: Response)
    requires item.CassandraQuery? && o.CassandraRows?
    ensures fresh(entry) && entry.Snapshot() == CassandraEntry(w, ret, item, o)
  {
    hide Blank, Gather;
    entry := NewEntry(w.text);
    var hosts := GatherAll(o.hosts);
    if hosts.Err? {
      entry.Error(hosts.error);
      return;
    }
    if o.keyspace.Some? {
      entry.Error(o.keyspace.value);
      return;
    }
    if o.session.Some? {
      entry.Error(o.session.value);
      return;
    }
    if ret {
      entry.AddValue("query", item.query);
    }
    var args := GatherAll(o.args);
    if args.Err? {
      entry.Error(args.error);
      return;
    }
    if ret {
      entry.AddValue("args", List(args.value));
    }
    if o.found.Err? {
      entry.Error(o.found.error);
      return;
    }
    entry.Result(o.found.value);
  }

  method RunMySqlQuery<J>(w: World<J>, ret: bool, item: Item, o: Outcome) returns (entry: Response)
    requires item.MySqlQuery? && o.MySqlRows?
    ensures fresh(entry) && entry.Snapshot() == MySqlEntry(w, ret, item, o)
  {
    hide Blank, Failed, Gather;
    entry := NewEntry(w.text);
    if o.url.Some? {
      entry.Error(o.url.value);
      return;
    }
    if ret {
      entry.AddValue("query", item.query);
    }
    if o.open.Some? {
      AddCodeLast(entry, o.open.value);
      return;
    }
    var args := GatherAll(o.args);
    if args.Err? {
      entry.Error(args.error);
      return;
    }
    if ret {
      entry.AddValue("args", List(args.value));
    }
    if o.query.Some? {
      AddCodeLast(entry, o.query.value);
      return;
    }
    var records := GatherAll(o.records);
    if records.Err? {
      entry.Error(records.error);
      return;
    }
    entry.Result(List(records.value));
  }

  /** One round of the loop: a new object, and no other one changes. */
  method RunItem<J>(w: World<J>, ret: bool, item: Item, o: Outcome) returns (entry: Response)
    requires Fits(item, o)
    ensures fresh(entry) && entry.Snapshot() == Entry(w, ret, item, o)
  {
    hide ShellEntry, HttpEntry, PostgresEntry, RedisEntry, CassandraEntry, MySqlEntry;
    match item
    case Command(_, _) => entry := RunCommand(w, item, o);
    case Url(_, _, _) => entry := RunUrl(w, item, o);
    case PostgresQuery(_, _) => entry := RunPostgresQuery(w, ret, item, o);
    case RedisQuery(_, _, _) => entry := RunRedisQuery(w, ret, item, o);
    case CassandraQuery(_, _, _, _) => entry := RunCassandraQuery(w, ret, item, o);
    case MySqlQuery(_, _) => entry := RunMySqlQuery(w, ret, item, o);
  }

  // ---------------------------------------------------------------- all items

  function Snapshots(entries: seq<Response>): (ss: seq<State>)
    reads entries
    ensures |ss| == |entries| && forall k :: 0 <= k < |ss| ==> ss[k] == entries[k].Snapshot()
  {
    seq(|entries|, k requires 0 <= k < |entries| reads entries => entries[k].Snapshot())
  }

  ghost predicate Distinct(entries: seq<Response>) {
    forall j, k :: 0 <= j < k < |entries| ==> entries[j] != entries[k]
  }

  /** The `Run` methods once their items are reachable: one entry per configured
      item in order, whichever items fail and wherever, each an object of its
      own; then the selection. */
  method RunItems<J>(w: World<J>, config: ItemsConfig, outcomes: seq<Outcome>)
    returns (reply: Reply, results: seq<Response>)
    requires |outcomes| == |config.items|
    requires forall k :: 0 <= k < |outcomes| ==> Fits(config.items[k], outcomes[k])
    ensures fresh(set entry <- results) && Distinct(results)
    ensures Snapshots(results) == Entries(w, config.returnQueries, config.items, outcomes)
    ensures reply == Select(w.text, Entries(w, config.returnQueries, config.items, outcomes), config.singleResultIndex)
  {
    hide Entry, Initial, Put;
    var response := new Response(w.text, OK);
    results := [];
    for k := 0 to |config.items|
      invariant |results| == k && Distinct(results) && response !in results
      invariant response.text == w.text && response.Snapshot() == Initial(w.text, OK)
      invariant forall j :: 0 <= j < k ==>
                  && fresh(results[j])
                  && results[j].Snapshot() == Entry(w, config.returnQueries, config.items[j], outcomes[j])
    {
      var entry := RunItem(w, config.returnQueries, config.items[k], outcomes[k]);
      results := results + [entry];
    }
    ghost var entries := Entries(w, config.returnQueries, config.items, outcomes);
    assert Snapshots(results) == entries;
    if config.singleResultIndex != -1 {
      if !(0 <= config.singleResultIndex < |results|) {
        return Panic, results;
      }
      response.Result(One(results[config.singleResultIndex].Snapshot()));
    } else {
      response.Result(Many(Snapshots(results)));
    }
    assert Snapshots(results) == entries;
    reply := Answer(response.Snapshot());
  }

  /** Redis connects once for all its items, and reports a failure to do so. */
  method RunRedis<J>(w: World<J>, config: ItemsConfig, dial: Option<Value>,
                     outcomes: seq<Outcome>) returns (reply: Reply)
    requires |outcomes| == |config.items|
    requires forall k :: 0 <= k < |outcomes| ==> Fits(config.items[k], outcomes[k])
    ensures dial.Some? ==> reply == Answer(Put(Initial(w.text, OK), "error", dial.value))
    ensures dial.None? ==>
              reply == Select(w.text, Entries(w, config.returnQueries, config.items, outcomes), config.singleResultIndex)
  {
    if dial.Some? {
      var response := new Response(w.text, OK);
      response.Error(dial.value);
      return Answer(response.Snapshot());
    }
    var results;
    reply, results := RunItems(w, config, outcomes);
  }

  lemma CheckedFits(known: set<string>, item: Item, o: Outcome)
    requires Checked(known, item).Ok?
    ensures Fits(Checked(known, item).value, o) <==> Fits(item, o)
  {
  }

  /** Loading a configuration and running it, as a factory and a later request
      do. A loaded task panics exactly when `single_result` is below -1, which
      loading does not refuse; mysql, whose configuration is never validated,
      panics exactly when it has no queries, and otherwise always selects the
      first. */
  method LoadAndRun<J>(w: World<J>, config: ItemsConfig, outcomes: seq<Outcome>)
    returns (err: Option<Error>, reply: Reply)
    requires config.singleResultIndex == 0
    requires |outcomes| == |config.items|
    requires forall k :: 0 <= k < |outcomes| ==> Fits(config.items[k], outcomes[k])
    modifies config
    ensures |config.items| == |outcomes|
    ensures err == None ==> forall k :: 0 <= k < |outcomes| ==> Fits(config.items[k], outcomes[k])
    ensures !config.kind.MySql? ==>
              (err == None <==> Acceptable(w.table.Keys, old(config.items), config.singleResult))
    ensures err == None && !config.kind.MySql? ==>
              && reply == Select(w.text, Entries(w, config.returnQueries, config.items, outcomes), IndexOf(config.singleResult))
              && (reply == Panic <==> config.singleResult.Some? && config.singleResult.value < -1)
    ensures config.kind.MySql? ==>
              && err == None
              && reply == Select(w.text, Entries(w, config.returnQueries, config.items, outcomes), 0)
              && (reply == Panic <==> outcomes == [])
  {
    err := config.Load(w.table.Keys);
    if err != None {
      return err, Panic;
    }
    forall k | 0 <= k < |outcomes|
      ensures Fits(config.items[k], outcomes[k])
    {
      if !config.kind.MySql? { CheckedFits(w.table.Keys, old(config.items)[k], outcomes[k]); }
    }
    var results;
    reply, results := RunItems(w, config, outcomes);
  }
}
