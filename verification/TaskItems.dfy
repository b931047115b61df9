/** The tasks that work through a list of configured items: shell commands, http
    urls, and postgres, redis, cassandra and mysql queries. What the outside
    world does with an item (interpolation included) is an arbitrary outcome. */
module TaskItems {
  import opened Text
  import opened Responses
  import Formats

  datatype Kind = Shell | Http | Postgres | Redis | Cassandra | MySql

  datatype Item =
    | Command(format: string, returnCommand: bool)
    | Url(url: string, format: string, returnHeaders: bool)
    | PostgresQuery(query: Value, args: seq<string>)
    | RedisQuery(command: Value, args: seq<string>, replyType: string)
    | CassandraQuery(cluster: seq<string>, keyspace: string, query: Value, args: seq<string>)
    | MySqlQuery(query: Value, args: seq<string>)

  datatype Error = NoItems | BadItem | FormatError(e: Formats.Error) | OutOfBounds

  const REPLY_TYPES := {"bool", "float64", "int", "int64", "ints", "string", "strings", "uint64", "values", "stringmap"}

  // ---------------------------------------------------------------- validation

  /** An item after its `Validate`. Commands and urls are reached through
      pointers and keep the normalised fields; redis and cassandra queries are
      copies, so what their `Validate` trims is lost. */
  function Checked(known: set<string>, item: Item): Result<Item, Error> {
    match item
    case Command(format, rc) =>
      (match Formats.Verified(known, format)
       case Err(e) => Err(FormatError(e))
       case Ok(f) => Ok(Command(f, rc)))
    case Url(url, format, rh) =>
      if TrimSpace(url) == "" then Err(BadItem)
      else (match Formats.Verified(known, format)
            case Err(e) => Err(FormatError(e))
            case Ok(f) => Ok(Url(TrimSpace(url), f, rh)))
    case RedisQuery(_, _, replyType) => if replyType in REPLY_TYPES then Ok(item) else Err(BadItem)
    case CassandraQuery(cluster, keyspace, _, _) =>
      if |cluster| == 0 || TrimSpace(keyspace) == "" then Err(BadItem) else Ok(item)
    case _ => Ok(item)
  }

  /** What makes a configuration acceptable. Only the upper bound of
      `single_result` is checked. */
  predicate Acceptable(known: set<string>, items: seq<Item>, single: Option<int>) {
    && |items| > 0
    && (forall k :: 0 <= k < |items| ==> Checked(known, items[k]).Ok?)
    && (single.Some? ==> single.value < |items|)
  }

  function IndexOf(single: Option<int>): int {
    match single case None => -1 case Some(n) => n
  }

  /** Which items a validation accepts. */
  ghost predicate ItemOk(known: set<string>, item: Item) {
    match item
    case Command(format, _) => FormatOk(known, format)
    case Url(url, format, _) => !Spaces(url) && FormatOk(known, format)
    case PostgresQuery(_, _) => true
    case RedisQuery(_, _, replyType) =>
      replyType in {"bool", "float64", "int", "int64", "ints", "string", "strings", "uint64", "values", "stringmap"}
    case CassandraQuery(cluster, keyspace, _, _) => cluster != [] && !Spaces(keyspace)
    case MySqlQuery(_, _) => true
  }

  ghost predicate FormatOk(known: set<string>, format: string) {
    forall p :: p in Split(format, '|') && p != "" ==> p in known
  }

  /** An accepted item keeps all its fields but two: the format in normal form
      and the url without the spaces around it. */
  lemma CheckedExactly(known: set<string>, item: Item)
    ensures Checked(known, item).Ok? <==> ItemOk(known, item)
    ensures Checked(known, item).Ok? ==>
              var checked := Checked(known, item).value;
              match item
              case Command(format, returnCommand) =>
                && checked.Command? && checked.returnCommand == returnCommand
                && Formats.Verified(known, format) == Ok(checked.format)
              case Url(url, format, returnHeaders) =>
                && checked.Url? && checked.returnHeaders == returnHeaders && Inside(url, checked.url)
                && Formats.Verified(known, format) == Ok(checked.format)
              case _ => checked == item
  {
    hide Formats.Verified, TrimSpace;
    match item
    case Command(format, _) => Formats.VerifiesExactly(known, format);
    case Url(url, format, _) =>
      Formats.VerifiesExactly(known, format);
      TrimSpaceExactly(url, TrimSpace(url));
      BlankExactly(url);
    case CassandraQuery(_, keyspace, _, _) => BlankExactly(keyspace);
    case _ =>
  }

  lemma AcceptableExactly(known: set<string>, items: seq<Item>, single: Option<int>)
    ensures Acceptable(known, items, single) <==>
              && items != [] && (forall item :: item in items ==> ItemOk(known, item))
              && (single.Some? ==> single.value <= |items| - 1)
  {
    hide Checked, ItemOk;
    forall k | 0 <= k < |items|
      ensures Checked(known, items[k]).Ok? <==> ItemOk(known, items[k])
    {
      CheckedExactly(known, items[k]);
    }
  }

  class ItemsConfig {
    const kind: Kind
    var items: seq<Item>
    const singleResult: Option<int>
    const returnQueries: bool
    var singleResultIndex: int

    /** As decoded: the computed index is zero until validation sets it. */
    constructor (kind: Kind, items: seq<Item>, singleResult: Option<int>, returnQueries: bool)
      ensures this.kind == kind && this.items == items && this.singleResult == singleResult
      ensures this.returnQueries == returnQueries && singleResultIndex == 0
    {
      this.kind, this.items, this.singleResult := kind, items, singleResult;
      this.returnQueries, singleResultIndex := returnQueries, 0;
    }

    /** The common shape of the five `Validate` methods that the factories call. */
    method Validate(known: set<string>) returns (err: Option<Error>)
      modifies this
      ensures |items| == |old(items)|
      ensures err == None <==> Acceptable(known, old(items), singleResult)
      ensures err == None ==>
                && singleResultIndex == IndexOf(singleResult)
                && forall k :: 0 <= k < |items| ==> Checked(known, old(items)[k]) == Ok(items[k])
      ensures old(items) == [] ==> err == Some(NoItems)
      ensures err.Some? && old(items) != [] ==>
                || (err == Some(OutOfBounds) && forall k :: 0 <= k < |items| ==> Checked(known, old(items)[k]).Ok?)
                || exists n :: && 0 <= n < |items| && Checked(known, old(items)[n]) == Err(err.value)
                               && forall k :: 0 <= k < n ==> Checked(known, old(items)[k]).Ok?
    {
      if |items| == 0 {
        return Some(NoItems);
      }
      for i := 0 to |items|
        invariant |items| == |old(items)|
        invariant forall k :: 0 <= k < i ==> Checked(known, old(items)[k]) == Ok(items[k])
        invariant forall k :: i <= k < |items| ==> items[k] == old(items)[k]
      {
        match Checked(known, items[i]) {
          case Err(e) => return Some(e);
          case Ok(item) => items := items[i := item];
        }
      }
      match singleResult {
        case Some(n) =>
          singleResultIndex := n;
          if singleResultIndex > |items| - 1 {
            return Some(OutOfBounds);
          }
        case None =>
          singleResultIndex := -1;
      }
      err := None;
    }

    /** The factories: all but mysql's validate what was decoded. */
    method Load(known: set<string>) returns (err: Option<Error>)
      modifies this
      ensures |items| == |old(items)|
      ensures kind.MySql? ==> err == None && items == old(items) && singleResultIndex == old(singleResultIndex)
      ensures !kind.MySql? ==> (err == None <==> Acceptable(known, old(items), singleResult))
      ensures !kind.MySql? && err == None ==>
                && singleResultIndex == IndexOf(singleResult)
                && forall k :: 0 <= k < |items| ==> Checked(known, old(items)[k]) == Ok(items[k])
    {
      if kind.MySql? {
        return None;
      }
      err := Validate(known);
    }
  }

  // ---------------------------------------------------------------- one item

  /** A database error, with the driver's code when it has one. */
  datatype Failure = Failure(code: Option<Value>, err: Value)

  datatype Outcome =
    | Ran(command: Result<Value, Value>, output: Result<string, Value>)
    | Fetched(url: Option<Value>, request: Option<Value>, exchange: Option<Value>, body: Result<string, Value>,
              status: int, headers: Value)
    | PostgresRows(url: Option<Value>, args: seq<Result<Value, Value>>, connect: Option<Failure>, query: Option<Failure>,
                   rows: seq<Result<Value, Failure>>)
    | RedisReply(args: seq<Result<Value, Value>>, reply: Result<Option<Value>, Value>, converted: Result<Value, Value>)
    | CassandraRows(hosts: seq<Result<Value, Value>>, keyspace: Option<Value>, session: Option<Value>,
                    args: seq<Result<Value, Value>>, found: Result<Value, Value>)
    | MySqlRows(url: Option<Value>, open: Option<Failure>, args: seq<Result<Value, Value>>, query: Option<Failure>,
                records: seq<Result<Value, Value>>)

  /** An outcome belongs to an item: one interpolation for each of its templates. */
  predicate Fits(item: Item, o: Outcome) {
    match item
    case Command(_, _) => o.Ran?
    case Url(_, _, _) => o.Fetched?
    case PostgresQuery(_, _) => o.PostgresRows? && |o.args| == |item.args|
    case RedisQuery(_, _, _) => o.RedisReply? && |o.args| == |item.args|
    case CassandraQuery(_, _, _, _) => o.CassandraRows? && |o.hosts| == |item.cluster| && |o.args| == |item.args|
    case MySqlQuery(_, _) => o.MySqlRows? && |o.args| == |item.args|
  }

  /** The fixed surroundings: the format table, the status texts, and how format
      results and errors appear in a response. */
  datatype World<!J> = World(table: Formats.Table<J>, text: StatusText, show: Formats.Value<J> -> Value,
                             showError: Formats.Error -> Value, notFound: Value)

  /** The values of an inner loop, over templates or rows, or its first error. */
  function Gather<E>(rs: seq<Result<Value, E>>): Result<seq<Value>, E> {
    if rs == [] then Ok([])
    else match rs[0]
      case Err(e) => Err(e)
      case Ok(v) => match Gather(rs[1..]) { case Err(e) => Err(e) case Ok(vs) => Ok([v] + vs) }
  }

  lemma {:induction false} GatherMeaning<E>(rs: seq<Result<Value, E>>)
    ensures Gather(rs).Ok? <==> forall k :: 0 <= k < |rs| ==> rs[k].Ok?
    ensures Gather(rs).Ok? ==>
              |Gather(rs).value| == |rs| && forall k :: 0 <= k < |rs| ==> rs[k] == Ok(Gather(rs).value[k])
    ensures Gather(rs).Err? ==>
              exists n :: 0 <= n < |rs| && rs[n] == Err(Gather(rs).error) && forall k :: 0 <= k < n ==> rs[k].Ok?
  {
    if rs != [] && rs[0].Ok? {
      var rest := rs[1..];
      GatherMeaning(rest);
      assert forall k :: 1 <= k < |rs| ==> rs[k] == rest[k - 1];
      if Gather(rest).Err? {
        var n :| 0 <= n < |rest| && rest[n] == Err(Gather(rest).error) && forall k :: 0 <= k < n ==> rest[k].Ok?;
        assert rs[n + 1] == Err(Gather(rs).error);
      }
    }
  }

  function Failed(s: State, f: Failure): State {
    match f.code case None => Put(s, "error", f.err) case Some(c) => Put(Put(s, "error_code", c), "error", f.err)
  }

  /** A fresh entry without its status. */
  function Blank(text: StatusText): State { Stripped(Initial(text, OK)) }

  function WithFormatted<J>(w: World<J>, s: State, body: string, format: string): State {
    var r := Formats.FormatBody(w.table, body, format);
    match r.err
    case None => Put(Put(s, "result", w.show(r.result)), "format", Str(r.format))
    case Some(e) => Put(s, "error", w.showError(e))
  }

  // The ladders of the six `Run` loops: each step that fails records its error
  // and leaves for the label where the entry is appended.

  function ShellEntry<J>(w: World<J>, item: Item, o: Outcome): State
    requires item.Command? && o.Ran?
  {
    var s := Blank(w.text);
    Stripped(match o.command
             case Err(e) => Put(s, "error", e)
             case Ok(c) =>
               var s := if item.returnCommand then Put(s, "command", c) else s;
               match o.output
               case Err(e) => Put(s, "error", e)
               case Ok(out) => WithFormatted(w, s, TrimSpace(out), item.format))
  }

  function HttpEntry<J>(w: World<J>, item: Item, o: Outcome): State
    requires item.Url? && o.Fetched?
  {
    var s := Blank(w.text);
    if o.url.Some? then Put(s, "error", o.url.value)
    else if o.request.Some? then Put(s, "error", o.request.value)
    else if o.exchange.Some? then Put(s, "error", o.exchange.value)
    else match o.body
      case Err(e) => Put(s, "error", e)
      case Ok(b) =>
        var s := WithStatus(w.text, s, o.status);
        WithFormatted(w, if item.returnHeaders then Put(s, "headers", o.headers) else s, b, item.format)
  }

  function PostgresEntry<J>(w: World<J>, ret: bool, item: Item, o: Outcome): State
    requires item.PostgresQuery? && o.PostgresRows?
  {
    var s := Blank(w.text);
    if o.url.Some? then Put(s, "error", o.url.value)
    else match Gather(o.args)
      case Err(e) => Put(s, "error", e)
      case Ok(args) =>
        var s := if ret then Put(Put(s, "query", item.query), "args", List(args)) else s;
        if o.connect.Some? then Failed(s, o.connect.value)
        else if o.query.Some? then Failed(s, o.query.value)
        else match Gather(o.rows) { case Err(f) => Failed(s, f) case Ok(rows) => Put(s, "result", List(rows)) }
  }

  function RedisEntry<J>(w: World<J>, ret: bool, item: Item, o: Outcome): State
    requires item.RedisQuery? && o.RedisReply?
  {
    var s := Blank(w.text);
    match Gather(o.args)
    case Err(e) => Put(s, "error", e)
    case Ok(args) =>
      var s := if ret then Put(Put(s, "command", item.command), "args", List(args)) else s;
      match o.reply
      case Err(e) => Put(s, "error", e)
      case Ok(None) => Put(s, "error", w.notFound)
      case Ok(Some(_)) => match o.converted { case Err(e) => Put(s, "error", e) case Ok(v) => Put(s, "result", v) }
  }

  function CassandraEntry<J>(w: World<J>, ret: bool, item: Item, o: Outcome): State
    requires item.CassandraQuery? && o.CassandraRows?
  {
    var s := Blank(w.text);
    var hosts := Gather(o.hosts);
    if hosts.Err? then Put(s, "error", hosts.error)
    else if o.keyspace.Some? then Put(s, "error", o.keyspace.value)
    else if o.session.Some? then Put(s, "error", o.session.value)
    else
      var s := if ret then Put(s, "query", item.query) else s;
      match Gather(o.args)
      case Err(e) => Put(s, "error", e)
      case Ok(args) =>
        var s := if ret then Put(s, "args", List(args)) else s;
        match o.found { case Err(e) => Put(s, "error", e) case Ok(rows) => Put(s, "result", rows) }
  }

  function MySqlEntry<J>(w: World<J>, ret: bool, item: Item, o: Outcome): State
    requires item.MySqlQuery? && o.MySqlRows?
  {
    var s := Blank(w.text);
    if o.url.Some? then Put(s, "error", o.url.value)
    else
      var s := if ret then Put(s, "query", item.query) else s;
      if o.open.Some? then Failed(s, o.open.value)
      else match Gather(o.args)
        case Err(e) => Put(s, "error", e)
        case Ok(args) =>
          var s := if ret then Put(s, "args", List(args)) else s;
          if o.query.Some? then Failed(s, o.query.value)
          else match Gather(o.records) { case Err(e) => Put(s, "error", e) case Ok(records) => Put(s, "result", List(records)) }
  }

  function Entry<J>(w: World<J>, ret: bool, item: Item, o: Outcome): State
    requires Fits(item, o)
  {
    match item
    case Command(_, _) => ShellEntry(w, item, o)
    case Url(_, _, _) => HttpEntry(w, item, o)
    case PostgresQuery(_, _) => PostgresEntry(w, ret, item, o)
    case RedisQuery(_, _, _) => RedisEntry(w, ret, item, o)
    case CassandraQuery(_, _, _, _) => CassandraEntry(w, ret, item, o)
    case MySqlQuery(_, _) => MySqlEntry(w, ret, item, o)
  }

  /** An error or a result, never both and never neither. */
  predicate Settled(s: State) { "error" in s.data <==> "result" !in s.data }

  predicate Open(s: State) { "error" !in s.data && "result" !in s.data }

  lemma BlankIsOpen(text: StatusText)
    ensures Open(Blank(text)) && "status" !in Blank(text).data
  {
  }

  lemma FormattedIsSettled<J>(w: World<J>, s: State, body: string, format: string)
    requires Open(s)
    ensures Settled(WithFormatted(w, s, body, format))
    ensures "status" in WithFormatted(w, s, body, format).data <==> "status" in s.data
  {
  }

  lemma ShellSettled<J>(w: World<J>, item: Item, o: Outcome)
    requires item.Command? && o.Ran?
    ensures Settled(ShellEntry(w, item, o)) && "status" !in ShellEntry(w, item, o).data
  {
    BlankIsOpen(w.text);
    if o.command.Ok? && o.output.Ok? {
      var s := Blank(w.text);
      FormattedIsSettled(w, if item.returnCommand then Put(s, "command", o.command.value) else s,
                         TrimSpace(o.output.value), item.format);
    }
  }

  lemma HttpSettled<J>(w: World<J>, item: Item, o: Outcome)
    requires item.Url? && o.Fetched?
    ensures Settled(HttpEntry(w, item, o))
    ensures "status" in HttpEntry(w, item, o).data <==>
              o.url.None? && o.request.None? && o.exchange.None? && o.body.Ok?
  {
    BlankIsOpen(w.text);
    if o.body.Ok? {
      var s := WithStatus(w.text, Blank(w.text), o.status);
      FormattedIsSettled(w, if item.returnHeaders then Put(s, "headers", o.headers) else s, o.body.value, item.format);
    }
  }

  lemma RedisSettled<J>(w: World<J>, ret: bool, item: Item, o: Outcome)
    requires item.RedisQuery? && o.RedisReply?
    ensures Settled(RedisEntry(w, ret, item, o)) && "status" !in RedisEntry(w, ret, item, o).data
  {
    BlankIsOpen(w.text);
    hide Blank;
  }

  lemma CassandraSettled<J>(w: World<J>, ret: bool, item: Item, o: Outcome)
    requires item.CassandraQuery? && o.CassandraRows?
    ensures Settled(CassandraEntry(w, ret, item, o)) && "status" !in CassandraEntry(w, ret, item, o).data
  {
    BlankIsOpen(w.text);
    hide Blank;
  }

  lemma PostgresSettled<J>(w: World<J>, ret: bool, item: Item, o: Outcome)
    requires item.PostgresQuery? && o.PostgresRows?
    ensures Settled(PostgresEntry(w, ret, item, o)) && "status" !in PostgresEntry(w, ret, item, o).data
  {
    BlankIsOpen(w.text);
    hide Blank;
  }

  lemma MySqlSettled<J>(w: World<J>, ret: bool, item: Item, o: Outcome)
    requires item.MySqlQuery? && o.MySqlRows?
    ensures Settled(MySqlEntry(w, ret, item, o)) && "status" !in MySqlEntry(w, ret, item, o).data
  {
    BlankIsOpen(w.text);
    hide Blank;
  }

  /** Whichever step fails, an entry carries an error or a result, never both
      and never neither; and exactly the answered http requests carry a status. */
  lemma EntryIsErrorOrResult<J>(w: World<J>, ret: bool, item: Item, o: Outcome)
    requires Fits(item, o)
    ensures Settled(Entry(w, ret, item, o))
    ensures "status" in Entry(w, ret, item, o).data <==>
              o.Fetched? && o.url.None? && o.request.None? && o.exchange.None? && o.body.Ok?
  {
    match item
    case Command(_, _) => ShellSettled(w, item, o);
    case Url(_, _, _) => HttpSettled(w, item, o);
    case PostgresQuery(_, _) => PostgresSettled(w, ret, item, o);
    case RedisQuery(_, _, _) => RedisSettled(w, ret, item, o);
    case CassandraQuery(_, _, _, _) => CassandraSettled(w, ret, item, o);
    case MySqlQuery(_, _) => MySqlSettled(w, ret, item, o);
  }

  function ErrorIn<T>(r: Result<T, Value>): Option<Value> {
    match r case Ok(_) => None case Err(e) => Some(e)
  }

  function FailureIn(f: Option<Failure>): Option<Value> {
    match f case None => None case Some(f) => Some(f.err)
  }

  function Errors(rs: seq<Result<Value, Value>>): seq<Option<Value>> {
    seq(|rs|, k requires 0 <= k < |rs| => ErrorIn(rs[k]))
  }

  function RowErrors(rs: seq<Result<Value, Failure>>): seq<Option<Value>> {
    seq(|rs|, k requires 0 <= k < |rs| => match rs[k] case Ok(_) => None case Err(f) => Some(f.err))
  }

  /** The errors of an item's steps, in the order in which the steps are taken:
      every template and every row is a step of its own. */
  function Steps<J>(w: World<J>, o: Outcome): seq<Option<Value>> {
    match o
    case Ran(command, output) => [ErrorIn(command), ErrorIn(output)]
    case Fetched(url, request, exchange, body, _, _) => [url, request, exchange, ErrorIn(body)]
    case PostgresRows(url, args, connect, query, rows) =>
      [url] + (Errors(args) + ([FailureIn(connect), FailureIn(query)] + RowErrors(rows)))
    case RedisReply(args, reply, converted) =>
      Errors(args) + [ErrorIn(reply), if reply == Ok(None) then Some(w.notFound) else None, ErrorIn(converted)]
    case CassandraRows(hosts, keyspace, session, args, found) =>
      Errors(hosts) + ([keyspace, session] + (Errors(args) + [ErrorIn(found)]))
    case MySqlRows(url, open, args, query, records) =>
      [url, FailureIn(open)] + (Errors(args) + ([FailureIn(query)] + Errors(records)))
  }

  function FirstFailure(steps: seq<Option<Value>>): Option<Value> {
    if steps == [] then None else if steps[0].Some? then steps[0] else FirstFailure(steps[1..])
  }

  ghost predicate ErrorIs(s: State, e: Option<Value>) {
    match e case Some(e) => "error" in s.data && s.data["error"] == e case None => "error" !in s.data
  }

  lemma {:induction false} FirstOfBoth(a: seq<Option<Value>>, b: seq<Option<Value>>)
    ensures FirstFailure(a + b) == if FirstFailure(a).Some? then FirstFailure(a) else FirstFailure(b)
  {
    if a == [] {
      assert a + b == b;
    } else {
      assert (a + b)[1..] == a[1..] + b;
      FirstOfBoth(a[1..], b);
    }
  }

  lemma FirstOfFew(a: Option<Value>, b: Option<Value>, c: Option<Value>, d: Option<Value>)
    ensures FirstFailure([a]) == a
    ensures FirstFailure([a, b]) == if a.Some? then a else b
    ensures FirstFailure([a, b, c]) == if a.Some? then a else if b.Some? then b else c
    ensures FirstFailure([a, b, c, d]) == if a.Some? then a else if b.Some? then b else if c.Some? then c else d
  {
    assert [a][1..] == [] && [b][1..] == [] && [c][1..] == [] && [d][1..] == [];
    assert [a, b][1..] == [b] && [b, c][1..] == [c] && [c, d][1..] == [d];
    assert [a, b, c][1..] == [b, c] && [b, c, d][1..] == [c, d] && [a, b, c, d][1..] == [b, c, d];
    assert FirstFailure([a]) == a && FirstFailure([b]) == b && FirstFailure([c]) == c && FirstFailure([d]) == d;
    assert FirstFailure([c, d]) == (if c.Some? then c else d);
    assert FirstFailure([b, c]) == (if b.Some? then b else c);
  }

  lemma {:induction false} FirstOfGathered(rs: seq<Result<Value, Value>>)
    ensures FirstFailure(Errors(rs)) == ErrorIn(Gather(rs))
  {
    if rs != [] {
      FirstOfGathered(rs[1..]);
      assert Errors(rs)[1..] == Errors(rs[1..]);
    }
  }

  lemma {:induction false} FirstOfRows(rs: seq<Result<Value, Failure>>)
    ensures FirstFailure(RowErrors(rs)) == match Gather(rs) case Ok(_) => None case Err(f) => Some(f.err)
  {
    if rs != [] {
      FirstOfRows(rs[1..]);
      assert RowErrors(rs)[1..] == RowErrors(rs[1..]);
    }
  }

  lemma PostgresStops<J>(w: World<J>, ret: bool, item: Item, o: Outcome)
    requires item.PostgresQuery? && o.PostgresRows?
    ensures ErrorIs(PostgresEntry(w, ret, item, o), FirstFailure(Steps(w, o)))
  {
    BlankIsOpen(w.text);
    hide Blank, FirstFailure, Gather, Errors, RowErrors;
    var connect := [FailureIn(o.connect), FailureIn(o.query)];
    FirstOfFew(o.url, None, None, None);
    FirstOfFew(connect[0], connect[1], None, None);
    FirstOfGathered(o.args);
    FirstOfRows(o.rows);
    FirstOfBoth([o.url], Errors(o.args) + (connect + RowErrors(o.rows)));
    FirstOfBoth(Errors(o.args), connect + RowErrors(o.rows));
    FirstOfBoth(connect, RowErrors(o.rows));
  }

  lemma RedisStops<J>(w: World<J>, ret: bool, item: Item, o: Outcome)
    requires item.RedisQuery? && o.RedisReply?
    ensures ErrorIs(RedisEntry(w, ret, item, o), FirstFailure(Steps(w, o)))
  {
    BlankIsOpen(w.text);
    hide Blank, FirstFailure, Gather, Errors;
    var rest := [ErrorIn(o.reply), if o.reply == Ok(None) then Some(w.notFound) else None, ErrorIn(o.converted)];
    FirstOfFew(rest[0], rest[1], rest[2], None);
    FirstOfGathered(o.args);
    FirstOfBoth(Errors(o.args), rest);
  }

  lemma CassandraStops<J>(w: World<J>, ret: bool, item: Item, o: Outcome)
    requires item.CassandraQuery? && o.CassandraRows?
    ensures ErrorIs(CassandraEntry(w, ret, item, o), FirstFailure(Steps(w, o)))
  {
    BlankIsOpen(w.text);
    hide Blank, FirstFailure, Gather, Errors;
    FirstOfFew(o.keyspace, o.session, None, None);
    FirstOfFew(ErrorIn(o.found), None, None, None);
    FirstOfGathered(o.hosts);
    FirstOfGathered(o.args);
    FirstOfBoth(Errors(o.hosts), [o.keyspace, o.session] + (Errors(o.args) + [ErrorIn(o.found)]));
    FirstOfBoth([o.keyspace, o.session], Errors(o.args) + [ErrorIn(o.found)]);
    FirstOfBoth(Errors(o.args), [ErrorIn(o.found)]);
  }

  lemma MySqlStops<J>(w: World<J>, ret: bool, item: Item, o: Outcome)
    requires item.MySqlQuery? && o.MySqlRows?
    ensures ErrorIs(MySqlEntry(w, ret, item, o), FirstFailure(Steps(w, o)))
  {
    BlankIsOpen(w.text);
    hide Blank, FirstFailure, Gather, Errors;
    FirstOfFew(o.url, FailureIn(o.open), None, None);
    FirstOfFew(FailureIn(o.query), None, None, None);
    FirstOfGathered(o.args);
    FirstOfGathered(o.records);
    FirstOfBoth([o.url, FailureIn(o.open)], Errors(o.args) + ([FailureIn(o.query)] + Errors(o.records)));
    FirstOfBoth(Errors(o.args), [FailureIn(o.query)] + Errors(o.records));
    FirstOfBoth([FailureIn(o.query)], Errors(o.records));
  }

  /** The error of an entry is that of the first step that failed; what later
      steps would have done does not matter. Only formatting, the last step of a
      command or request, can add one of its own. */
  lemma EntryStopsAtFirstFailure<J>(w: World<J>, ret: bool, item: Item, o: Outcome)
    requires Fits(item, o)
    ensures FirstFailure(Steps(w, o)).Some? ==> ErrorIs(Entry(w, ret, item, o), FirstFailure(Steps(w, o)))
    ensures !o.Ran? && !o.Fetched? ==> ErrorIs(Entry(w, ret, item, o), FirstFailure(Steps(w, o)))
  {
    hide FirstFailure, WithFormatted, PostgresEntry, MySqlEntry, RedisEntry, CassandraEntry;
    match o
    case Ran(command, output) => FirstOfFew(ErrorIn(command), ErrorIn(output), None, None);
    case Fetched(url, request, exchange, body, _, _) => FirstOfFew(url, request, exchange, ErrorIn(body));
    case PostgresRows(_, _, _, _, _) => PostgresStops(w, ret, item, o);
    case RedisReply(_, _, _) => RedisStops(w, ret, item, o);
    case CassandraRows(_, _, _, _, _) => CassandraStops(w, ret, item, o);
    case MySqlRows(_, _, _, _, _) => MySqlStops(w, ret, item, o);
  }

  /** An item whose command or request succeeded, under a validated format,
      never fails in formatting: it has a result, and the format reported for it
      is a listed one. */
  lemma NoFormatFailure<J>(w: World<J>, ret: bool, loaded: Item, item: Item, o: Outcome)
    requires Formats.TEXT in w.table && forall b :: w.table[Formats.TEXT](b) == Formats.Returned(Formats.FormatText(b))
    requires loaded.Command? || loaded.Url?
    requires Checked(w.table.Keys, loaded) == Ok(item) && Fits(item, o)
    requires o.Ran? ==> o.command.Ok? && o.output.Ok?
    requires o.Fetched? ==> o.url.None? && o.request.None? && o.exchange.None? && o.body.Ok?
    ensures var data := Entry(w, ret, item, o).data;
            && "result" in data && "error" !in data && "format" in data
            && data["format"].Str? && Formats.HasFormat(item.format, data["format"].s)
  {
    var body := if o.Ran? then TrimSpace(o.output.value) else o.body.value;
    var n := Formats.FormatVerifiedNeverErrs(w.table, loaded.format, body);
  }

  // ---------------------------------------------------------------- what an entry holds

  /** A key is there exactly under a condition, and then with this value. */
  ghost predicate Has(s: State, key: string, when: bool, value: Value) {
    (key in s.data <==> when) && (when ==> s.data[key] == value)
  }

  /** A key is there exactly under a condition, and then with the values of all
      outcomes, in order. */
  ghost predicate HasAll<E>(s: State, key: string, when: bool, rs: seq<Result<Value, E>>) {
    && (key in s.data <==> when)
    && (when ==> s.data[key].List? && |s.data[key].values| == |rs|
                 && forall k :: 0 <= k < |rs| ==> rs[k] == Ok(s.data[key].values[k]))
  }

  predicate AllOk<E>(rs: seq<Result<Value, E>>) { forall k :: 0 <= k < |rs| ==> rs[k].Ok? }

  /** An entry says nothing but what its keys hold. */
  ghost predicate Plain(text: StatusText, s: State, keys: set<string>) {
    && s.status == 200 && !s.pretty && s.raw == None && s.data.Keys <= keys + {"message", "error", "result"}
    && Has(s, "message", true, Str(text(200)))
  }

  lemma BlankHolds(text: StatusText)
    ensures Blank(text) == State(200, false, None, map["message" := Str(text(200))])
  {
  }

  /** The driver's code, where a step of the database is the first to fail. */
  ghost predicate HasCode(s: State, failing: Option<Failure>) {
    if failing.Some? && failing.value.code.Some? then Has(s, "error_code", true, failing.value.code.value)
    else "error_code" !in s.data
  }

  function FirstBadRow(rs: seq<Result<Value, Failure>>): Option<Failure> {
    match Gather(rs) case Ok(_) => None case Err(f) => Some(f)
  }

  lemma PostgresReports<J>(w: World<J>, ret: bool, item: Item, o: Outcome)
    requires item.PostgresQuery? && o.PostgresRows?
    ensures var s, reached := PostgresEntry(w, ret, item, o), o.url.None? && AllOk(o.args);
            && Has(s, "query", ret && reached, item.query) && HasAll(s, "args", ret && reached, o.args)
  {
    GatherMeaning(o.args);
    BlankHolds(w.text);
    hide Gather, Blank;
  }

  lemma PostgresPlain<J>(w: World<J>, ret: bool, item: Item, o: Outcome)
    requires item.PostgresQuery? && o.PostgresRows?
    ensures Plain(w.text, PostgresEntry(w, ret, item, o), {"query", "args", "error_code"})
  {
    BlankHolds(w.text);
    hide Gather, Blank;
  }

  lemma PostgresFinds<J>(w: World<J>, ret: bool, item: Item, o: Outcome)
    requires item.PostgresQuery? && o.PostgresRows?
    ensures var s, reached := PostgresEntry(w, ret, item, o), o.url.None? && AllOk(o.args);
            && HasAll(s, "result", reached && o.connect.None? && o.query.None? && AllOk(o.rows), o.rows)
            && HasCode(s, if !reached then None else if o.connect.Some? then o.connect
                          else if o.query.Some? then o.query else FirstBadRow(o.rows))
  {
    GatherMeaning(o.args);
    GatherMeaning(o.rows);
    BlankHolds(w.text);
    hide Gather, Blank;
  }

  /** The arguments are interpolated before anything is reported; every row of a
      query that went through is reported, in order. */
  lemma PostgresHolds<J>(w: World<J>, ret: bool, item: Item, o: Outcome)
    requires item.PostgresQuery? && o.PostgresRows?
    ensures var s, reached := PostgresEntry(w, ret, item, o), o.url.None? && AllOk(o.args);
            && Plain(w.text, s, {"query", "args", "error_code"})
            && Has(s, "query", ret && reached, item.query) && HasAll(s, "args", ret && reached, o.args)
            && HasAll(s, "result", reached && o.connect.None? && o.query.None? && AllOk(o.rows), o.rows)
            && HasCode(s, if !reached then None else if o.connect.Some? then o.connect
                          else if o.query.Some? then o.query else FirstBadRow(o.rows))
  {
    hide PostgresEntry, Plain, Has, HasAll, HasCode;
    PostgresPlain(w, ret, item, o);
    PostgresReports(w, ret, item, o);
    PostgresFinds(w, ret, item, o);
  }

  lemma RedisHolds<J>(w: World<J>, ret: bool, item: Item, o: Outcome)
    requires item.RedisQuery? && o.RedisReply?
    ensures var s, reached := RedisEntry(w, ret, item, o), AllOk(o.args);
            && Plain(w.text, s, {"command", "args"})
            && Has(s, "command", ret && reached, item.command) && HasAll(s, "args", ret && reached, o.args)
            && ("result" in s.data <==> reached && o.reply.Ok? && o.reply.value.Some? && o.converted.Ok?)
            && ("result" in s.data ==> Ok(s.data["result"]) == o.converted)
  {
    GatherMeaning(o.args);
    hide Gather;
  }

  lemma CassandraHolds<J>(w: World<J>, ret: bool, item: Item, o: Outcome)
    requires item.CassandraQuery? && o.CassandraRows?
    ensures var s, connected := CassandraEntry(w, ret, item, o), AllOk(o.hosts) && o.keyspace.None? && o.session.None?;
            && Plain(w.text, s, {"query", "args"})
            && Has(s, "query", ret && connected, item.query)
            && HasAll(s, "args", ret && connected && AllOk(o.args), o.args)
            && ("result" in s.data <==> connected && AllOk(o.args) && o.found.Ok?)
            && ("result" in s.data ==> Ok(s.data["result"]) == o.found)
  {
    GatherMeaning(o.hosts);
    GatherMeaning(o.args);
    hide Gather;
  }

  lemma MySqlReports<J>(w: World<J>, ret: bool, item: Item, o: Outcome)
    requires item.MySqlQuery? && o.MySqlRows?
    ensures var s, ready := MySqlEntry(w, ret, item, o), o.url.None? && o.open.None?;
            && Plain(w.text, s, {"query", "args", "error_code"})
            && Has(s, "query", ret && o.url.None?, item.query)
            && HasAll(s, "args", ret && ready && AllOk(o.args), o.args)
  {
    GatherMeaning(o.args);
    BlankHolds(w.text);
    hide Gather, Blank;
  }

  lemma MySqlFinds<J>(w: World<J>, ret: bool, item: Item, o: Outcome)
    requires item.MySqlQuery? && o.MySqlRows?
    ensures var s, ready := MySqlEntry(w, ret, item, o), o.url.None? && o.open.None?;
            && HasAll(s, "result", ready && AllOk(o.args) && o.query.None? && AllOk(o.records), o.records)
            && HasCode(s, if o.url.Some? then None else if o.open.Some? then o.open
                          else if AllOk(o.args) then o.query else None)
  {
    GatherMeaning(o.args);
    GatherMeaning(o.records);
    BlankHolds(w.text);
    hide Gather, Blank;
  }

  /** The query is reported before the database is opened, and a bad row has no
      code. */
  lemma MySqlHolds<J>(w: World<J>, ret: bool, item: Item, o: Outcome)
    requires item.MySqlQuery? && o.MySqlRows?
    ensures var s, ready := MySqlEntry(w, ret, item, o), o.url.None? && o.open.None?;
            && Plain(w.text, s, {"query", "args", "error_code"})
            && Has(s, "query", ret && o.url.None?, item.query)
            && HasAll(s, "args", ret && ready && AllOk(o.args), o.args)
            && HasAll(s, "result", ready && AllOk(o.args) && o.query.None? && AllOk(o.records), o.records)
            && HasCode(s, if o.url.Some? then None else if o.open.Some? then o.open
                          else if AllOk(o.args) then o.query else None)
  {
    hide MySqlEntry, Plain, Has, HasAll, HasCode;
    MySqlReports(w, ret, item, o);
    MySqlFinds(w, ret, item, o);
  }

  /** What formatting a body leaves: the result shown and the format's name, or
      neither and the error. */
  ghost predicate HasFormatted<J>(w: World<J>, s: State, reached: bool, body: string, format: string) {
    var r := Formats.FormatBody(w.table, body, format);
    && Has(s, "result", reached && r.err == None, w.show(r.result))
    && Has(s, "format", reached && r.err == None, Str(r.format))
    && (reached && r.err.Some? ==> Has(s, "error", true, w.showError(r.err.value)))
  }

  /** Formatting touches three keys and nothing else. */
  lemma FormattingHolds<J>(w: World<J>, s: State, body: string, format: string)
    requires Open(s) && "format" !in s.data
    ensures var t := WithFormatted(w, s, body, format);
            && HasFormatted(w, t, true, body, format)
            && t == s.(data := t.data) && t.data.Keys <= s.data.Keys + {"result", "format", "error"}
            && forall key :: key !in {"result", "format", "error"} ==> SameAt(s, t, key)
  {
    hide Formats.FormatBody;
  }

  lemma ShellHolds<J>(w: World<J>, item: Item, o: Outcome)
    requires item.Command? && o.Ran?
    ensures var s, reached := ShellEntry(w, item, o), o.command.Ok? && o.output.Ok?;
            && Plain(w.text, s, {"command", "format"})
            && ("command" in s.data <==> item.returnCommand && o.command.Ok?)
            && ("command" in s.data ==> Ok(s.data["command"]) == o.command)
            && HasFormatted(w, s, reached, if reached then TrimSpace(o.output.value) else "", item.format)
  {
    BlankHolds(w.text);
    if o.command.Ok? && o.output.Ok? {
      var s := if item.returnCommand then Put(Blank(w.text), "command", o.command.value) else Blank(w.text);
      var t := WithFormatted(w, s, TrimSpace(o.output.value), item.format);
      FormattingHolds(w, s, TrimSpace(o.output.value), item.format);
      hide Blank, WithFormatted, Formats.FormatBody;
      assert SameAt(s, t, "status") && SameAt(s, t, "command") && SameAt(s, t, "message");
      assert ShellEntry(w, item, o) == t;
      hide ShellEntry, TrimSpace;
    } else {
      hide Blank, WithFormatted, Formats.FormatBody;
    }
  }

  lemma HttpHolds<J>(w: World<J>, item: Item, o: Outcome)
    requires item.Url? && o.Fetched?
    ensures var s, reached := HttpEntry(w, item, o), o.url.None? && o.request.None? && o.exchange.None? && o.body.Ok?;
            && s.status == (if reached then o.status else 200) && !s.pretty && s.raw == None
            && s.data.Keys <= {"status", "message", "headers", "format", "error", "result"}
            && Has(s, "status", reached, Num(o.status))
            && Has(s, "message", true, Str(w.text(if reached then o.status else 200)))
            && Has(s, "headers", reached && item.returnHeaders, o.headers)
            && HasFormatted(w, s, reached, if reached then o.body.value else "", item.format)
  {
    BlankHolds(w.text);
    if o.url.None? && o.request.None? && o.exchange.None? && o.body.Ok? {
      var s := WithStatus(w.text, Blank(w.text), o.status);
      FormattingHolds(w, if item.returnHeaders then Put(s, "headers", o.headers) else s, o.body.value, item.format);
    }
    hide Blank, WithFormatted;
  }

  // ---------------------------------------------------------------- the run

  datatype Reply = Panic | Answer(response: State)

  /** `response.Result(results[i])` or `response.Result(results)`. */
  function Select(text: StatusText, results: seq<State>, index: int): Reply {
    if index == -1 then Answer(Put(Initial(text, OK), "result", Many(results)))
    else if 0 <= index < |results| then Answer(Put(Initial(text, OK), "result", One(results[index])))
    else Panic
  }

  /** A selection answers with the status data and either all results in order or
      the one at the index, and panics exactly when there is none there. */
  lemma SelectHolds(text: StatusText, results: seq<State>, index: int)
    ensures Select(text, results, index) == Panic <==> index < -1 || index >= |results|
    ensures Select(text, results, index) != Panic ==>
              Select(text, results, index).response
              == State(200, false, None, map["status" := Num(200), "message" := Str(text(200)),
                                             "result" := if index == -1 then Many(results) else One(results[index])])
  {
  }

  function Entries<J>(w: World<J>, ret: bool, items: seq<Item>, outcomes: seq<Outcome>): (r: seq<State>)
    requires |items| == |outcomes| && forall k :: 0 <= k < |items| ==> Fits(items[k], outcomes[k])
    ensures |r| == |items| && forall k :: 0 <= k < |r| ==> r[k] == Entry(w, ret, items[k], outcomes[k])
  {
    seq(|items|, k requires 0 <= k < |items| => Entry(w, ret, items[k], outcomes[k]))
  }
}
