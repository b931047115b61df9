/** Query parameters: in-place validation of their configuration, and the values
    they read from a request. A regular expression is its matcher; compiling one
    is an unspecified deterministic function. */
module QueryParameters {
  import opened Text

  type Matcher = string -> bool
  type Compiler = string -> Option<Matcher>

  datatype Error = NameMissing | BadRegexp(source: string)

  /** The fields of one parameter at one moment. */
  datatype Declaration = Declaration(name: string, regexp: string, fallback: string, compiled: Option<Matcher>)

  // ---------------------------------------------------------------- validation of one parameter

  function ErrorOf(compile: Compiler, d: Declaration): Option<Error> {
    if TrimSpace(d.name) == "" then Some(NameMissing)
    else if TrimSpace(d.regexp) != "" && compile(TrimSpace(d.regexp)).None? then Some(BadRegexp(TrimSpace(d.regexp)))
    else None
  }

  /** What a successful validation leaves. A parameter whose expression is blank
      keeps whatever matcher it had. */
  function Settled(compile: Compiler, d: Declaration): Declaration {
    Declaration(TrimSpace(d.name), TrimSpace(d.regexp), d.fallback,
                if TrimSpace(d.regexp) != "" then compile(TrimSpace(d.regexp)) else d.compiled)
  }

  /** Equal up to the spaces that validation trims. */
  ghost predicate Alike(a: Declaration, b: Declaration) {
    && TrimSpace(a.name) == TrimSpace(b.name)
    && TrimSpace(a.regexp) == TrimSpace(b.regexp)
    && a.fallback == b.fallback
  }

  /** What an attempt to validate, successful or not, may do to a parameter. */
  ghost predicate Moved(compile: Compiler, before: Declaration, after: Declaration) {
    Settled(compile, after) == Settled(compile, before) && (before == Settled(compile, before) ==> after == before)
  }

  lemma SettledIsStable(compile: Compiler, d: Declaration)
    ensures Settled(compile, Settled(compile, d)) == Settled(compile, d)
    ensures Alike(d, Settled(compile, d))
    ensures ErrorOf(compile, Settled(compile, d)) == ErrorOf(compile, d)
  {
    TrimSpaceIdempotent(d.name);
    TrimSpaceIdempotent(d.regexp);
  }

  lemma MovedTwice(compile: Compiler, a: Declaration, b: Declaration, c: Declaration)
    requires Moved(compile, a, b) && Moved(compile, b, c)
    ensures Moved(compile, a, c)
  {
  }

  lemma MovedAtMost(compile: Compiler, d: Declaration)
    ensures Moved(compile, d, d) && Moved(compile, d, Settled(compile, d))
  {
    SettledIsStable(compile, d);
  }

  /** Once settled, a parameter stays as it is. */
  lemma SettledStays(compile: Compiler, a: Declaration, b: Declaration, c: Declaration)
    requires b == Settled(compile, a) && Moved(compile, b, c)
    ensures c == b
  {
    SettledIsStable(compile, a);
  }

  // ---------------------------------------------------------------- the objects

  class Param {
    var name: string
    var regexp: string
    const fallback: string
    var compiled: Option<Matcher>

    /** A parameter as loaded from the configuration file. */
    constructor (name: string, regexp: string, fallback: string)
      ensures Now() == Declaration(name, regexp, fallback, None)
    {
      this.name, this.regexp, this.fallback, this.compiled := name, regexp, fallback, None;
    }

    ghost function Now(): Declaration
      reads this
    {
      Declaration(name, regexp, fallback, compiled)
    }

    /** One round of the loop of `QueryParams.Validate`. */
    method Settle(compile: Compiler) returns (err: Option<Error>)
      modifies this
      ensures err == old(ErrorOf(compile, Now()))
      ensures err == None ==> Now() == old(Settled(compile, Now()))
      ensures Moved(compile, old(Now()), Now())
    {
      TrimSpaceIdempotent(name);
      TrimSpaceIdempotent(regexp);
      name := TrimSpace(name);
      if name == "" {
        return Some(NameMissing);
      }
      regexp := TrimSpace(regexp);
      if regexp != "" {
        match compile(regexp)
        case None =>
          return Some(BadRegexp(regexp));
        case Some(re) =>
          compiled := Some(re);
      }
      err := None;
    }
  }

  ghost function Declarations(params: seq<Param>): (ds: seq<Declaration>)
    reads params
    ensures |ds| == |params| && forall k :: 0 <= k < |ds| ==> ds[k] == params[k].Now()
  {
    seq(|params|, k requires 0 <= k < |params| reads params => params[k].Now())
  }

  /** The error of the first parameter that has one. */
  ghost function FirstError(compile: Compiler, ds: seq<Declaration>): Option<Error> {
    if ds == [] then None
    else if ErrorOf(compile, ds[0]).Some? then ErrorOf(compile, ds[0])
    else FirstError(compile, ds[1..])
  }

  lemma {:induction false} FirstErrorAt(compile: Compiler, ds: seq<Declaration>, k: nat)
    requires k <= |ds|
    requires forall j :: 0 <= j < k ==> ErrorOf(compile, ds[j]) == None
    requires k < |ds| ==> ErrorOf(compile, ds[k]).Some?
    ensures FirstError(compile, ds) == if k < |ds| then ErrorOf(compile, ds[k]) else None
  {
    if k > 0 { FirstErrorAt(compile, ds[1..], k - 1); }
  }

  lemma {:induction false} FirstErrorIff(compile: Compiler, ds: seq<Declaration>)
    ensures FirstError(compile, ds) == None <==> forall k :: 0 <= k < |ds| ==> ErrorOf(compile, ds[k]) == None
  {
    if ds != [] {
      FirstErrorIff(compile, ds[1..]);
      assert forall k :: 1 <= k < |ds| ==> ds[k] == ds[1..][k - 1];
    }
  }

  /** Whether validating succeeds does not depend on earlier validations, whole
      or interrupted: they change declarations only up to trimmed spaces. */
  lemma {:induction false} FirstErrorAlike(compile: Compiler, a: seq<Declaration>, b: seq<Declaration>)
    requires |a| == |b| && forall k :: 0 <= k < |a| ==> Alike(a[k], b[k])
    ensures FirstError(compile, a) == FirstError(compile, b)
  {
    if a != [] { FirstErrorAlike(compile, a[1..], b[1..]); }
  }

  /** The first `n` parameters passed and are settled, the others are as before. */
  ghost predicate Progress(compile: Compiler, before: seq<Declaration>, now: seq<Declaration>, n: nat) {
    && |now| == |before| && n <= |before|
    && (forall j :: 0 <= j < n ==> ErrorOf(compile, before[j]) == None && now[j] == Settled(compile, before[j]))
    && (forall j :: n <= j < |now| ==> now[j] == before[j])
  }

  lemma ProgressStep(compile: Compiler, before: seq<Declaration>, now: seq<Declaration>, n: nat, d: Declaration)
    requires n < |before| && Progress(compile, before, now, n)
    requires Moved(compile, before[n], d)
    ensures ErrorOf(compile, before[n]) == None && d == Settled(compile, before[n]) ==>
              Progress(compile, before, now[n := d], n + 1)
    ensures ErrorOf(compile, before[n]).Some? ==> FirstError(compile, before) == ErrorOf(compile, before[n])
    ensures forall j :: 0 <= j < |before| ==> Moved(compile, before[j], now[n := d][j])
  {
    hide ErrorOf, Settled, Moved;
    if ErrorOf(compile, before[n]).Some? { FirstErrorAt(compile, before, n); }
    forall j | 0 <= j < |before|
      ensures Moved(compile, before[j], now[n := d][j])
    {
      MovedAtMost(compile, before[j]);
    }
  }

  lemma ProgressDone(compile: Compiler, before: seq<Declaration>, now: seq<Declaration>)
    requires Progress(compile, before, now, |before|)
    ensures FirstError(compile, before) == None
    ensures forall j :: 0 <= j < |before| ==> Moved(compile, before[j], now[j])
  {
    hide ErrorOf, Settled, Moved;
    FirstErrorAt(compile, before, |before|);
    forall j | 0 <= j < |before|
      ensures Moved(compile, before[j], now[j])
    {
      MovedAtMost(compile, before[j]);
    }
  }

  class QueryParams {
    const returnParams: bool
    const params: seq<Param>

    constructor (returnParams: bool, params: seq<Param>)
      requires forall i, j :: 0 <= i < j < |params| ==> params[i] != params[j]
      ensures Valid() && this.returnParams == returnParams && this.params == params
    {
      this.returnParams, this.params := returnParams, params;
    }

    /** Every parameter is an object of its own, as decoding allocates them. */
    ghost predicate Valid() {
      forall i, j :: 0 <= i < j < |params| ==> params[i] != params[j]
    }

    /** Trims and compiles each parameter in place and stops at the first bad
        one. On success every parameter is settled; in any case parameters
        change only up to trimmed spaces, and settled ones do not change. */
    method Validate(compile: Compiler) returns (err: Option<Error>)
      requires Valid()
      modifies params
      ensures err == FirstError(compile, old(Declarations(params)))
      ensures err == None ==> Progress(compile, old(Declarations(params)), Declarations(params), |params|)
      ensures forall k :: 0 <= k < |params| ==> Moved(compile, old(Declarations(params))[k], Declarations(params)[k])
    {
      ghost var before := Declarations(params);
      for i := 0 to |params|
        invariant Progress(compile, before, Declarations(params), i)
      {
        ghost var now := Declarations(params);
        var param := params[i];
        err := param.Settle(compile);
        assert Declarations(params) == now[i := param.Now()];
        ProgressStep(compile, before, now, i, param.Now());
        if err != None {
          return;
        }
      }
      ProgressDone(compile, before, Declarations(params));
      err := None;
    }
  }

  // ---------------------------------------------------------------- reading a request

  /** What one parameter contributes, given the first value of every query key. */
  function Yield(d: Declaration, query: string -> string): Option<string> {
    var value := TrimSpace(query(d.name));
    var fallback := if d.fallback != "" then Some(d.fallback) else None;
    if value == "" then fallback
    else match d.compiled
      case None => Some(value)
      case Some(matches) => if matches(value) then Some(value) else fallback
  }

  /** Later parameters override earlier ones of the same name. */
  function Collected(ds: seq<Declaration>, query: string -> string): map<string, string> {
    if ds == [] then map[]
    else
      var last := ds[|ds| - 1];
      var before := Collected(ds[..|ds| - 1], query);
      match Yield(last, query)
      case None => before
      case Some(v) => before[last.name := v]
  }

  ghost function Read(q: QueryParams?, query: string -> string): map<string, string>
    reads if q == null then [] else q.params
  {
    if q == null then map[] else Collected(Declarations(q.params), query)
  }

  /** `GetParams`, on a receiver that may be absent. */
  method GetParams(q: QueryParams?, query: string -> string) returns (result: map<string, string>)
    ensures result == Read(q, query)
  {
    result := map[];
    if q == null {
      return;
    }
    ghost var ds := Declarations(q.params);
    for i := 0 to |q.params|
      invariant result == Collected(ds[..i], query)
    {
      assert ds[..i + 1][..i] == ds[..i];
      var param := q.params[i];
      var value := TrimSpace(query(param.name));
      if value == "" {
        if param.fallback != "" {
          result := result[param.name := param.fallback];
        }
      } else {
        match param.compiled
        case Some(matches) =>
          if matches(value) {
            result := result[param.name := value];
          } else {
            if param.fallback != "" {
              result := result[param.name := param.fallback];
            }
          }
        case None =>
          result := result[param.name := value];
      }
    }
    assert ds[..|q.params|] == ds;
  }

  /** Parameter `k` is the last of its name to yield a value. */
  ghost predicate Decides(ds: seq<Declaration>, query: string -> string, k: nat) {
    && k < |ds| && Yield(ds[k], query).Some?
    && forall j :: k < j < |ds| && ds[j].name == ds[k].name ==> Yield(ds[j], query).None?
  }

  /** For every name the last parameter that yields a value wins, and a name is
      absent exactly when none yields one. */
  lemma DecidesFront(ds: seq<Declaration>, query: string -> string, name: string, k: nat)
    requires ds != []
    requires Yield(ds[|ds| - 1], query).None? || ds[|ds| - 1].name != name
    ensures Decides(ds, query, k) && ds[k].name == name <==>
            Decides(ds[..|ds| - 1], query, k) && ds[..|ds| - 1][k].name == name
  {
  }

  lemma {:induction false} LastYieldWins(ds: seq<Declaration>, query: string -> string, name: string)
    ensures name in Collected(ds, query) <==> exists k: nat :: Decides(ds, query, k) && ds[k].name == name
    ensures forall k: nat :: Decides(ds, query, k) && ds[k].name == name ==>
              name in Collected(ds, query) && Some(Collected(ds, query)[name]) == Yield(ds[k], query)
  {
    if ds != [] {
      var n := |ds| - 1;
      var front, last := ds[..n], ds[n];
      LastYieldWins(front, query, name);
      if Yield(last, query).Some? && last.name == name {
        assert Decides(ds, query, n);
      } else {
        forall k: nat
          ensures Decides(ds, query, k) && ds[k].name == name <==> Decides(front, query, k) && front[k].name == name
        {
          DecidesFront(ds, query, name, k);
        }
      }
    }
  }

  /** A non-empty query value that matches the expression declared, if any. */
  ghost predicate Accepted(compile: Compiler, loaded: Declaration, value: string) {
    var regexp := TrimSpace(loaded.regexp);
    value != "" && (regexp != "" ==> compile(regexp).Some? && compile(regexp).value(value))
  }

  /** The value a loaded and validated declaration gives its name: the trimmed
      query value if it is accepted, and the declared default only if not. */
  ghost predicate Legitimate(compile: Compiler, loaded: Declaration, query: string -> string, name: string,
                             value: string) {
    && name == TrimSpace(loaded.name) && value != ""
    && value == if Accepted(compile, loaded, TrimSpace(query(name))) then TrimSpace(query(name)) else loaded.fallback
  }

  /** A loaded declaration that has a value for a name: an accepted one in the
      query, or a default. */
  ghost predicate Provides(compile: Compiler, loaded: Declaration, query: string -> string, name: string) {
    && name == TrimSpace(loaded.name)
    && (Accepted(compile, loaded, TrimSpace(query(name))) || loaded.fallback != "")
  }

  /** Declaration `k` is the last one that has a value for the name. */
  ghost predicate LastProvides(compile: Compiler, loaded: seq<Declaration>, query: string -> string, name: string, k: nat) {
    && k < |loaded| && Provides(compile, loaded[k], query, name)
    && forall j :: k < j < |loaded| ==> !Provides(compile, loaded[j], query, name)
  }

  lemma SettledYields(compile: Compiler, loaded: Declaration, d: Declaration, query: string -> string, name: string)
    requires ErrorOf(compile, loaded) == None && loaded.compiled == None && d == Settled(compile, loaded)
    ensures Provides(compile, loaded, query, name) <==> d.name == name && Yield(d, query).Some?
    ensures Provides(compile, loaded, query, name) ==> Legitimate(compile, loaded, query, name, Yield(d, query).value)
  {
    hide TrimSpace;
  }

  /** A name read through validated parameters has a value if and only if some
      declaration of that name has a default or accepts the trimmed query value;
      and the value is that of the last such declaration: the query value if it
      is non-empty and matches the declared expression, and otherwise the
      declared default. */
  lemma ValidatedValues(compile: Compiler, loaded: seq<Declaration>, ds: seq<Declaration>, query: string -> string,
                        name: string)
    requires FirstError(compile, loaded) == None
    requires forall k :: 0 <= k < |loaded| ==> loaded[k].compiled == None
    requires |ds| == |loaded| && forall k :: 0 <= k < |ds| ==> ds[k] == Settled(compile, loaded[k])
    ensures name in Collected(ds, query) <==> exists k :: 0 <= k < |loaded| && Provides(compile, loaded[k], query, name)
    ensures name in Collected(ds, query) ==>
              exists k: nat :: LastProvides(compile, loaded, query, name, k)
                               && Legitimate(compile, loaded[k], query, name, Collected(ds, query)[name])
  {
    hide TrimSpace, Provides, Yield, Legitimate, Collected, Settled, ErrorOf;
    FirstErrorIff(compile, loaded);
    LastYieldWins(ds, query, name);
    forall k | 0 <= k < |ds|
      ensures Provides(compile, loaded[k], query, name) <==> ds[k].name == name && Yield(ds[k], query).Some?
      ensures Provides(compile, loaded[k], query, name) ==>
                Legitimate(compile, loaded[k], query, name, Yield(ds[k], query).value)
    {
      SettledYields(compile, loaded[k], ds[k], query, name);
    }
    if exists k :: 0 <= k < |loaded| && Provides(compile, loaded[k], query, name) {
      var k := LastOf(compile, loaded, query, name);
      assert Decides(ds, query, k) && ds[k].name == name;
    }
  }

  lemma LastOf(compile: Compiler, loaded: seq<Declaration>, query: string -> string, name: string) returns (k: nat)
    requires exists j :: 0 <= j < |loaded| && Provides(compile, loaded[j], query, name)
    ensures LastProvides(compile, loaded, query, name, k)
  {
    var j :| 0 <= j < |loaded| && Provides(compile, loaded[j], query, name);
    k := |loaded| - 1;
    while !Provides(compile, loaded[k], query, name)
      invariant j <= k < |loaded| && forall i :: k < i < |loaded| ==> !Provides(compile, loaded[i], query, name)
      decreases k
    {
      k := k - 1;
    }
  }

  /** Exactly what loaded declarations make of a query: the names with a value,
      and each value, of the last declaration that has one. */
  ghost predicate ReadsExactly(compile: Compiler, loaded: seq<Declaration>, query: string -> string,
                               values: map<string, string>) {
    forall name ::
      && (name in values <==> exists k :: 0 <= k < |loaded| && Provides(compile, loaded[k], query, name))
      && (name in values ==> exists k: nat :: LastProvides(compile, loaded, query, name, k)
                               && Legitimate(compile, loaded[k], query, name, values[name]))
  }

  lemma ValuesAreExact(compile: Compiler, loaded: seq<Declaration>, ds: seq<Declaration>, query: string -> string)
    requires FirstError(compile, loaded) == None
    requires forall k :: 0 <= k < |loaded| ==> loaded[k].compiled == None
    requires |ds| == |loaded| && forall k :: 0 <= k < |ds| ==> ds[k] == Settled(compile, loaded[k])
    ensures ReadsExactly(compile, loaded, query, Collected(ds, query))
  {
    hide Provides, Legitimate, Collected, Settled, FirstError;
    forall name
      ensures var values := Collected(ds, query);
              && (name in values <==> exists k :: 0 <= k < |loaded| && Provides(compile, loaded[k], query, name))
              && (name in values ==> exists k: nat :: LastProvides(compile, loaded, query, name, k)
                                       && Legitimate(compile, loaded[k], query, name, values[name]))
    {
      ValidatedValues(compile, loaded, ds, query, name);
    }
  }

  ghost predicate Faulty(compile: Compiler, d: Declaration) {
    Spaces(d.name) || (!Spaces(d.regexp) && compile(TrimSpace(d.regexp)).None?)
  }

  /** Validation succeeds if and only if every parameter has a name and an
      expression that is blank or compiles; otherwise the first that has not is
      reported, a missing name before a bad expression. */
  lemma {:induction false} ValidatesExactly(compile: Compiler, ds: seq<Declaration>)
    ensures FirstError(compile, ds) == None <==> forall k :: 0 <= k < |ds| ==> !Faulty(compile, ds[k])
    ensures FirstError(compile, ds).Some? ==>
              exists n :: && 0 <= n < |ds| && Faulty(compile, ds[n])
                          && (forall k :: 0 <= k < n ==> !Faulty(compile, ds[k]))
                          && FirstError(compile, ds).value ==
                             if Spaces(ds[n].name) then NameMissing else BadRegexp(TrimSpace(ds[n].regexp))
  {
    if ds != [] {
      var rest := ds[1..];
      BlankExactly(ds[0].name);
      BlankExactly(ds[0].regexp);
      ValidatesExactly(compile, rest);
      assert forall k :: 1 <= k < |ds| ==> ds[k] == rest[k - 1];
      if ErrorOf(compile, ds[0]) == None && FirstError(compile, rest).Some? {
        var n :| && 0 <= n < |rest| && Faulty(compile, rest[n])
                 && (forall k :: 0 <= k < n ==> !Faulty(compile, rest[k]))
                 && FirstError(compile, rest).value ==
                    if Spaces(rest[n].name) then NameMissing else BadRegexp(TrimSpace(rest[n].regexp));
        assert Faulty(compile, ds[n + 1]);
      }
    }
  }
}
