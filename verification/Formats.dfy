/** The `|`-separated format language: a normaliser (`VerifyFormat`), a
    first-success interpreter (`Format`) and the edits `HasFormat`/`AddFormat`.

    `J` is the type of decoded JSON objects; decoding one is an unspecified
    deterministic function. */
module Formats {
  import opened Text

  datatype Value<J> = Nil | Str(s: string) | Lines(lines: seq<string>) | Object(o: J) | Objects(os: seq<J>)

  datatype Error = UnknownFormat(part: string) | BadJson(text: string)

  /** The two results of a formatter, which may leave a value beside its error. */
  datatype Attempt<J> = Attempt(value: Value<J>, err: Option<Error>)

  type FormatFunc<!J> = string -> Attempt<J>

  /** The table behind `formatslock`. */
  type Table<!J> = map<string, FormatFunc<J>>

  type Decoder<!J> = string -> Option<J>

  const DELIMITER: char := '|'

  const TEXT: string := "text"

  // ---------------------------------------------------------------- the formatters

  function FormatJson<J>(decode: Decoder<J>, body: string): Result<Value<J>, Error> {
    match decode(body)
    case Some(o) => Ok(Object(o))
    case None => Err(BadJson(body))
  }

  function FormatLines<J>(body: string): Result<Value<J>, Error> {
    Ok(Lines(Split(body, '\n')))
  }

  function FormatText<J>(body: string): Result<Value<J>, Error> {
    Ok(Str(body))
  }

  /** One object per line, or the first line that is not an object. */
  function DecodeAll<J>(decode: Decoder<J>, lines: seq<string>): Result<seq<J>, Error> {
    if lines == [] then Ok([])
    else match decode(lines[0])
      case None => Err(BadJson(lines[0]))
      case Some(o) =>
        match DecodeAll(decode, lines[1..])
        case Err(e) => Err(e)
        case Ok(os) => Ok([o] + os)
  }

  function FormatJsonLines<J>(decode: Decoder<J>, body: string): Result<Value<J>, Error> {
    match DecodeAll(decode, Split(body, '\n'))
    case Err(e) => Err(e)
    case Ok(os) => Ok(Objects(os))
  }

  /** The registered formatters leave no value when they fail. */
  function Returned<J>(r: Result<Value<J>, Error>): Attempt<J> {
    match r case Ok(v) => Attempt(v, None) case Err(e) => Attempt(Nil, Some(e))
  }

  lemma DecodeNone<J>(decode: Decoder<J>, lines: seq<string>)
    requires |lines| == 0
    ensures DecodeAll(decode, lines) == Ok([])
  {
  }

  lemma {:induction false} DecodeAllStep<J>(decode: Decoder<J>, lines: seq<string>, n: nat)
    requires n < |lines| && DecodeAll(decode, lines[..n]).Ok?
    ensures decode(lines[n]).Some? ==>
              DecodeAll(decode, lines[..n + 1]) == Ok(DecodeAll(decode, lines[..n]).value + [decode(lines[n]).value])
    ensures decode(lines[n]).None? ==> DecodeAll(decode, lines) == Err(BadJson(lines[n]))
  {
    if n == 0 {
      DecodeNone(decode, lines[..0]);
      DecodeNone(decode, lines[..1][1..]);
      if decode(lines[0]).Some? {
        var one: seq<J> := [decode(lines[0]).value];
        assert DecodeAll(decode, lines[..1]).value == one + [] == [] + one;
      }
    } else {
      var rest := lines[1..];
      assert lines[..n][1..] == rest[..n - 1] && lines[..n + 1][1..] == rest[..n];
      DecodeAllStep(decode, rest, n - 1);
      if decode(lines[n]).Some? {
        var tail := DecodeAll(decode, rest[..n - 1]).value;
        var last := [decode(lines[n]).value];
        assert DecodeAll(decode, lines[..n + 1]).value == [decode(lines[0]).value] + (tail + last);
        assert [decode(lines[0]).value] + (tail + last) == ([decode(lines[0]).value] + tail) + last;
      }
    }
  }

  /** The loop of `FormatJSONLines`. */
  method RunFormatJsonLines<J>(decode: Decoder<J>, body: string) returns (r: Result<Value<J>, Error>)
    ensures r == FormatJsonLines(decode, body)
  {
    var objects: seq<J> := [];
    var lines := Split(body, '\n');
    for n := 0 to |lines|
      invariant DecodeAll(decode, lines[..n]) == Ok(objects)
    {
      DecodeAllStep(decode, lines, n);
      match decode(lines[n])
      case None => return Err(BadJson(lines[n]));
      case Some(o) => objects := objects + [o];
    }
    assert lines[..|lines|] == lines;
    r := Ok(Objects(objects));
  }

  lemma {:induction false} DecodeAllMeaning<J>(decode: Decoder<J>, lines: seq<string>)
    ensures DecodeAll(decode, lines).Ok? <==> forall k :: 0 <= k < |lines| ==> decode(lines[k]).Some?
    ensures DecodeAll(decode, lines).Ok? ==>
              var os := DecodeAll(decode, lines).value;
              |os| == |lines| && forall k :: 0 <= k < |lines| ==> decode(lines[k]) == Some(os[k])
    ensures DecodeAll(decode, lines).Err? ==>
              exists n :: && 0 <= n < |lines| && decode(lines[n]).None?
                          && (forall k :: 0 <= k < n ==> decode(lines[k]).Some?)
                          && DecodeAll(decode, lines).error == BadJson(lines[n])
  {
    if lines != [] && decode(lines[0]).Some? {
      var rest := lines[1..];
      DecodeAllMeaning(decode, rest);
      assert forall k :: 1 <= k < |lines| ==> lines[k] == rest[k - 1];
      if DecodeAll(decode, rest).Err? {
        var n :| && 0 <= n < |rest| && decode(rest[n]).None?
                 && (forall k :: 0 <= k < n ==> decode(rest[k]).Some?)
                 && DecodeAll(decode, rest).error == BadJson(rest[n]);
        assert decode(lines[n + 1]).None?;
      }
    }
  }

  /** `lines` loses nothing, and `jsonlines` succeeds exactly when every one of
      those lines is an object, with one object per line in the same order. */
  lemma LineFormats<J>(decode: Decoder<J>, body: string)
    ensures FormatLines<J>(body).Ok? && FormatLines<J>(body).value.Lines?
    ensures Join(FormatLines<J>(body).value.lines, '\n') == body
    ensures var lines := FormatLines<J>(body).value.lines;
            var r := FormatJsonLines(decode, body);
            && (r.Ok? <==> forall k :: 0 <= k < |lines| ==> decode(lines[k]).Some?)
            && (r.Ok? ==> && r.value.Objects? && |r.value.os| == |lines|
                          && forall k :: 0 <= k < |lines| ==> decode(lines[k]) == Some(r.value.os[k]))
            && (r.Err? ==> exists n :: && 0 <= n < |lines| && decode(lines[n]).None? && r.error == BadJson(lines[n])
                                       && forall k :: 0 <= k < n ==> decode(lines[k]).Some?)
  {
    JoinSplit(body, '\n');
    DecodeAllMeaning(decode, Split(body, '\n'));
  }

  function Registered<J>(f: string -> Result<Value<J>, Error>): FormatFunc<J> {
    body => Returned(f(body))
  }

  /** What `init` registers. */
  function Builtin<J>(decode: Decoder<J>): Table<J> {
    map["json" := Registered(body => FormatJson(decode, body)),
        "jsonlines" := Registered(body => FormatJsonLines(decode, body)),
        "lines" := Registered(body => FormatLines(body)),
        TEXT := Registered(body => FormatText(body))]
  }

  lemma BuiltinAttempts<J>(decode: Decoder<J>, body: string)
    ensures var table := Builtin(decode);
            && table.Keys == {"json", "jsonlines", "lines", TEXT}
            && table["json"](body) == Returned(FormatJson(decode, body))
            && table["jsonlines"](body) == Returned(FormatJsonLines(decode, body))
            && table["lines"](body) == Returned(FormatLines(body))
            && table[TEXT](body) == Returned(FormatText(body))
  {
    hide Split, FormatJson, FormatJsonLines, FormatLines, FormatText, Returned;
  }

  // ---------------------------------------------------------------- VerifyFormat

  /** The parts of a format string that are not empty, in order. */
  function NonEmpty(parts: seq<string>): seq<string> {
    if parts == [] then []
    else (if parts[0] == "" then [] else [parts[0]]) + NonEmpty(parts[1..])
  }

  lemma {:induction false} NonEmptyIn(parts: seq<string>)
    ensures forall p :: p in NonEmpty(parts) <==> p in parts && p != ""
  {
    if parts != [] {
      NonEmptyIn(parts[1..]);
      assert parts == [parts[0]] + parts[1..];
    }
  }

  function WithText(parts: seq<string>): seq<string> {
    if TEXT in parts then parts else parts + [TEXT]
  }

  /** Every non-empty part is registered: the normal form. Otherwise the first
      unknown part. */
  function Verified(known: set<string>, format: string): Result<string, Error> {
    var parts := NonEmpty(Split(format, DELIMITER));
    if forall p :: p in parts ==> p in known then Ok(Join(WithText(parts), DELIMITER))
    else Err(UnknownFormat(FirstUnknown(known, parts)))
  }

  function FirstUnknown(known: set<string>, parts: seq<string>): (p: string)
    requires exists p :: p in parts && p !in known
    ensures p in parts && p !in known
  {
    if parts[0] !in known then parts[0] else FirstUnknown(known, parts[1..])
  }

  lemma {:induction false} FirstUnknownAt(known: set<string>, parts: seq<string>, k: nat)
    requires k < |parts| && parts[k] !in known
    requires forall j :: 0 <= j < k ==> parts[j] in known
    ensures FirstUnknown(known, parts) == parts[k]
  {
    if k > 0 { FirstUnknownAt(known, parts[1..], k - 1); }
  }

  lemma {:induction false} NonEmptySnoc(parts: seq<string>, p: string)
    ensures NonEmpty(parts + [p]) == NonEmpty(parts) + (if p == "" then [] else [p])
  {
    if parts == [] {
    } else {
      NonEmptySnoc(parts[1..], p);
      assert (parts + [p])[1..] == parts[1..] + [p];
    }
  }

  lemma {:induction false} NonEmptyConcat(a: seq<string>, b: seq<string>)
    ensures NonEmpty(a + b) == NonEmpty(a) + NonEmpty(b)
  {
    if a == [] {
      assert a + b == b;
    } else {
      NonEmptyConcat(a[1..], b);
      assert (a + b)[1..] == a[1..] + b && (a + b)[0] == a[0];
    }
  }

  lemma {:induction false} NonEmptyId(parts: seq<string>)
    ensures NonEmpty(parts) == parts <==> "" !in parts
    ensures |NonEmpty(parts)| <= |parts|
  {
    if parts != [] {
      NonEmptyId(parts[1..]);
      assert parts == [parts[0]] + parts[1..];
      if parts[0] == "" { assert |NonEmpty(parts)| < |parts|; }
      if parts[0] != "" && NonEmpty(parts) == parts { assert NonEmpty(parts)[1..] == parts[1..]; }
    }
  }

  /** The first part that is neither empty nor registered is the one reported. */
  lemma UnknownPart(known: set<string>, parts: seq<string>, n: nat)
    requires n < |parts| && parts[n] != "" && parts[n] !in known
    requires forall p :: p in NonEmpty(parts[..n]) ==> p in known
    ensures parts[n] in NonEmpty(parts)
    ensures FirstUnknown(known, NonEmpty(parts)) == parts[n]
  {
    var before, from := NonEmpty(parts[..n]), parts[n..];
    assert parts == parts[..n] + from;
    NonEmptyConcat(parts[..n], from);
    assert NonEmpty(from)[0] == parts[n];
    assert NonEmpty(parts)[|before|] == parts[n];
    forall j | 0 <= j < |before|
      ensures NonEmpty(parts)[j] in known
    {
      assert NonEmpty(parts)[j] == before[j];
    }
    FirstUnknownAt(known, NonEmpty(parts), |before|);
  }

  /** The loop of `VerifyFormat`. */
  method VerifyFormat(known: set<string>, format: string) returns (r: Result<string, Error>)
    ensures r == Verified(known, format)
  {
    hide Split, Join, FirstUnknown;
    var parts := Split(format, DELIMITER);
    var ff: seq<string> := [];
    var foundText := false;
    for n := 0 to |parts|
      invariant ff == NonEmpty(parts[..n])
      invariant foundText <==> TEXT in ff
      invariant forall p :: p in ff ==> p in known
    {
      var part := parts[n];
      assert parts[..n + 1] == parts[..n] + [part];
      NonEmptySnoc(parts[..n], part);
      if part == "" {
        continue;
      }
      if part !in known {
        UnknownPart(known, parts, n);
        return Err(UnknownFormat(part));
      }
      ff := ff + [part];
      if part == TEXT {
        foundText := true;
      }
    }
    assert parts[..|parts|] == parts;
    if !foundText {
      ff := ff + [TEXT];
    }
    r := Ok(Join(ff, DELIMITER));
  }

  /** The strings `VerifyFormat` leaves alone, described by their parts. */
  ghost predicate Normal(known: set<string>, format: string) {
    NormalParts(known, Split(format, DELIMITER))
  }

  ghost predicate NormalParts(known: set<string>, parts: seq<string>) {
    "" !in parts && TEXT in parts && forall p :: p in parts ==> p in known
  }

  /** A verified string splits into exactly the non-empty input parts in order,
      plus `text` at the end iff it was absent. */
  lemma VerifiedParts(known: set<string>, format: string)
    requires Verified(known, format).Ok?
    ensures Split(Verified(known, format).value, DELIMITER) == WithText(NonEmpty(Split(format, DELIMITER)))
  {
    JoinSplit(format, DELIMITER);
    var parts := NonEmpty(Split(format, DELIMITER));
    NonEmptyIn(Split(format, DELIMITER));
    forall k | 0 <= k < |parts|
      ensures DELIMITER !in parts[k]
    {
      assert parts[k] in parts;
    }
    SplitJoin(WithText(parts), DELIMITER);
  }

  /** A format is accepted if and only if its non-empty parts are registered, and
      comes back as those parts in order, with `text` at the end unless it was
      among them; otherwise the first of them that is not registered is named. */
  lemma VerifiesExactly(known: set<string>, format: string)
    ensures var parts, v := Split(format, DELIMITER), Verified(known, format);
            && (v.Ok? <==> forall p :: p in parts && p != "" ==> p in known)
            && (v.Ok? ==> Split(v.value, DELIMITER) == NonEmpty(parts) + (if TEXT in parts then [] else [TEXT]))
            && (v.Err? ==> exists n :: 0 <= n < |parts| && v == Err(UnknownFormat(parts[n]))
                             && parts[n] != "" && parts[n] !in known
                             && forall k :: 0 <= k < n && parts[k] != "" ==> parts[k] in known)
  {
    var parts := Split(format, DELIMITER);
    NonEmptyIn(parts);
    if Verified(known, format).Ok? {
      VerifiedParts(known, format);
      assert NonEmpty(parts) + [] == NonEmpty(parts);
    } else {
      var n := FirstRefused(known, parts);
      NonEmptyIn(parts[..n]);
      UnknownPart(known, parts, n);
    }
  }

  lemma FirstRefused(known: set<string>, parts: seq<string>) returns (n: nat)
    requires exists p :: p in parts && p != "" && p !in known
    ensures n < |parts| && parts[n] != "" && parts[n] !in known
    ensures forall k :: 0 <= k < n && parts[k] != "" ==> parts[k] in known
  {
    n := 0;
    var p :| p in parts && p != "" && p !in known;
    var at :| 0 <= at < |parts| && parts[at] == p;
    while parts[n] == "" || parts[n] in known
      invariant n <= at && forall k :: 0 <= k < n && parts[k] != "" ==> parts[k] in known
      decreases at - n
    {
      n := n + 1;
    }
  }

  /** Dropping the empty parts keeps the others, each once and in order. */
  lemma NonEmptyMeaning(a: seq<string>, p: string, b: seq<string>)
    ensures NonEmpty(a + [p] + b) == NonEmpty(a) + (if p == "" then [] else [p]) + NonEmpty(b)
    ensures NonEmpty([]) == []
  {
    NonEmptySnoc(a, p);
    NonEmptyConcat(a + [p], b);
  }

  /** The fixed points of `VerifyFormat` are the normal strings. */
  lemma VerifiedFixedPoint(known: set<string>, format: string)
    ensures Verified(known, format) == Ok(format) <==> Normal(known, format)
  {
    var parts := Split(format, DELIMITER);
    JoinSplit(format, DELIMITER);
    NonEmptyId(parts);
    NonEmptyIn(parts);
    if Verified(known, format) == Ok(format) {
      VerifiedParts(known, format);
      assert parts == WithText(NonEmpty(parts));
      assert |NonEmpty(parts)| <= |parts|;
      assert TEXT in parts;
      assert TEXT in NonEmpty(parts);
    }
  }

  /** Verifying a verified string returns it unchanged, provided the `text` that
      may have been appended unchecked is registered, and only then. */
  lemma VerifyTwice(known: set<string>, format: string)
    requires Verified(known, format).Ok?
    ensures var v := Verified(known, format).value;
            Verified(known, v) == Ok(v) <==> TEXT in known
  {
    var v := Verified(known, format).value;
    VerifiedParts(known, format);
    NonEmptyIn(Split(format, DELIMITER));
    VerifiedFixedPoint(known, v);
  }

  // ---------------------------------------------------------------- Format

  /** The three results of `Format`; the formatters it called, in order, are
      recorded beside them. */
  datatype Formatted<J> = Formatted(result: Value<J>, format: string, err: Option<Error>, tried: seq<string>)

  /** `before` holds the results left by the parts already tried. */
  function Interpret<J>(table: Table<J>, body: string, parts: seq<string>, before: Formatted<J>): Formatted<J> {
    if parts == [] then before
    else if parts[0] !in table then before.(err := Some(UnknownFormat(parts[0])))
    else
      var attempt := table[parts[0]](body);
      var next := Formatted(attempt.value, parts[0], attempt.err, before.tried + [parts[0]]);
      if attempt.err == None then next else Interpret(table, body, parts[1..], next)
  }

  function Fresh<J>(): Formatted<J> { Formatted(Nil, "", None, []) }

  function FormatBody<J>(table: Table<J>, body: string, format: string): Formatted<J> {
    Interpret(table, body, Split(format, DELIMITER), Fresh())
  }

  /** The loop of `Format`. */
  method Format<J>(table: Table<J>, body: string, format: string) returns (r: Formatted<J>)
    ensures r == FormatBody(table, body, format)
  {
    r := Fresh();
    var parts := Split(format, DELIMITER);
    for n := 0 to |parts|
      invariant Interpret(table, body, parts[n..], r) == FormatBody(table, body, format)
    {
      var part := parts[n];
      if part !in table {
        return r.(err := Some(UnknownFormat(part)));
      }
      var attempt := table[part](body);
      r := Formatted(attempt.value, part, attempt.err, r.tried + [part]);
      if r.err == None {
        return;
      }
    }
  }

  ghost predicate Succeeds<J>(table: Table<J>, body: string, part: string) {
    part in table && table[part](body).err == None
  }

  /** Part `n` is the first one that succeeds, and those before it are registered. */
  ghost predicate FirstSuccess<J>(table: Table<J>, body: string, parts: seq<string>, n: nat) {
    && n < |parts| && Succeeds(table, body, parts[n])
    && forall k :: 0 <= k < n ==> parts[k] in table && !Succeeds(table, body, parts[k])
  }

  /** Part `n` is the first that succeeds or is not registered; past the end if
      all parts are registered and fail. */
  ghost predicate Stops<J>(table: Table<J>, body: string, parts: seq<string>, n: nat) {
    && n <= |parts|
    && (forall k :: 0 <= k < n ==> parts[k] in table && !Succeeds(table, body, parts[k]))
    && (n < |parts| ==> parts[n] in table ==> Succeeds(table, body, parts[n]))
  }

  /** The results left once the first `n` parts have been tried. */
  function After<J>(table: Table<J>, body: string, parts: seq<string>, before: Formatted<J>, n: nat): Formatted<J>
    requires 0 < n <= |parts| && parts[n - 1] in table
  {
    var attempt := table[parts[n - 1]](body);
    Formatted(attempt.value, parts[n - 1], attempt.err, before.tried + parts[..n])
  }

  lemma AfterFirst<J>(table: Table<J>, body: string, parts: seq<string>, before: Formatted<J>, n: nat)
    requires 1 < n <= |parts| && parts[0] in table && parts[n - 1] in table
    ensures After(table, body, parts[1..], After(table, body, parts, before, 1), n - 1)
         == After(table, body, parts, before, n)
  {
    assert parts[..n] == parts[..1] + parts[1..][..n - 1];
  }

  lemma {:induction false} InterpretStops<J>(table: Table<J>, body: string, parts: seq<string>,
                                             before: Formatted<J>, n: nat)
    requires Stops(table, body, parts, n)
    ensures var r := Interpret(table, body, parts, before);
            if n < |parts| && parts[n] in table then
              r == After(table, body, parts, before, n + 1)
            else
              var last := if n == 0 then before else After(table, body, parts, before, n);
              r == if n < |parts| then last.(err := Some(UnknownFormat(parts[n]))) else last
  {
    if n > 0 {
      var next, rest := After(table, body, parts, before, 1), parts[1..];
      assert !Succeeds(table, body, parts[0]) && before.tried + parts[..1] == before.tried + [parts[0]];
      assert forall k :: 0 <= k < |rest| ==> rest[k] == parts[k + 1];
      InterpretStops(table, body, rest, next, n - 1);
      if n > 1 { AfterFirst(table, body, parts, before, n); }
      if n < |parts| && parts[n] in table { AfterFirst(table, body, parts, before, n + 1); }
    } else if parts != [] && parts[0] in table {
      assert before.tried + parts[..1] == before.tried + [parts[0]];
    }
  }

  /** What `Format` returns of any format string, verified or not: formatters are
      called in order up to the first that succeeds or is not registered. The
      value and the name are those of the last one called, whose error stands
      unless it succeeded or an unknown name comes next. */
  lemma FormatExactly<J>(table: Table<J>, body: string, format: string) returns (n: nat)
    ensures Stops(table, body, Split(format, DELIMITER), n)
    ensures var parts, r := Split(format, DELIMITER), FormatBody(table, body, format);
            var called := if n < |parts| && parts[n] in table then n + 1 else n;
            && r.tried == parts[..called]
            && (called == 0 ==> r.result == Nil && r.format == "")
            && (called > 0 ==> r.result == table[parts[called - 1]](body).value && r.format == parts[called - 1])
            && (called > n ==> r.err == None)
            && (called == n < |parts| ==> r.err == Some(UnknownFormat(parts[n])))
            && (called == n == |parts| ==> r.err.Some? && r.err == table[parts[n - 1]](body).err)
  {
    hide Split, Interpret;
    var parts := Split(format, DELIMITER);
    n := StopExists(table, body, parts);
    InterpretStops(table, body, parts, Fresh(), n);
    if n > 0 { assert !Succeeds(table, body, parts[n - 1]); }
  }

  lemma StopExists<J>(table: Table<J>, body: string, parts: seq<string>) returns (n: nat)
    ensures Stops(table, body, parts, n)
  {
    n := 0;
    while n < |parts| && parts[n] in table && !Succeeds(table, body, parts[n])
      invariant n <= |parts|
      invariant forall k :: 0 <= k < n ==> parts[k] in table && !Succeeds(table, body, parts[k])
      decreases |parts| - n
    {
      n := n + 1;
    }
  }

  lemma {:induction false} ExistsFirst<J>(table: Table<J>, body: string, parts: seq<string>, t: nat) returns (n: nat)
    requires t < |parts| && Succeeds(table, body, parts[t])
    requires forall k :: 0 <= k <= t ==> parts[k] in table
    ensures n <= t && FirstSuccess(table, body, parts, n)
  {
    n := 0;
    while !Succeeds(table, body, parts[n])
      invariant n <= t && forall k :: 0 <= k < n ==> !Succeeds(table, body, parts[k])
      decreases t - n
    {
      n := n + 1;
    }
  }

  /** Formatting with a verified string never errs: the result is that of the
      first listed format that succeeds, the formats tried are the listed ones
      up to and including it, and nothing is tried after a `text`. */
  lemma FormatVerifiedNeverErrs<J>(table: Table<J>, format: string, body: string) returns (n: nat)
    requires TEXT in table && forall b :: table[TEXT](b) == Returned(FormatText(b))
    requires Verified(table.Keys, format).Ok?
    ensures var parts := Split(Verified(table.Keys, format).value, DELIMITER);
            var r := FormatBody(table, body, Verified(table.Keys, format).value);
            && FirstSuccess(table, body, parts, n)
            && r == Formatted(table[parts[n]](body).value, parts[n], None, parts[..n + 1])
            && (forall t :: 0 <= t < |parts| && parts[t] == TEXT ==> n <= t)
  {
    var v := Verified(table.Keys, format).value;
    var parts := Split(v, DELIMITER);
    VerifiedParts(table.Keys, format);
    NonEmptyIn(Split(format, DELIMITER));
    assert TEXT in parts;
    var t :| 0 <= t < |parts| && parts[t] == TEXT;
    assert Succeeds(table, body, TEXT);
    forall k | 0 <= k < |parts|
      ensures parts[k] in table
    {
      assert parts[k] in parts;
    }
    n := ExistsFirst(table, body, parts, t);
    InterpretStops(table, body, parts, Fresh(), n);
  }

  /** Which bodies a registered format takes. */
  ghost predicate Takes<J>(decode: Decoder<J>, body: string, part: string) {
    match part
    case "json" => decode(body).Some?
    case "jsonlines" => forall line :: line in Split(body, '\n') ==> decode(line).Some?
    case "lines" => true
    case "text" => true
    case _ => false
  }

  lemma TakesExactly<J>(decode: Decoder<J>, body: string, part: string)
    ensures Succeeds(Builtin(decode), body, part) <==> Takes(decode, body, part)
  {
    hide Split, Builtin, FormatJsonLines;
    BuiltinAttempts(decode, body);
    LineFormats(decode, body);
  }

  /** So with the formats that `init` registers, whatever the JSON decoder does:
      a body is always formatted, as the first of the listed formats that takes
      it, or as text. */
  lemma BuiltinNeverErrs<J>(decode: Decoder<J>, format: string, body: string) returns (n: nat)
    requires Verified(Builtin(decode).Keys, format).Ok?
    ensures var parts := NonEmpty(Split(format, DELIMITER)) + [TEXT];
            && n < |parts| && Takes(decode, body, parts[n])
            && (forall k :: 0 <= k < n ==> !Takes(decode, body, parts[k]))
            && FormatBody(Builtin(decode), body, Verified(Builtin(decode).Keys, format).value).format == parts[n]
    ensures var r := FormatBody(Builtin(decode), body, Verified(Builtin(decode).Keys, format).value);
            && r.err == None
            && (r.format in Split(format, DELIMITER) || r.format == TEXT)
            && (r.format == TEXT ==> r.result == Str(body))
            && (r.format == "lines" ==> r.result == Lines(Split(body, '\n')))
            && (r.format == "json" ==> decode(body).Some? && r.result == Object(decode(body).value))
            && (r.format == "jsonlines" ==>
                  var lines := Split(body, '\n');
                  && r.result.Objects? && |r.result.os| == |lines|
                  && forall k :: 0 <= k < |lines| ==> decode(lines[k]) == Some(r.result.os[k]))
  {
    hide Split, Join, Interpret, FormatBody, Verified, NonEmpty, Builtin, FormatJsonLines;
    var table := Builtin(decode);
    LineFormats(decode, body);
    BuiltinAttempts(decode, body);
    forall b
      ensures table[TEXT](b) == Returned(FormatText(b))
    {
      BuiltinAttempts(decode, b);
    }
    n := FormatVerifiedNeverErrs(table, format, body);
    VerifiedParts(table.Keys, format);
    NonEmptyIn(Split(format, DELIMITER));
    var parts := Split(Verified(table.Keys, format).value, DELIMITER);
    assert parts[n] in parts;
    var all := NonEmpty(Split(format, DELIMITER)) + [TEXT];
    forall k | 0 <= k <= n
      ensures parts[k] == all[k]
      ensures Takes(decode, body, parts[k]) <==> Succeeds(table, body, parts[k])
    {
      TakesExactly(decode, body, parts[k]);
    }
  }

  // ---------------------------------------------------------------- HasFormat and AddFormat

  predicate HasFormat(format: string, id: string) {
    id in Split(format, DELIMITER)
  }

  function AddFormat(format: string, id: string): string {
    if id in Split(format, DELIMITER) then format
    else (if format != "" then id + [DELIMITER] else id) + format
  }

  lemma AddedParts(format: string, id: string)
    requires DELIMITER !in id
    ensures NonEmpty(Split(AddFormat(format, id), DELIMITER))
         == (if id == "" || HasFormat(format, id) then [] else [id]) + NonEmpty(Split(format, DELIMITER))
    ensures HasFormat(AddFormat(format, id), id)
    ensures format != "" && !HasFormat(format, id) ==>
              Split(AddFormat(format, id), DELIMITER) == [id] + Split(format, DELIMITER)
  {
    if !HasFormat(format, id) {
      if format == "" {
        SplitFree(id, DELIMITER);
        assert id + format == id;
      } else {
        SplitCut(id, DELIMITER, format);
        NonEmptyConcat([id], Split(format, DELIMITER));
      }
    }
  }

  lemma {:induction false} JoinBoth(a: seq<string>, b: seq<string>)
    requires a != [] && b != []
    ensures Join(a + b, DELIMITER) == Join(a, DELIMITER) + [DELIMITER] + Join(b, DELIMITER)
  {
    if |a| == 1 {
      assert (a + b)[1..] == b;
    } else {
      assert (a + b)[1..] == a[1..] + b;
      JoinBoth(a[1..], b);
    }
  }

  /** With or without the delimiter in it, an identifier that is not yet a part
      is put in front, as the parts it splits into. */
  lemma AddedInFront(format: string, id: string)
    ensures Split(AddFormat(format, id), DELIMITER) ==
            (if HasFormat(format, id) then [] else Split(id, DELIMITER))
            + (if format == "" && !HasFormat(format, id) then [] else Split(format, DELIMITER))
  {
    hide Split, Join;
    var a, b := Split(id, DELIMITER), Split(format, DELIMITER);
    JoinSplit(id, DELIMITER);
    JoinSplit(format, DELIMITER);
    if !HasFormat(format, id) {
      if format == "" {
        assert id + format == id && a + [] == a;
      } else {
        JoinBoth(a, b);
        assert id + [DELIMITER] + format == Join(a + b, DELIMITER);
        forall k | 0 <= k < |a + b|
          ensures DELIMITER !in (a + b)[k]
        {
          assert (a + b)[k] == if k < |a| then a[k] else b[k - |a|];
        }
        SplitJoin(a + b, DELIMITER);
      }
    }
  }

  lemma {:induction false} SplitHeadLonger(format: string, id: string)
    requires DELIMITER in id
    ensures !HasFormat(format, id)
  {
    JoinSplit(format, DELIMITER);
  }

  /** Adding a format makes it present, and adding it again changes nothing,
      exactly for the identifiers that do not contain the delimiter. */
  lemma AddFormatWorks(format: string, id: string)
    ensures HasFormat(AddFormat(format, id), id) <==> DELIMITER !in id
    ensures AddFormat(AddFormat(format, id), id) == AddFormat(format, id) <==> DELIMITER !in id
  {
    if DELIMITER in id {
      SplitHeadLonger(format, id);
      SplitHeadLonger(AddFormat(format, id), id);
      assert |AddFormat(AddFormat(format, id), id)| > |AddFormat(format, id)|;
    } else {
      AddedParts(format, id);
    }
  }

  /** On a verified string, adding a non-empty format keeps it verified exactly
      when the added format is registered. */
  lemma AddFormatKeepsNormal(known: set<string>, format: string, id: string)
    requires id != "" && DELIMITER !in id
    requires Verified(known, format) == Ok(format)
    ensures var added := AddFormat(format, id);
            Verified(known, added) == Ok(added) <==> id in known
  {
    var added := AddFormat(format, id);
    VerifiedFixedPoint(known, format);
    VerifiedFixedPoint(known, added);
    AddedParts(format, id);
  }
}
