/** The JSON response object. `State` is its abstract value; the functions on
    states say what each method does, and the lemmas are about runs of them. */
module Responses {
  import opened Text
  import opened Base64

  /** What a response carries under a key. Errors, results and settings of the
      outside world are `Opaque`. */
  datatype Value =
    | Num(n: int)
    | Str(s: string)
    | Opaque(id: nat)
    | List(values: seq<Value>)
    | One(response: State)
    | Many(responses: seq<State>)

  datatype State = State(status: int, pretty: bool, raw: Option<seq<byte>>, data: map<string, Value>)

  /** `http.StatusText`. */
  type StatusText = int -> string

  const OK := 200
  const UNAUTHORIZED := 401
  const INTERNAL_ERROR := 500

  /** The argument of `Raw`: nothing, something with a byte form, or a value
      that has to be marshalled first. */
  datatype RawArg = NoRaw | Bytes(bytes: seq<byte>) | Marshal(outcome: Result<seq<byte>, Value>)

  // ---------------------------------------------------------------- operations on states

  datatype Op =
    | SetStatus(status: int)
    | SetPretty(pretty: bool)
    | AddValue(key: string, value: Value)
    | DelValue(key: string)
    | SetRaw(raw: RawArg)
    | StripStatusData
    | UpdateStatusData

  function WithStatus(text: StatusText, s: State, status: int): State {
    s.(status := status, data := s.data["status" := Num(status)]["message" := Str(text(status))])
  }

  function WithRaw(s: State, raw: RawArg): State {
    match raw
    case NoRaw => s.(raw := None)
    case Bytes(b) => s.(raw := Some(b))
    case Marshal(Ok(b)) => s.(raw := Some(b))
    case Marshal(Err(e)) => Put(s, "error", e)
  }

  function Put(s: State, key: string, value: Value): State { s.(data := s.data[key := value]) }

  function Stripped(s: State): State { s.(data := s.data - {"status"}) }

  function Apply(text: StatusText, s: State, op: Op): State {
    match op
    case SetStatus(status) => WithStatus(text, s, status)
    case SetPretty(pretty) => s.(pretty := pretty)
    case AddValue(key, value) => Put(s, key, value)
    case DelValue(key) => s.(data := s.data - {key})
    case SetRaw(raw) => WithRaw(s, raw)
    case StripStatusData => Stripped(s)
    case UpdateStatusData => WithStatus(text, s, s.status)
  }

  function Initial(text: StatusText, status: int): State {
    WithStatus(text, State(status, false, None, map[]), status)
  }

  function Run(text: StatusText, s: State, ops: seq<Op>): State
    decreases |ops|
  {
    if ops == [] then s else Run(text, Apply(text, s, ops[0]), ops[1..])
  }

  /** `status` and `message` say what the response's status is. */
  predicate Agrees(text: StatusText, s: State) {
    && "status" in s.data && s.data["status"] == Num(s.status)
    && "message" in s.data && s.data["message"] == Str(text(s.status))
  }

  // ---------------------------------------------------------------- runs

  function LastStatus(ops: seq<Op>, before: int): int {
    if ops == [] then before
    else if ops[|ops| - 1].SetStatus? then ops[|ops| - 1].status
    else LastStatus(ops[..|ops| - 1], before)
  }

  lemma {:induction false} RunSnoc(text: StatusText, s: State, ops: seq<Op>, op: Op)
    ensures Run(text, s, ops + [op]) == Apply(text, Run(text, s, ops), op)
    decreases |ops|
  {
    if ops == [] {
      assert (ops + [op])[1..] == [];
    } else {
      RunSnoc(text, Apply(text, s, ops[0]), ops[1..], op);
      assert (ops + [op])[1..] == ops[1..] + [op];
    }
  }

  /** After any operations the status is the last one set. */
  lemma {:induction false} StatusIsLastSet(text: StatusText, s: State, ops: seq<Op>)
    ensures Run(text, s, ops).status == LastStatus(ops, s.status)
  {
    if ops != [] {
      var front, last := ops[..|ops| - 1], ops[|ops| - 1];
      assert ops == front + [last];
      RunSnoc(text, s, front, last);
      StatusIsLastSet(text, s, front);
    }
  }

  predicate Touches(op: Op, key: string) {
    match op
    case SetStatus(_) => key == "status" || key == "message"
    case UpdateStatusData => key == "status" || key == "message"
    case StripStatusData => key == "status"
    case AddValue(k, _) => key == k
    case DelValue(k) => key == k
    case SetRaw(Marshal(Err(_))) => key == "error"
    case _ => false
  }

  predicate SameAt(s: State, t: State, key: string) {
    (key in s.data <==> key in t.data) && (key in s.data ==> s.data[key] == t.data[key])
  }

  /** A key no operation touches keeps what it had. */
  lemma {:induction false} UntouchedKeys(text: StatusText, s: State, ops: seq<Op>, key: string)
    requires forall k :: 0 <= k < |ops| ==> !Touches(ops[k], key)
    ensures SameAt(Run(text, s, ops), s, key)
    decreases |ops|
  {
    if ops != [] {
      assert !Touches(ops[0], key);
      UntouchedKeys(text, Apply(text, s, ops[0]), ops[1..], key);
    }
  }

  /** The last operations decide agreement: it holds right after a status is
      set or updated, survives whatever touches neither key, and in particular
      `UpdateStatusData` restores it after any run at all. */
  lemma AgreementRestored(text: StatusText, s: State, ops: seq<Op>, later: seq<Op>)
    requires forall k :: 0 <= k < |later| ==> !Touches(later[k], "status") && !Touches(later[k], "message")
    ensures var t := Run(text, s, ops + [UpdateStatusData]);
            && Agrees(text, t) && t.status == LastStatus(ops, s.status)
            && Agrees(text, Run(text, t, later))
            && (forall key :: key != "status" && key != "message" ==> SameAt(t, Run(text, s, ops), key))
  {
    hide Run, LastStatus, Touches;
    RunSnoc(text, s, ops, UpdateStatusData);
    StatusIsLastSet(text, s, ops);
    var t := Run(text, s, ops + [UpdateStatusData]);
    UntouchedKeys(text, t, later, "status");
    UntouchedKeys(text, t, later, "message");
    StatusIsLastSet(text, t, later);
    NoStatusSet(later, t.status);
  }

  lemma {:induction false} NoStatusSet(ops: seq<Op>, before: int)
    requires forall k :: 0 <= k < |ops| ==> !Touches(ops[k], "status")
    ensures LastStatus(ops, before) == before
  {
    if ops != [] {
      assert !Touches(ops[|ops| - 1], "status");
      NoStatusSet(ops[..|ops| - 1], before);
    }
  }

  /** `UpdateStatusData` undoes `StripStatusData` exactly on the responses that
      agreed with their status; stripping leaves `message` in place. */
  lemma UpdateUndoesStrip(text: StatusText, s: State)
    ensures var stripped := Apply(text, s, StripStatusData);
            && (Apply(text, stripped, UpdateStatusData) == s <==> Agrees(text, s))
            && "status" !in stripped.data && SameAt(stripped, s, "message")
  {
    var stripped := Apply(text, s, StripStatusData);
    var back := Apply(text, stripped, UpdateStatusData);
    assert Agrees(text, back);
    if Agrees(text, s) {
      assert back.data == s.data;
    }
  }

  lemma {:induction false} RunBoth(text: StatusText, s: State, a: seq<Op>, b: seq<Op>)
    ensures Run(text, s, a + b) == Run(text, Run(text, s, a), b)
    decreases |a|
  {
    if a == [] {
      assert a + b == b;
    } else {
      assert (a + b)[1..] == a[1..] + b;
      RunBoth(text, Apply(text, s, a[0]), a[1..], b);
    }
  }

  lemma RunAround(text: StatusText, s: State, before: seq<Op>, op: Op, later: seq<Op>)
    ensures Run(text, s, before + [op] + later) == Run(text, Apply(text, Run(text, s, before), op), later)
  {
    RunBoth(text, s, before + [op], later);
    RunSnoc(text, s, before, op);
  }

  /** What a key holds after any operations is decided by the last one that
      touches it. */
  lemma LastTouchDecides(text: StatusText, s: State, before: seq<Op>, op: Op, later: seq<Op>, key: string)
    requires Touches(op, key) && forall k :: 0 <= k < |later| ==> !Touches(later[k], key)
    ensures var data := Run(text, s, before + [op] + later).data;
            match op
            case AddValue(_, value) => key in data && data[key] == value
            case DelValue(_) => key !in data
            case StripStatusData => key !in data
            case SetRaw(raw) => raw.Marshal? && raw.outcome.Err? && key == "error" && key in data && data[key] == raw.outcome.error
            case SetPretty(_) => false
            case other =>
              var status := if op.SetStatus? then op.status else LastStatus(before, s.status);
              key in data && data[key] == if key == "status" then Num(status) else Str(text(status))
  {
    hide Run, LastStatus;
    RunAround(text, s, before, op, later);
    StatusIsLastSet(text, s, before);
    UntouchedKeys(text, Apply(text, Run(text, s, before), op), later, key);
  }

  predicate ChangesRaw(op: Op) { op.SetRaw? && !(op.raw.Marshal? && op.raw.outcome.Err?) }

  lemma {:induction false} RawKept(text: StatusText, s: State, ops: seq<Op>)
    ensures (forall k :: 0 <= k < |ops| ==> !ChangesRaw(ops[k])) ==> Run(text, s, ops).raw == s.raw
    ensures (forall k :: 0 <= k < |ops| ==> !ops[k].SetPretty?) ==> Run(text, s, ops).pretty == s.pretty
    decreases |ops|
  {
    if ops != [] {
      RawKept(text, Apply(text, s, ops[0]), ops[1..]);
      assert forall k :: 1 <= k < |ops| ==> ops[k] == ops[1..][k - 1];
    }
  }

  /** After any operations the raw bytes are the last ones given that could be
      marshalled, and the form is the last one asked for. */
  lemma RawIsLastSet(text: StatusText, s: State, before: seq<Op>, op: Op, later: seq<Op>)
    ensures var t := Run(text, s, before + [op] + later);
            && (ChangesRaw(op) && (forall k :: 0 <= k < |later| ==> !ChangesRaw(later[k])) ==>
                  && (op.raw == NoRaw ==> t.raw == None)
                  && (forall b :: op.raw == Bytes(b) || op.raw == Marshal(Ok(b)) ==> t.raw == Some(b)))
            && (op.SetPretty? && (forall k :: 0 <= k < |later| ==> !later[k].SetPretty?) ==> t.pretty == op.pretty)
  {
    hide Run;
    RunAround(text, s, before, op, later);
    RawKept(text, Apply(text, Run(text, s, before), op), later);
  }

  /** A new response has its status and says so, and nothing else. */
  lemma InitialHolds(text: StatusText, status: int)
    ensures Initial(text, status)
         == State(status, false, None, map["status" := Num(status), "message" := Str(text(status))])
  {
  }

  // ---------------------------------------------------------------- the object

  class Response {
    var status: int
    var pretty: bool
    var raw: Option<seq<byte>>
    var data: map<string, Value>
    const text: StatusText

    function Snapshot(): State
      reads this
    {
      State(status, pretty, raw, data)
    }

    /** `NewResponse`. */
    constructor (text: StatusText, status: int)
      ensures this.text == text
      ensures Snapshot() == Initial(text, status)
    {
      this.text := text;
      pretty := false;
      raw := None;
      data := map[];
      new;
      Status(status);
    }

    /** A response somebody else made. */
    constructor From(text: StatusText, s: State)
      ensures this.text == text
      ensures Snapshot() == s
    {
      this.text := text;
      status, pretty, raw, data := s.status, s.pretty, s.raw, s.data;
    }

    method Status(status: int)
      modifies this
      ensures Snapshot() == Apply(text, old(Snapshot()), SetStatus(status))
    {
      this.status := status;
      AddValue("status", Num(status));
      AddValue("message", Str(text(this.status)));
    }

    method Pretty(pretty: bool)
      modifies this
      ensures Snapshot() == Apply(text, old(Snapshot()), SetPretty(pretty))
    {
      this.pretty := pretty;
    }

    method AddValue(key: string, value: Value)
      modifies this`data
      ensures Snapshot() == Apply(text, old(Snapshot()), Op.AddValue(key, value))
    {
      data := data[key := value];
    }

    method DelValue(key: string)
      modifies this`data
      ensures Snapshot() == Apply(text, old(Snapshot()), Op.DelValue(key))
    {
      data := data - {key};
    }

    method Error(err: Value)
      modifies this`data
      ensures Snapshot() == Apply(text, old(Snapshot()), Op.AddValue("error", err))
    {
      AddValue("error", err);
    }

    method Result(result: Value)
      modifies this`data
      ensures Snapshot() == Apply(text, old(Snapshot()), Op.AddValue("result", result))
    {
      AddValue("result", result);
    }

    method Raw(arg: RawArg)
      modifies this
      ensures Snapshot() == Apply(text, old(Snapshot()), SetRaw(arg))
    {
      match arg
      case NoRaw => raw := None;
      case Bytes(b) => raw := Some(b);
      case Marshal(Ok(b)) => raw := Some(b);
      case Marshal(Err(e)) => Error(e);
    }

    method StripStatusData()
      modifies this`data
      ensures Snapshot() == Apply(text, old(Snapshot()), Op.StripStatusData)
    {
      DelValue("status");
      if "message" in data && data["message"] == Str(text(status)) {
        DelValue("status");
      }
    }

    method HasValue(key: string) returns (has: bool)
      ensures has <==> key in data
    {
      has := key in data;
    }

    method UpdateStatusData()
      modifies this
      ensures Snapshot() == Apply(text, old(Snapshot()), Op.UpdateStatusData)
    {
      Status(status);
    }

    /** The raw branch of `MarshalJSON`: the buffer holds the base64 text of the
        raw bytes, of the length computed beforehand, and nothing else. */
    method MarshalRaw() returns (result: seq<byte>)
      requires raw.Some?
      ensures |result| == EncodedLen(|raw.value|)
      ensures Decode(result) == Some(raw.value)
      ensures result == Encode(raw.value)
    {
      var buf := new byte[EncodedLen(|raw.value|)];
      EncodeLength(raw.value);
      EncodeInto(buf, raw.value);
      DecodeEncode(raw.value);
      result := buf[..];
    }
  }
}
