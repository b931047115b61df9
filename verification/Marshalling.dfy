/** What `Write` sends of a response. `json.Marshal` checks what a nested
    response marshals itself to, and a raw one gives its bare base64 text. */
module Marshalling {
  import opened Text
  import opened Base64
  import opened Responses
  import opened Json
  import Routing
  import TaskItems
  import TaskRun

  /** Which values of the outside world marshal. */
  type Outside = nat -> bool

  predicate BareJson(text: seq<byte>) { text == TRUE || text == NULL || BareNumber(text) }

  // ---------------------------------------------------------------- json.Marshal

  ghost predicate MarshalsValue(outside: Outside, v: Value)
    decreases v
  {
    match v
    case Num(_) => true
    case Str(_) => true
    case Opaque(id) => outside(id)
    case List(vs) => forall k :: 0 <= k < |vs| ==> MarshalsValue(outside, vs[k])
    case One(s) => Marshals(outside, s)
    case Many(ss) => forall k :: 0 <= k < |ss| ==> Marshals(outside, ss[k])
  }

  /** `MarshalJSON` as `json.Marshal` calls it. */
  ghost predicate Marshals(outside: Outside, s: State)
    decreases s
  {
    match s.raw
    case Some(b) => IsJson(Encode(b))
    case None => forall key :: key in s.data ==> MarshalsValue(outside, s.data[key])
  }

  // ---------------------------------------------------------------- Write

  datatype Body = RawBytes(bytes: seq<byte>) | Rendered(s: State) | Nothing

  datatype Sent = Sent(status: int, body: Body)

  /** The status goes out first; a body that does not marshal is left out. */
  ghost function Write(outside: Outside, s: State): Sent {
    Sent(s.status,
         match s.raw
         case Some(b) => RawBytes(b)
         case None => if Marshals(outside, s) then Rendered(s) else Nothing)
  }

  // ---------------------------------------------------------------- at any depth

  /** `part` is `whole` or inside it, down to the responses with raw bytes, which
      hide their values. */
  ghost predicate Contains(whole: Value, part: Value)
    decreases whole
  {
    || part == whole
    || match whole
       case List(vs) => exists k :: 0 <= k < |vs| && Contains(vs[k], part)
       case One(s) => ContainedIn(s, part)
       case Many(ss) => exists k :: 0 <= k < |ss| && (part == One(ss[k]) || ContainedIn(ss[k], part))
       case _ => false
  }

  ghost predicate ContainedIn(s: State, part: Value)
    decreases s
  {
    s.raw.None? && exists key :: key in s.data && Contains(s.data[key], part)
  }

  /** A part that cannot be marshalled: a value of the outside world that does
      not, or a raw response whose base64 text is not JSON. */
  ghost predicate Breaks(outside: Outside, part: Value) {
    (part.Opaque? && !outside(part.id)) || (part.One? && !NestsWell(part.response))
  }

  lemma {:induction false} MarshalsInside(outside: Outside, s: State)
    ensures Marshals(outside, s) <==> NestsWell(s) && forall part :: ContainedIn(s, part) ==> !Breaks(outside, part)
    decreases s
  {
    NestedMarshals(outside, s);
    hide NestsWell, IsJson, Encode;
    if s.raw.None? {
      forall key | key in s.data
        ensures MarshalsValue(outside, s.data[key]) <==>
                  forall part :: Contains(s.data[key], part) ==> !Breaks(outside, part)
      {
        ValueInside(outside, s.data[key]);
      }
      NestsWithoutRaw(s);
    }
  }

  lemma NestsWithoutRaw(s: State)
    requires s.raw.None?
    ensures NestsWell(s)
  {
  }

  lemma {:induction false} ValueInside(outside: Outside, v: Value)
    ensures MarshalsValue(outside, v) <==> forall part :: Contains(v, part) ==> !Breaks(outside, part)
    decreases v
  {
    hide NestsWell;
    assert Contains(v, v);
    match v
    case List(vs) =>
      forall k | 0 <= k < |vs|
        ensures MarshalsValue(outside, vs[k]) <==> forall part :: Contains(vs[k], part) ==> !Breaks(outside, part)
      {
        ValueInside(outside, vs[k]);
      }
    case One(s) => MarshalsInside(outside, s);
    case Many(ss) =>
      forall k | 0 <= k < |ss|
        ensures Marshals(outside, ss[k]) <==>
                  !Breaks(outside, One(ss[k])) && forall part :: ContainedIn(ss[k], part) ==> !Breaks(outside, part)
      {
        MarshalsInside(outside, ss[k]);
      }
    case _ =>
  }

  /** A response without raw bytes is written whole if and only if nothing in it,
      at any depth, is a value that does not marshal or a raw response whose
      base64 text is not JSON; otherwise its body is empty. */
  lemma WrittenExactly(outside: Outside, s: State)
    requires s.raw.None?
    ensures Write(outside, s) ==
            Sent(s.status, if forall part :: ContainedIn(s, part) ==> !Breaks(outside, part) then Rendered(s) else Nothing)
  {
    MarshalsInside(outside, s);
    NestsWithoutRaw(s);
  }

  /** Raw bytes, once given, are what is sent, whatever else is done to the
      response, until other raw bytes are given; without any, the values are. */
  lemma RawIsSent(outside: Outside, text: StatusText, s: State, before: seq<Op>, raw: RawArg, later: seq<Op>)
    requires forall k :: 0 <= k < |later| ==> !ChangesRaw(later[k])
    ensures var ops := before + [SetRaw(raw)] + later;
            var sent := Write(outside, Run(text, s, ops));
            && sent.status == LastStatus(ops, s.status)
            && (forall b :: raw == Bytes(b) || raw == Marshal(Ok(b)) ==> sent.body == RawBytes(b))
            && (raw == NoRaw ==> !sent.body.RawBytes?)
  {
    hide Run, LastStatus, Marshals;
    RawIsLastSet(text, s, before, SetRaw(raw), later);
    StatusIsLastSet(text, s, before + [SetRaw(raw)] + later);
  }

  /** The results that a selection puts into its response. */
  predicate Selected(results: seq<State>, index: int, k: nat) {
    k < |results| && (index == -1 || index == k)
  }

  predicate NestsWell(r: State) { r.raw.Some? ==> BareJson(Encode(r.raw.value)) }

  lemma NestedMarshals(outside: Outside, r: State)
    ensures r.raw.Some? ==> (Marshals(outside, r) <==> NestsWell(r))
  {
    hide IsJson, BareNumber, Encode;
    if r.raw.Some? { RawTextIsJsonExactly(r.raw.value); }
  }

  /** The response of a selection is written whole if and only if every selected
      result without raw bytes marshals, and the base64 text of every one with
      them is `true`, `null` or a number; otherwise its status goes out with an
      empty body. */
  lemma SelectionIsWrittenExactly(outside: Outside, text: StatusText, results: seq<State>, index: int)
    requires TaskItems.Select(text, results, index).Answer?
    ensures var s := TaskItems.Select(text, results, index).response;
            && Write(outside, s).status == OK
            && Write(outside, s).body ==
                 if forall k: nat :: Selected(results, index, k) ==>
                      NestsWell(results[k]) && (results[k].raw.None? ==> Marshals(outside, results[k]))
                 then Rendered(s) else Nothing
  {
    hide IsJson, BareJson, Encode;
    var s := TaskItems.Select(text, results, index).response;
    var result := s.data["result"];
    assert s.data.Keys == {"status", "message", "result"};
    assert Marshals(outside, s) <==> MarshalsValue(outside, result);
    forall k: nat | k < |results|
      ensures Marshals(outside, results[k]) <==>
                NestsWell(results[k]) && (results[k].raw.None? ==> Marshals(outside, results[k]))
    {
      NestedMarshals(outside, results[k]);
    }
    if index == -1 {
      assert result == Many(results);
    } else {
      assert result == One(results[index]) && Selected(results, index, index);
    }
  }

  /** Embedding loses a raw response: what is sent as it is on its own, as a file
      is, empties the body of the multi task that selects it, unless its base64
      text happens to be JSON. */
  lemma RawInMultiIsLost(outside: Outside, text: StatusText, w: TaskRun.World, t: Routing.Tasker, path: seq<nat>,
                         k: nat, r: State)
    requires t.Multi? && k < |t.tasks| && (t.index == -1 || t.index == k)
    requires TaskRun.RunTask(text, w, t.tasks[k], path + [k]) == TaskItems.Answer(r)
    requires TaskRun.RunTask(text, w, t, path).Answer?
    requires r.raw.Some? && !BareJson(Encode(r.raw.value))
    ensures Write(outside, r) == Sent(r.status, RawBytes(r.raw.value))
    ensures Write(outside, TaskRun.RunTask(text, w, t, path).response) == Sent(OK, Nothing)
  {
    hide Encode, BareJson, Marshals;
    TaskRun.OneResponseEach(text, w, t.tasks, path);
    var results := TaskRun.RunAll(text, w, t.tasks, path).value;
    assert Selected(results, t.index, k) && !NestsWell(results[k]);
    SelectionIsWrittenExactly(outside, text, results, t.index);
  }
}
