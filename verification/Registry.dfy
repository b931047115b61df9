/** The three registries (authorizers, formats, task factories): a map from an
    identifier to its first registration. */
module Registries {

  datatype Op<F> = Register(id: string, item: F) | Lookup(id: string)

  /** What one call reports. A second registration of an identifier panics. */
  datatype Answer<F> = Registered | Panicked | Found(item: F) | Absent

  class Registry<F> {
    var items: map<string, F>

    constructor ()
      ensures items == map[]
    {
      items := map[];
    }

    /** `RegisterTaskFactory`, `RegisterAuthorizer`, `RegisterFormat`. */
    method Register(id: string, item: F) returns (answer: Answer<F>)
      modifies this
      ensures (answer, items) == Step(old(items), Op.Register(id, item))
    {
      if id in items {
        return Panicked;
      }
      items := items[id := item];
      answer := Registered;
    }

    /** `getTaskFactory`, `AuthorizerExists` and the lookups in `formats`. */
    method Lookup(id: string) returns (answer: Answer<F>)
      ensures (answer, items) == Step(items, Op.Lookup(id))
    {
      if id in items {
        return Found(items[id]);
      }
      answer := Absent;
    }
  }

  function Step<F>(items: map<string, F>, op: Op<F>): (Answer<F>, map<string, F>) {
    match op
    case Register(id, item) => if id in items then (Panicked, items) else (Registered, items[id := item])
    case Lookup(id) => (if id in items then Found(items[id]) else Absent, items)
  }

  /** The map after a run that starts empty. */
  function After<F>(ops: seq<Op<F>>): map<string, F> {
    if ops == [] then map[] else Step(After(ops[..|ops| - 1]), ops[|ops| - 1]).1
  }

  /** The answer to the `n`-th call of a run. */
  function AnswerAt<F>(ops: seq<Op<F>>, n: nat): Answer<F>
    requires n < |ops|
  {
    Step(After(ops[..n]), ops[n]).0
  }

  /** Call `k` is the first of the run that registers `id`. */
  ghost predicate First<F(!new)>(ops: seq<Op<F>>, id: string, k: nat) {
    && k < |ops| && ops[k].Register? && ops[k].id == id
    && forall j :: 0 <= j < k ==> !(ops[j].Register? && ops[j].id == id)
  }

  lemma {:induction false} BoundToFirst<F(!new)>(ops: seq<Op<F>>, id: string)
    ensures id in After(ops) <==> exists k: nat :: First(ops, id, k)
    ensures forall k: nat :: First(ops, id, k) ==> id in After(ops) && After(ops)[id] == ops[k].item
  {
    if ops != [] {
      var n := |ops| - 1;
      BoundToFirst(ops[..n], id);
      forall k: nat | k < n
        ensures First(ops, id, k) <==> First(ops[..n], id, k)
      {
      }
      if id in After(ops[..n]) {
        var k: nat :| First(ops[..n], id, k);
        assert First(ops, id, k);
      } else if ops[n].Register? && ops[n].id == id {
        forall j | 0 <= j < n
          ensures !(ops[j].Register? && ops[j].id == id)
        {
          if ops[j].Register? && ops[j].id == id { var m := Earliest(ops[..n], id, j); }
        }
        assert First(ops, id, n);
      }
    }
  }

  lemma {:induction false} Earliest<F(!new)>(ops: seq<Op<F>>, id: string, j: nat) returns (k: nat)
    requires j < |ops| && ops[j].Register? && ops[j].id == id
    ensures k <= j && First(ops, id, k)
  {
    k := 0;
    while !(ops[k].Register? && ops[k].id == id)
      invariant k <= j && forall i :: 0 <= i < k ==> !(ops[i].Register? && ops[i].id == id)
      decreases j - k
    {
      k := k + 1;
    }
  }

  lemma FirstOfPrefix<F(!new)>(ops: seq<Op<F>>, id: string, n: nat, k: nat)
    requires n <= |ops| && k < n
    ensures First(ops[..n], id, k) <==> First(ops, id, k)
  {
  }

  /** In every run, the `n`-th call is answered by the first earlier
      registration of its identifier: a lookup finds that item or nothing, and a
      registration panics exactly when there is one. */
  lemma AnsweredByFirst<F(!new)>(ops: seq<Op<F>>, n: nat)
    requires n < |ops|
    ensures ops[n].Register? ==>
              (AnswerAt(ops, n) == Panicked <==> exists k: nat :: k < n && First(ops, ops[n].id, k))
    ensures ops[n].Lookup? ==>
              (AnswerAt(ops, n) == Absent <==> !exists k: nat :: k < n && First(ops, ops[n].id, k))
    ensures ops[n].Lookup? ==>
              forall k: nat :: k < n && First(ops, ops[n].id, k) ==> AnswerAt(ops, n) == Found(ops[k].item)
  {
    var id := ops[n].id;
    BoundToFirst(ops[..n], id);
    forall k: nat | k < n
      ensures First(ops[..n], id, k) <==> First(ops, id, k)
    {
      FirstOfPrefix(ops, id, n, k);
    }
    if id in After(ops[..n]) {
      var k: nat :| First(ops[..n], id, k);
      assert k < n && First(ops, id, k);
    }
  }
}
