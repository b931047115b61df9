/** The authorizer registry under its `sync.RWMutex`, as a step system over any
    number of threads. The mutex prefers writers: from the moment a writer waits
    for the readers to leave, no new read lock is granted, not even to a thread
    that already holds one. `GetAuthorizers` takes such a nested read lock. */
module LockedRegistry {

  type Factory = nat

  datatype Register = Idle | Waiting | Entered | Leaving(panicked: bool) | Registered(panicked: bool)

  datatype Exists = Asking | Reading | Answered(found: bool)

  datatype Built = AllBuilt | UnknownType | Vanished | FactoryFailed

  /** `GetAuthorizers` at configuration entry `i`: about to validate it; inside
      the nested read lock; validated, about to fetch the factory; leaving. */
  datatype Get =
    | Starting
    | At(i: nat)
    | Nested(i: nat)
    | Checked(i: nat, found: bool)
    | Returning(r: Built)
    | Returned(r: Built)

  datatype Thread =
    | RegisterAuthorizer(id: string, factory: Factory, w: Register)
    | AuthorizerExists(id: string, e: Exists)
    | GetAuthorizers(types: seq<string>, g: Get)

  /** `authorizers` and the mutex: granted read locks, whether a writer waits
      for the readers, whether a writer is inside. */
  datatype State = State(threads: seq<Thread>, items: map<string, Factory>, readers: nat, waiting: bool, writing: bool)

  // ---------------------------------------------------------------- steps

  /** A read lock is granted only when no writer waits or writes. */
  predicate MayRead(s: State) { !s.waiting && !s.writing }

  /** What thread `t` does next in state `s`: its new self and the shared state
      around it, or nothing if it is finished or has to wait. A factory may
      reject its configuration, so there can be two successors. */
  ghost predicate Moves(s: State, t: Thread, t': Thread, s': State) {
    && s'.threads == s.threads
    && match t {
         case RegisterAuthorizer(id, f, Idle) =>
           && MayRead(s)
           && t' == t.(w := Waiting) && s' == s.(waiting := true)
         case RegisterAuthorizer(id, f, Waiting) =>
           && s.readers == 0
           && t' == t.(w := Entered) && s' == s.(waiting := false, writing := true)
         case RegisterAuthorizer(id, f, Entered) =>
           && t' == t.(w := Leaving(id in s.items))
           && s' == if id in s.items then s else s.(items := s.items[id := f])
         case RegisterAuthorizer(id, f, Leaving(p)) =>
           && t' == t.(w := Registered(p)) && s' == s.(writing := false)
         case AuthorizerExists(id, Asking) =>
           && MayRead(s)
           && t' == t.(e := Reading) && s' == s.(readers := s.readers + 1)
         case AuthorizerExists(id, Reading) =>
           && s.readers > 0
           && t' == t.(e := Answered(id in s.items)) && s' == s.(readers := s.readers - 1)
         case GetAuthorizers(types, Starting) =>
           && MayRead(s)
           && t' == t.(g := At(0)) && s' == s.(readers := s.readers + 1)
         case GetAuthorizers(types, At(i)) =>
           if i < |types| then
             && MayRead(s)
             && t' == t.(g := Nested(i)) && s' == s.(readers := s.readers + 1)
           else
             t' == t.(g := Returning(AllBuilt)) && s' == s
         case GetAuthorizers(types, Nested(i)) =>
           && s.readers > 0 && i < |types|
           && t' == t.(g := Checked(i, types[i] in s.items)) && s' == s.(readers := s.readers - 1)
         case GetAuthorizers(types, Checked(i, found)) =>
           && i < |types| && s' == s
           && if !found then t' == t.(g := Returning(UnknownType))
              else if types[i] !in s.items then t' == t.(g := Returning(Vanished))
              else t' == t.(g := At(i + 1)) || t' == t.(g := Returning(FactoryFailed))
         case GetAuthorizers(types, Returning(r)) =>
           && s.readers > 0
           && t' == t.(g := Returned(r)) && s' == s.(readers := s.readers - 1)
         case _ => false
       }
  }

  ghost predicate Next(s: State, k: nat, s': State) {
    && k < |s.threads| && k < |s'.threads|
    && exists around :: Moves(s, s.threads[k], s'.threads[k], around)
                        && s' == around.(threads := s.threads[k := s'.threads[k]])
  }

  predicate Done(t: Thread) {
    match t
    case RegisterAuthorizer(_, _, w) => w.Registered?
    case AuthorizerExists(_, e) => e.Answered?
    case GetAuthorizers(_, g) => g.Returned?
  }

  /** Waiting for a lock. */
  predicate Requests(t: Thread) {
    match t
    case RegisterAuthorizer(_, _, w) => w.Idle? || w.Waiting?
    case AuthorizerExists(_, e) => e.Asking?
    case GetAuthorizers(types, g) => g.Starting? || (g.At? && g.i < |types|)
  }

  /** Holding the outer read lock and asking for the nested one. */
  predicate AsksNested(t: Thread) {
    t.GetAuthorizers? && t.g.At? && t.g.i < |t.types|
  }

  /** Thread `k` can take a step. */
  ghost predicate CanStep(s: State, k: nat) {
    exists s' :: Next(s, k, s')
  }

  predicate Start(t: Thread) {
    match t
    case RegisterAuthorizer(_, _, w) => w.Idle?
    case AuthorizerExists(_, e) => e.Asking?
    case GetAuthorizers(_, g) => g.Starting?
  }

  ghost predicate Init(s: State) {
    && (forall k :: 0 <= k < |s.threads| ==> Start(s.threads[k]))
    && s.items == map[] && s.readers == 0 && !s.waiting && !s.writing
  }

  /** An interleaving: at each moment some thread takes a step. */
  ghost predicate IsRun(states: seq<State>, who: seq<nat>) {
    && |states| == |who| + 1
    && forall n :: 0 <= n < |who| ==> Next(states[n], who[n], states[n + 1])
  }

  // ---------------------------------------------------------------- counting threads

  function Sum(ts: seq<Thread>, weight: Thread -> nat): nat {
    if ts == [] then 0 else weight(ts[0]) + Sum(ts[1..], weight)
  }

  lemma {:induction false} SumUpdate(ts: seq<Thread>, k: nat, t: Thread, weight: Thread -> nat)
    requires k < |ts|
    ensures Sum(ts[k := t], weight) == Sum(ts, weight) - weight(ts[k]) + weight(t)
    ensures weight(ts[k]) <= Sum(ts, weight)
  {
    if k == 0 {
      assert ts[0 := t][1..] == ts[1..];
    } else {
      SumUpdate(ts[1..], k - 1, t, weight);
      assert ts[k := t][1..] == ts[1..][k - 1 := t];
    }
  }

  lemma {:induction false} SumPair(ts: seq<Thread>, j: nat, k: nat, weight: Thread -> nat)
    requires j < k < |ts|
    ensures weight(ts[j]) + weight(ts[k]) <= Sum(ts, weight)
  {
    if j == 0 {
      SumUpdate(ts[1..], k - 1, ts[k], weight);
    } else {
      SumPair(ts[1..], j - 1, k - 1, weight);
    }
  }

  lemma {:induction false} SumZero(ts: seq<Thread>, weight: Thread -> nat)
    ensures Sum(ts, weight) == 0 <==> forall k :: 0 <= k < |ts| ==> weight(ts[k]) == 0
  {
    if ts != [] {
      SumZero(ts[1..], weight);
      assert forall k :: 1 <= k < |ts| ==> ts[k] == ts[1..][k - 1];
    }
  }

  /** Read locks a thread holds. */
  function Held(t: Thread): nat {
    match t
    case RegisterAuthorizer(_, _, _) => 0
    case AuthorizerExists(_, e) => if e.Reading? then 1 else 0
    case GetAuthorizers(_, g) => if g.Starting? || g.Returned? then 0 else if g.Nested? then 2 else 1
  }

  function WaitsInLine(t: Thread): nat {
    if t.RegisterAuthorizer? && t.w.Waiting? then 1 else 0
  }

  function Writes(t: Thread): nat {
    if t.RegisterAuthorizer? && (t.w.Entered? || t.w.Leaving?) then 1 else 0
  }

  /** Whether the thread is the one whose registration of `id` took effect. */
  predicate Won(t: Thread, id: string) {
    && t.RegisterAuthorizer? && t.id == id
    && (t.w == Leaving(false) || t.w == Registered(false))
  }

  function Wins(id: string): Thread -> nat {
    (t: Thread) => if Won(t, id) then 1 else 0
  }

  // ---------------------------------------------------------------- the invariant

  /** What is known of each thread on its own. */
  predicate ThreadOk(t: Thread, items: map<string, Factory>) {
    match t
    case RegisterAuthorizer(id, f, w) =>
      && (w.Leaving? || w.Registered? ==> id in items)
      && (Won(t, id) ==> items[id] == f)
    case AuthorizerExists(_, e) => e == Answered(true) ==> t.id in items
    case GetAuthorizers(types, g) =>
      && (g.At? ==> g.i <= |types|)
      && (g.Nested? || g.Checked? ==> g.i < |types|)
      && (g.Checked? && g.found ==> types[g.i] in items)
      && (g.Returning? || g.Returned? ==> g.r != Vanished)
  }

  ghost predicate Inv(s: State) {
    && Sum(s.threads, Held) == s.readers
    && Sum(s.threads, WaitsInLine) == (if s.waiting then 1 else 0)
    && Sum(s.threads, Writes) == (if s.writing then 1 else 0)
    && !(s.waiting && s.writing)
    && (s.writing ==> s.readers == 0)
    && (forall k :: 0 <= k < |s.threads| ==> ThreadOk(s.threads[k], s.items))
    && (forall id :: Sum(s.threads, Wins(id)) == (if id in s.items then 1 else 0))
  }

  lemma InitInv(s: State)
    requires Init(s)
    ensures Inv(s)
  {
    SumZero(s.threads, Held);
    SumZero(s.threads, WaitsInLine);
    SumZero(s.threads, Writes);
    forall id
      ensures Sum(s.threads, Wins(id)) == 0
    {
      SumZero(s.threads, Wins(id));
    }
  }

  /** Bindings are only ever added. */
  ghost predicate Grows(before: map<string, Factory>, after: map<string, Factory>) {
    forall id :: id in before ==> id in after && after[id] == before[id]
  }

  lemma NextGrows(s: State, k: nat, s': State)
    requires Next(s, k, s')
    ensures Grows(s.items, s'.items)
  {
  }

  /** The effect of a step on the mutex, thread by thread. */
  lemma MoverCounts(s: State, k: nat, s': State)
    requires Next(s, k, s')
    ensures s'.readers - s.readers == Held(s'.threads[k]) - Held(s.threads[k])
    ensures WaitsInLine(s'.threads[k]) > WaitsInLine(s.threads[k]) ==> !s.waiting && !s.writing && s'.waiting
    ensures WaitsInLine(s'.threads[k]) < WaitsInLine(s.threads[k]) ==> !s'.waiting && s.readers == 0
    ensures WaitsInLine(s'.threads[k]) == WaitsInLine(s.threads[k]) ==> s'.waiting == s.waiting
    ensures Writes(s'.threads[k]) > Writes(s.threads[k]) <==> WaitsInLine(s'.threads[k]) < WaitsInLine(s.threads[k])
    ensures Writes(s'.threads[k]) > Writes(s.threads[k]) ==> s'.writing
    ensures Writes(s'.threads[k]) < Writes(s.threads[k]) ==> !s'.writing
    ensures Writes(s'.threads[k]) == Writes(s.threads[k]) ==> s'.writing == s.writing
    ensures s'.readers > s.readers ==> MayRead(s)
    ensures s'.threads == s.threads[k := s'.threads[k]]
  {
  }

  lemma NextCounts(s: State, k: nat, s': State)
    requires Inv(s) && Next(s, k, s')
    ensures Sum(s'.threads, Held) == s'.readers
    ensures Sum(s'.threads, WaitsInLine) == (if s'.waiting then 1 else 0)
    ensures Sum(s'.threads, Writes) == (if s'.writing then 1 else 0)
    ensures !(s'.waiting && s'.writing)
    ensures s'.writing ==> s'.readers == 0
  {
    MoverCounts(s, k, s');
    var t' := s'.threads[k];
    SumUpdate(s.threads, k, t', Held);
    SumUpdate(s.threads, k, t', WaitsInLine);
    SumUpdate(s.threads, k, t', Writes);
    hide Moves, Sum, ThreadOk;
  }

  /** A registration takes effect at the step that adds its identifier. */
  lemma WonChanges(s: State, k: nat, s': State, id: string)
    requires Next(s, k, s')
    ensures s'.threads == s.threads[k := s'.threads[k]]
    ensures Won(s.threads[k], id) ==> Won(s'.threads[k], id)
    ensures Won(s'.threads[k], id) && !Won(s.threads[k], id) <==> id in s'.items && id !in s.items
    ensures id in s.items ==> id in s'.items
  {
  }

  lemma NextWins(s: State, k: nat, s': State, id: string)
    requires Next(s, k, s')
    requires Sum(s.threads, Wins(id)) == (if id in s.items then 1 else 0)
    ensures Sum(s'.threads, Wins(id)) == (if id in s'.items then 1 else 0)
  {
    var t, t' := s.threads[k], s'.threads[k];
    WonChanges(s, k, s', id);
    SumUpdate(s.threads, k, t', Wins(id));
  }

  lemma ThreadOkLater(t: Thread, before: map<string, Factory>, after: map<string, Factory>)
    requires ThreadOk(t, before) && Grows(before, after)
    ensures ThreadOk(t, after)
  {
  }

  /** The thread that moves keeps to its own bounds, and what it found is there. */
  lemma MoverOk(s: State, k: nat, s': State)
    requires Next(s, k, s') && ThreadOk(s.threads[k], s.items)
    ensures ThreadOk(s'.threads[k], s'.items)
  {
  }

  lemma NextThreads(s: State, k: nat, s': State)
    requires Inv(s) && Next(s, k, s')
    ensures forall j :: 0 <= j < |s'.threads| ==> ThreadOk(s'.threads[j], s'.items)
  {
    NextGrows(s, k, s');
    MoverOk(s, k, s');
    hide ThreadOk, Moves, Grows;
    forall j | 0 <= j < |s'.threads| && j != k
      ensures ThreadOk(s'.threads[j], s'.items)
    {
      assert s'.threads[j] == s.threads[j];
      ThreadOkLater(s.threads[j], s.items, s'.items);
    }
  }

  lemma NextInv(s: State, k: nat, s': State)
    requires Inv(s) && Next(s, k, s')
    ensures Inv(s')
  {
    NextCounts(s, k, s');
    NextThreads(s, k, s');
    forall id
      ensures Sum(s'.threads, Wins(id)) == (if id in s'.items then 1 else 0)
    {
      NextWins(s, k, s', id);
    }
  }

  lemma {:induction false} RunInv(states: seq<State>, who: seq<nat>, n: nat)
    requires IsRun(states, who) && Init(states[0]) && n < |states|
    ensures Inv(states[n])
  {
    if n == 0 {
      InitInv(states[0]);
    } else {
      RunInv(states, who, n - 1);
      NextInv(states[n - 1], who[n - 1], states[n]);
    }
  }

  // ---------------------------------------------------------------- safety in every interleaving

  /** A writer inside the lock excludes every reader and every other writer. */
  lemma MutualExclusion(states: seq<State>, who: seq<nat>, n: nat, j: nat, k: nat)
    requires IsRun(states, who) && Init(states[0]) && n < |states|
    requires j < |states[n].threads| && k < |states[n].threads| && j != k
    requires Writes(states[n].threads[j]) > 0
    ensures Held(states[n].threads[k]) == 0 && Writes(states[n].threads[k]) == 0
  {
    RunInv(states, who, n);
    var ts := states[n].threads;
    SumPair(ts, if j < k then j else k, if j < k then k else j, Writes);
    SumZero(ts, Held);
    SumZero(ts, Writes);
  }

  lemma {:induction false} RunGrows(states: seq<State>, who: seq<nat>, m: nat, n: nat)
    requires IsRun(states, who) && m <= n < |states|
    ensures Grows(states[m].items, states[n].items)
    decreases n
  {
    if m < n {
      RunGrows(states, who, m, n - 1);
      NextGrows(states[n - 1], who[n - 1], states[n]);
    }
  }

  /** A binding, once made, never changes; it is the one of the only
      registration of that identifier that did not panic; and a lookup that
      found an identifier finds it ever after. */
  lemma FirstRegistrationWins(states: seq<State>, who: seq<nat>, m: nat, n: nat, j: nat, k: nat, id: string)
    requires IsRun(states, who) && Init(states[0]) && m <= n < |states|
    requires j < |states[n].threads| && k < |states[n].threads|
    ensures id in states[m].items ==> id in states[n].items && states[n].items[id] == states[m].items[id]
    ensures Won(states[n].threads[j], id) ==> id in states[n].items && states[n].items[id] == states[n].threads[j].factory
    ensures Won(states[n].threads[j], id) && Won(states[n].threads[k], id) ==> j == k
    ensures id in states[n].items ==> exists i :: 0 <= i < |states[n].threads| && Won(states[n].threads[i], id)
  {
    RunInv(states, who, n);
    RunGrows(states, who, m, n);
    var ts := states[n].threads;
    assert ThreadOk(ts[j], states[n].items);
    if j != k {
      SumPair(ts, if j < k then j else k, if j < k then k else j, Wins(id));
    }
    SumZero(ts, Wins(id));
  }

  /** The second check of `GetAuthorizers` never fails: the map only grows, so
      what its nested lookup found is still there when it fetches the factory. */
  lemma NothingVanishes(states: seq<State>, who: seq<nat>, n: nat, k: nat)
    requires IsRun(states, who) && Init(states[0]) && n < |states| && k < |states[n].threads|
    ensures var t := states[n].threads[k];
            && (t.GetAuthorizers? && t.g.Checked? && t.g.found ==> t.g.i < |t.types| && t.types[t.g.i] in states[n].items)
            && (t.GetAuthorizers? && (t.g.Returning? || t.g.Returned?) ==> t.g.r != Vanished)
  {
    RunInv(states, who, n);
    assert ThreadOk(states[n].threads[k], states[n].items);
  }

  // ---------------------------------------------------------------- progress

  /** Witness of a step, for a thread that is not blocked. */
  lemma StepOf(s: State, k: nat)
    requires Inv(s) && k < |s.threads| && !Done(s.threads[k])
    requires Requests(s.threads[k]) ==> MayRead(s) || (WaitsInLine(s.threads[k]) == 1 && s.readers == 0)
    ensures CanStep(s, k)
  {
    var t := s.threads[k];
    assert ThreadOk(t, s.items);
    SumUpdate(s.threads, k, t, Held);
    SumUpdate(s.threads, k, t, WaitsInLine);
    var t', around :=
      match t {
        case RegisterAuthorizer(_, _, Idle) => t.(w := Waiting)
        case RegisterAuthorizer(_, _, Waiting) => t.(w := Entered)
        case RegisterAuthorizer(id, _, Entered) => t.(w := Leaving(id in s.items))
        case RegisterAuthorizer(_, _, Leaving(p)) => t.(w := Registered(p))
        case AuthorizerExists(_, Asking) => t.(e := Reading)
        case AuthorizerExists(id, Reading) => t.(e := Answered(id in s.items))
        case GetAuthorizers(_, Starting) => t.(g := At(0))
        case GetAuthorizers(types, At(i)) => if i < |types| then t.(g := Nested(i)) else t.(g := Returning(AllBuilt))
        case GetAuthorizers(types, Nested(i)) => t.(g := Checked(i, types[i] in s.items))
        case GetAuthorizers(_, Checked(i, found)) => if found then t.(g := At(i + 1)) else t.(g := Returning(UnknownType))
        case GetAuthorizers(_, Returning(r)) => t.(g := Returned(r))
        case _ => t
      },
      match t {
        case RegisterAuthorizer(_, _, Idle) => s.(waiting := true)
        case RegisterAuthorizer(_, _, Waiting) => s.(waiting := false, writing := true)
        case RegisterAuthorizer(id, f, Entered) => if id in s.items then s else s.(items := s.items[id := f])
        case RegisterAuthorizer(_, _, Leaving(p)) => s.(writing := false)
        case AuthorizerExists(_, Asking) => s.(readers := s.readers + 1)
        case AuthorizerExists(_, Reading) => s.(readers := s.readers - 1)
        case GetAuthorizers(_, Starting) => s.(readers := s.readers + 1)
        case GetAuthorizers(types, At(i)) => if i < |types| then s.(readers := s.readers + 1) else s
        case GetAuthorizers(_, Nested(i)) => s.(readers := s.readers - 1)
        case GetAuthorizers(_, Returning(r)) => s.(readers := s.readers - 1)
        case _ => s
      };
    assert Moves(s, t, t', around);
    var s' := around.(threads := s.threads[k := t']);
    assert s'.threads[k] == t';
    assert Next(s, k, s');
  }

  /** Some thread is unfinished and none can take a step. */
  ghost predicate Stuck(s: State) {
    && (exists k :: 0 <= k < |s.threads| && !Done(s.threads[k]))
    && forall k: nat :: !CanStep(s, k)
  }

  lemma CannotStep(s: State, k: nat)
    requires s.waiting && s.readers > 0
    requires k < |s.threads| ==> Done(s.threads[k]) || Requests(s.threads[k])
    ensures !CanStep(s, k)
  {
  }

  /** Exactly which states are stuck: a writer waits, some `GetAuthorizers`
      holding the read lock asks for it again, and everybody else is done or
      waits for the lock too. */
  lemma StuckExactly(s: State)
    requires Inv(s)
    ensures Stuck(s) <==>
            && s.waiting
            && (exists k :: 0 <= k < |s.threads| && AsksNested(s.threads[k]))
            && (forall k :: 0 <= k < |s.threads| ==> Done(s.threads[k]) || Requests(s.threads[k]))
  {
    if Stuck(s) {
      forall k | 0 <= k < |s.threads|
        ensures Done(s.threads[k]) || (Requests(s.threads[k]) && !MayRead(s))
        ensures WaitsInLine(s.threads[k]) == 1 ==> s.readers > 0
      {
        if !(Done(s.threads[k]) || (Requests(s.threads[k]) && !MayRead(s))) { StepOf(s, k); }
        if WaitsInLine(s.threads[k]) == 1 && s.readers == 0 { StepOf(s, k); }
      }
      SumZero(s.threads, Writes);
      SumZero(s.threads, WaitsInLine);
      SumZero(s.threads, Held);
      assert s.waiting && s.readers > 0;
      var k :| 0 <= k < |s.threads| && Held(s.threads[k]) > 0;
      assert AsksNested(s.threads[k]);
    }
    if s.waiting && (exists k :: 0 <= k < |s.threads| && AsksNested(s.threads[k]))
       && (forall k :: 0 <= k < |s.threads| ==> Done(s.threads[k]) || Requests(s.threads[k])) {
      SumZero(s.threads, Held);
      forall k: nat
        ensures !CanStep(s, k)
      {
        CannotStep(s, k);
      }
    }
  }

  lemma DoomedStep(s: State, k: nat, s': State, g: nat, w: nat)
    requires Inv(s) && Next(s, k, s')
    requires g < |s.threads| && AsksNested(s.threads[g])
    requires w < |s.threads| && WaitsInLine(s.threads[w]) == 1
    ensures k != g && k != w
    ensures Inv(s') && |s'.threads| == |s.threads|
    ensures s'.threads[g] == s.threads[g] && s'.threads[w] == s.threads[w]
  {
    SumUpdate(s.threads, g, s.threads[g], Held);
    SumUpdate(s.threads, w, s.threads[w], WaitsInLine);
    NextInv(s, k, s');
  }

  /** Once a writer waits while some thread asks for its nested read lock, both
      are stuck for good: neither ever moves again, whatever the others do. */
  lemma {:induction false} DoomedForever(states: seq<State>, who: seq<nat>, g: nat, w: nat)
    requires IsRun(states, who) && Inv(states[0])
    requires g < |states[0].threads| && AsksNested(states[0].threads[g])
    requires w < |states[0].threads| && WaitsInLine(states[0].threads[w]) == 1
    ensures g !in who && w !in who
    ensures forall n :: 0 <= n < |states| ==>
              && |states[n].threads| == |states[0].threads|
              && states[n].threads[g] == states[0].threads[g]
              && states[n].threads[w] == states[0].threads[w]
  {
    if |who| > 0 {
      DoomedStep(states[0], who[0], states[1], g, w);
      DoomedForever(states[1..], who[1..], g, w);
      assert who == [who[0]] + who[1..];
      assert forall n :: 1 <= n < |states| ==> states[n] == states[1..][n - 1];
    }
  }

  /** Some thread of the program reads a non-empty configuration. */
  predicate Reads(ts: seq<Thread>, g: nat) {
    g < |ts| && ts[g].GetAuthorizers? && ts[g].types != []
  }

  predicate Registers(ts: seq<Thread>, w: nat) {
    w < |ts| && ts[w].RegisterAuthorizer?
  }

  /** From any start, two steps of a reader and a writer stop everybody: the
      reader takes its lock, the writer waits for it, and all others still have
      to ask for a lock. */
  lemma DeadlockFrom(s: State, g: nat, w: nat) returns (states: seq<State>, who: seq<nat>)
    requires Init(s) && Reads(s.threads, g) && Registers(s.threads, w)
    ensures IsRun(states, who) && states[0] == s && Stuck(states[|who|])
  {
    var g0, w0 := s.threads[g], s.threads[w];
    var g1, w1 := g0.(g := At(0)), w0.(w := Waiting);
    var s1 := s.(threads := s.threads[g := g1], readers := 1);
    var s2 := s1.(threads := s1.threads[w := w1], waiting := true);
    assert Moves(s, g0, g1, s.(readers := 1));
    assert Next(s, g, s1);
    assert Moves(s1, w0, w1, s1.(waiting := true));
    assert Next(s1, w, s2);
    states, who := [s, s1, s2], [g, w];
    RunInv(states, who, 2);
    assert AsksNested(s2.threads[g]);
    StuckExactly(s2);
  }

  /** The smallest instance. */
  lemma DeadlockReachable(types: seq<string>, id: string, f: Factory) returns (states: seq<State>, who: seq<nat>)
    requires types != []
    ensures IsRun(states, who) && Init(states[0]) && Stuck(states[|who|])
    ensures states[0].threads == [GetAuthorizers(types, Starting), RegisterAuthorizer(id, f, Idle)]
  {
    var s := State([GetAuthorizers(types, Starting), RegisterAuthorizer(id, f, Idle)], map[], 0, false, false);
    states, who := DeadlockFrom(s, 0, 1);
  }

  /** What a thread is does not change while it runs. */
  lemma NextKind(s: State, k: nat, s': State, j: nat)
    requires Next(s, k, s')
    ensures |s'.threads| == |s.threads|
    ensures Reads(s'.threads, j) == Reads(s.threads, j) && Registers(s'.threads, j) == Registers(s.threads, j)
  {
  }

  lemma {:induction false} RunKind(states: seq<State>, who: seq<nat>, n: nat, j: nat)
    requires IsRun(states, who) && n < |states|
    ensures Reads(states[n].threads, j) == Reads(states[0].threads, j)
    ensures Registers(states[n].threads, j) == Registers(states[0].threads, j)
  {
    if n > 0 {
      RunKind(states, who, n - 1, j);
      NextKind(states[n - 1], who[n - 1], states[n], j);
    }
  }

  /** Some interleaving from `s` ends stuck. */
  ghost predicate CanDeadlock(s: State) {
    exists states, who :: IsRun(states, who) && states[0] == s && Stuck(states[|who|])
  }

  /** Exactly which programs can deadlock: those in which some thread reads a
      non-empty configuration and some thread registers an authorizer. */
  lemma DeadlockExactly(s: State)
    requires Init(s)
    ensures CanDeadlock(s) <==> (exists g :: Reads(s.threads, g)) && (exists w :: Registers(s.threads, w))
  {
    if CanDeadlock(s) {
      var states, who :| IsRun(states, who) && states[0] == s && Stuck(states[|who|]);
      var last := states[|who|];
      RunInv(states, who, |who|);
      StuckExactly(last);
      SumZero(last.threads, WaitsInLine);
      var g: nat :| g < |last.threads| && AsksNested(last.threads[g]);
      var w: nat :| w < |last.threads| && WaitsInLine(last.threads[w]) != 0;
      RunKind(states, who, |who|, g);
      RunKind(states, who, |who|, w);
      assert Reads(s.threads, g) && Registers(s.threads, w);
    }
    if g, w :| Reads(s.threads, g) && Registers(s.threads, w) {
      var states, who := DeadlockFrom(s, g, w);
    }
  }

  // ---------------------------------------------------------------- registrations first

  predicate Registering(t: Thread) { t.RegisterAuthorizer? && !Done(t) }

  ghost predicate RegistrationsDone(s: State) {
    forall k :: 0 <= k < |s.threads| ==> !Registering(s.threads[k])
  }

  lemma RegistrationsStayDone(s: State, k: nat, s': State)
    requires Next(s, k, s') && RegistrationsDone(s)
    ensures RegistrationsDone(s')
  {
  }

  /** Steps a thread still has to take, at most. */
  function Remaining(t: Thread): nat {
    match t
    case RegisterAuthorizer(_, _, w) =>
      (match w case Idle => 4 case Waiting => 3 case Entered => 2 case Leaving(_) => 1 case Registered(_) => 0)
    case AuthorizerExists(_, e) => if e.Asking? then 2 else if e.Reading? then 1 else 0
    case GetAuthorizers(types, g) =>
      var all := 3 * |types|;
      match g
      case Starting => all + 3
      case At(i) => if i <= |types| then all - 3 * i + 2 else 0
      case Nested(i) => if i < |types| then all - 3 * i + 1 else 0
      case Checked(i, _) => if i < |types| then all - 3 * i else 0
      case Returning(_) => 1
      case Returned(_) => 0
  }

  lemma NextDecreases(s: State, k: nat, s': State)
    requires Inv(s) && Next(s, k, s')
    ensures Sum(s'.threads, Remaining) < Sum(s.threads, Remaining)
  {
    assert ThreadOk(s.threads[k], s.items);
    SumUpdate(s.threads, k, s'.threads[k], Remaining);
  }

  /** No interleaving goes on for ever. */
  lemma {:induction false} RunsAreBounded(states: seq<State>, who: seq<nat>)
    requires IsRun(states, who) && Inv(states[0])
    ensures |who| + Sum(states[|who|].threads, Remaining) <= Sum(states[0].threads, Remaining)
  {
    if |who| > 0 {
      NextDecreases(states[0], who[0], states[1]);
      NextInv(states[0], who[0], states[1]);
      RunsAreBounded(states[1..], who[1..]);
    }
  }

  lemma {:induction false} RunAfterRegistrations(states: seq<State>, who: seq<nat>, m: nat, n: nat)
    requires IsRun(states, who) && m <= n < |states| && RegistrationsDone(states[m])
    ensures RegistrationsDone(states[n])
    decreases n
  {
    if m < n {
      RunAfterRegistrations(states, who, m, n - 1);
      RegistrationsStayDone(states[n - 1], who[n - 1], states[n]);
    }
  }

  /** When all registrations are over before the configuration is read, as the
      program's `init` functions arrange, no later state is stuck: an
      interleaving that cannot be continued has finished every thread, and one
      always gets there. */
  lemma InitThenServe(states: seq<State>, who: seq<nat>, m: nat)
    requires IsRun(states, who) && Init(states[0])
    requires m < |states| && RegistrationsDone(states[m])
    ensures !Stuck(states[|who|])
    ensures (forall k: nat :: !CanStep(states[|who|], k)) ==>
              forall k :: 0 <= k < |states[|who|].threads| ==> Done(states[|who|].threads[k])
    ensures |who| <= Sum(states[0].threads, Remaining)
  {
    var last := states[|who|];
    RunInv(states, who, |who|);
    RunAfterRegistrations(states, who, m, |who|);
    InitInv(states[0]);
    RunsAreBounded(states, who);
    StuckExactly(last);
    if Stuck(last) {
      SumZero(last.threads, WaitsInLine);
    }
  }

  // ---------------------------------------------------------------- the answers

  /** The thread is looking this identifier up. */
  predicate LooksUp(t: Thread, id: string) {
    match t
    case AuthorizerExists(id', Reading) => id' == id
    case GetAuthorizers(types, Nested(i)) => i < |types| && types[i] == id
    case _ => false
  }

  /** At some moment from `m` to `n` thread `k` looked up an identifier that was
      not bound. */
  ghost predicate Missed(states: seq<State>, m: nat, n: nat, k: nat, id: string)
    requires n <= |states|
  {
    exists p :: m <= p < n && k < |states[p].threads| && LooksUp(states[p].threads[k], id) && id !in states[p].items
  }

  /** Some type is found, and at the next moment its factory has failed. */
  ghost predicate FactoryRejects(states: seq<State>, m: nat, n: nat, k: nat)
    requires n < |states|
  {
    exists p :: && m <= p < n && k < |states[p].threads| && k < |states[p + 1].threads|
                && states[p].threads[k].GetAuthorizers? && states[p].threads[k].g.Checked? && states[p].threads[k].g.found
                && states[p + 1].threads[k] == states[p].threads[k].(g := Returning(FactoryFailed))
  }

  predicate AllBound(types: seq<string>, n: int, items: map<string, Factory>) {
    n <= |types| && forall i :: 0 <= i < n ==> types[i] in items
  }

  /** What a thread that started at moment `m` has been told by moment `n`. */
  ghost predicate Told(states: seq<State>, m: nat, n: nat, k: nat)
    requires n < |states| && k < |states[n].threads|
  {
    var items := states[n].items;
    match states[n].threads[k]
    case RegisterAuthorizer(_, _, _) => true
    case AuthorizerExists(id, e) => e.Answered? ==> if e.found then id in items else Missed(states, m, n, k, id)
    case GetAuthorizers(types, g) =>
      match g
      case Starting => true
      case At(i) => AllBound(types, i, items)
      case Nested(i) => i < |types| && AllBound(types, i, items)
      case Checked(i, found) =>
        && i < |types| && AllBound(types, i, items)
        && if found then types[i] in items else Missed(states, m, n, k, types[i])
      case Returning(r) => Reported(states, m, n, k, types, r)
      case Returned(r) => Reported(states, m, n, k, types, r)
  }

  ghost predicate Reported(states: seq<State>, m: nat, n: nat, k: nat, types: seq<string>, r: Built)
    requires n < |states|
  {
    match r
    case AllBuilt => AllBound(types, |types|, states[n].items)
    case UnknownType => exists i :: 0 <= i < |types| && Missed(states, m, n, k, types[i])
    case FactoryFailed => FactoryRejects(states, m, n, k)
    case Vanished => false
  }

  lemma MissedLater(states: seq<State>, m: nat, n: nat, n': nat, k: nat)
    requires n <= n' < |states|
    ensures forall id :: Missed(states, m, n, k, id) ==> Missed(states, m, n', k, id)
    ensures FactoryRejects(states, m, n, k) ==> FactoryRejects(states, m, n', k)
  {
  }

  lemma ToldLater(states: seq<State>, m: nat, n: nat, k: nat)
    requires n + 1 < |states| && k < |states[n].threads| && k < |states[n + 1].threads|
    requires states[n + 1].threads[k] == states[n].threads[k] && Grows(states[n].items, states[n + 1].items)
    requires Told(states, m, n, k)
    ensures Told(states, m, n + 1, k)
  {
    hide Missed, FactoryRejects;
    MissedLater(states, m, n, n + 1, k);
  }

  /** The three steps that learn something from the map. */
  lemma ToldByStep(states: seq<State>, m: nat, n: nat, k: nat)
    requires n + 1 < |states| && m <= n && Next(states[n], k, states[n + 1])
    requires ThreadOk(states[n].threads[k], states[n].items) && Told(states, m, n, k)
    ensures Told(states, m, n + 1, k)
  {
    var s, s', t := states[n], states[n + 1], states[n].threads[k];
    NextGrows(s, k, s');
    MissedLater(states, m, n, n + 1, k);
    assert forall id :: LooksUp(t, id) && id !in s.items ==> Missed(states, m, n + 1, k, id);
    if t.GetAuthorizers? && t.g.Checked? && t.g.found && s'.threads[k] == t.(g := Returning(FactoryFailed)) {
      assert FactoryRejects(states, m, n + 1, k);
    }
    hide Missed, FactoryRejects;
  }

  lemma {:induction false} ToldInRun(states: seq<State>, who: seq<nat>, m: nat, n: nat, k: nat)
    requires IsRun(states, who) && Init(states[0]) && m <= n < |states|
    requires k < |states[m].threads| && Start(states[m].threads[k])
    ensures k < |states[n].threads| && Told(states, m, n, k)
    decreases n
  {
    hide Moves, Told, ThreadOk, Init;
    if m == n {
      ToldAtStart(states, m, k);
    } else {
      ToldInRun(states, who, m, n - 1, k);
      RunInv(states, who, n - 1);
      assert Next(states[n - 1], who[n - 1], states[n]);
      NextGrows(states[n - 1], who[n - 1], states[n]);
      if who[n - 1] == k {
        ToldByStep(states, m, n - 1, k);
      } else {
        ToldLater(states, m, n - 1, k);
      }
    }
  }

  lemma ToldAtStart(states: seq<State>, m: nat, k: nat)
    requires m < |states| && k < |states[m].threads| && Start(states[m].threads[k])
    ensures Told(states, m, m, k)
  {
  }

  /** What lookups and `GetAuthorizers` answer in every interleaving: an
      identifier reported as there is bound; one reported as missing was not
      bound at a moment of that very call at which it was looked up; success
      means that all types are bound; and a factory failure is that of a factory
      that was found. */
  lemma AnswersAreTrue(states: seq<State>, who: seq<nat>, m: nat, n: nat, k: nat)
    requires IsRun(states, who) && Init(states[0]) && m <= n < |states|
    requires k < |states[m].threads| && Start(states[m].threads[k])
    ensures k < |states[n].threads|
    ensures var t, items := states[n].threads[k], states[n].items;
            && (t.AuthorizerExists? && t.e == Answered(true) ==> t.id in items)
            && (t.AuthorizerExists? && t.e == Answered(false) ==> Missed(states, m, n, k, t.id))
            && (t.GetAuthorizers? && t.g == Returned(AllBuilt) ==> forall id :: id in t.types ==> id in items)
            && (t.GetAuthorizers? && t.g == Returned(UnknownType) ==>
                  exists id :: id in t.types && Missed(states, m, n, k, id))
            && (t.GetAuthorizers? && t.g == Returned(FactoryFailed) ==> FactoryRejects(states, m, n, k))
            && (t.GetAuthorizers? && t.g.Returned? ==> t.g.r != Vanished)
  {
    hide Missed, FactoryRejects, IsRun, Init;
    ToldInRun(states, who, m, n, k);
  }

  lemma {:induction false} FrozenItems(states: seq<State>, who: seq<nat>, m: nat, n: nat)
    requires IsRun(states, who) && m <= n < |states| && RegistrationsDone(states[m])
    ensures states[n].items == states[m].items
    decreases n
  {
    hide Next, RegistrationsDone;
    if m < n {
      FrozenItems(states, who, m, n - 1);
      RunAfterRegistrations(states, who, m, n - 1);
      StepFreezes(states[n - 1], who[n - 1], states[n]);
    }
  }

  lemma StepFreezes(s: State, k: nat, s': State)
    requires Next(s, k, s') && RegistrationsDone(s)
    ensures s'.items == s.items
  {
    assert !Registering(s.threads[k]);
  }

  /** When registrations are over before a call starts, its answer is that of
      the map they left: a lookup says exactly whether the identifier is bound,
      and `GetAuthorizers` refuses a type as unknown exactly when one is not. */
  lemma AnswersAreExact(states: seq<State>, who: seq<nat>, m: nat, n: nat, k: nat)
    requires IsRun(states, who) && Init(states[0]) && m <= n < |states| && RegistrationsDone(states[m])
    requires k < |states[m].threads| && Start(states[m].threads[k])
    ensures k < |states[n].threads|
    ensures var t, items := states[n].threads[k], states[m].items;
            && (t.AuthorizerExists? && t.e.Answered? ==> (t.e.found <==> t.id in items))
            && (t.GetAuthorizers? && t.g == Returned(AllBuilt) ==> forall id :: id in t.types ==> id in items)
            && (t.GetAuthorizers? && t.g == Returned(UnknownType) ==> exists id :: id in t.types && id !in items)
            && (t.GetAuthorizers? && t.g.Returned? && (forall id :: id in t.types ==> id in items) ==>
                  t.g.r == AllBuilt || (t.g.r == FactoryFailed && FactoryRejects(states, m, n, k)))
  {
    AnswersAreTrue(states, who, m, n, k);
    forall p: nat | m <= p <= n
      ensures states[p].items == states[m].items
    {
      FrozenItems(states, who, m, p);
    }
    hide IsRun, Init;
  }

  /** A factory that is found may accept or reject its configuration. */
  lemma FactoriesDecide(s: State, k: nat)
    requires Inv(s) && k < |s.threads|
    requires s.threads[k].GetAuthorizers? && s.threads[k].g.Checked? && s.threads[k].g.found
    ensures var t := s.threads[k];
            && Next(s, k, s.(threads := s.threads[k := t.(g := At(t.g.i + 1))]))
            && Next(s, k, s.(threads := s.threads[k := t.(g := Returning(FactoryFailed))]))
  {
    var t := s.threads[k];
    assert ThreadOk(t, s.items);
    assert Moves(s, t, t.(g := At(t.g.i + 1)), s);
    assert Moves(s, t, t.(g := Returning(FactoryFailed)), s);
  }
}
