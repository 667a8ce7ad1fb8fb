/**
 The named lock of utils/maplock.go as a state machine over its atomic steps: any number of threads, interleaved in any
 way. The main mutex guards the table of locks; a named mutex is acquired outside it.
 */
module Maplock {
  import opened Basics

  type Tid = nat
  type Name = string
  type Id = nat

  /**
   Where a thread stands. In Lock it finds or creates the entry, counts itself as a waiter, leaves the main mutex,
   acquires the named mutex and uncounts itself; in Unlock it looks the entry up, deletes it if nobody is counted, and
   releases the named mutex, all within the main mutex.
   */
  datatype Pc =
    | Idle
    | Looking(name: Name)
    | Found(name: Name, id: Id)
    | Counted(name: Name, id: Id)
    | Waiting(name: Name, id: Id)
    | Acquired(name: Name, id: Id)
    | Holding(name: Name, id: Id)
    | Unlocking(name: Name, id: Id)
    | Checking(name: Name, id: Id, entry: Id)
    | Releasing(name: Name, id: Id, entry: Id)
    | Leaving
    | NoSuchLock(name: Name, id: Id)

  /** A lockCtr: the owner of its mutex and its `int32` count of waiters. */
  datatype Ctr = Ctr(owner: Option<Tid>, waiters: int)

  /** `ctrs` is the heap of lockCtr objects, numbered below `nextId`; `locks` is the table of the Maplock. */
  datatype State = State(main: Option<Tid>, locks: map<Name, Id>, ctrs: map<Id, Ctr>, nextId: nat, pcs: map<Tid, Pc>)

  datatype Action = StartLock(name: Name) | StartUnlock | Proceed

  const TWO_32 := 0x1_0000_0000
  const TWO_31 := 0x8000_0000

  /** The value of an `int32` that was added up to `n`. */
  function Int32(n: int): int { (n + TWO_31) % TWO_32 - TWO_31 }

  predicate InMain(pc: Pc) {
    pc.Looking? || pc.Found? || pc.Counted? || pc.Unlocking? || pc.Checking? || pc.Releasing? || pc.Leaving? || pc.NoSuchLock?
  }

  /** The thread owns the named mutex `id`. */
  predicate Owns(pc: Pc) {
    pc.Acquired? || pc.Holding? || pc.Unlocking? || pc.Checking? || pc.Releasing? || pc.NoSuchLock?
  }

  /** Between inc and dec. */
  predicate IsCounted(pc: Pc) { pc.Counted? || pc.Waiting? || pc.Acquired? }

  predicate Enabled(s: State, t: Tid, a: Action) {
    t in s.pcs &&
    match s.pcs[t]
    case Idle => a.StartLock? && s.main == None
    case Holding(_, _) => a.StartUnlock? && s.main == None
    case Waiting(_, id) => a.Proceed? && id in s.ctrs && s.ctrs[id].owner == None
    case Found(_, id) => a.Proceed? && id in s.ctrs
    case Acquired(_, id) => a.Proceed? && id in s.ctrs
    case Checking(_, _, entry) => a.Proceed? && entry in s.ctrs
    case Releasing(_, _, entry) => a.Proceed? && entry in s.ctrs
    case _ => a.Proceed?
  }

  function Step(s: State, t: Tid, a: Action): State
    requires Enabled(s, t, a)
  {
    match s.pcs[t]
    case Idle => s.(main := Some(t), pcs := s.pcs[t := Looking(a.name)])
    case Looking(name) =>
      if name in s.locks then s.(pcs := s.pcs[t := Found(name, s.locks[name])])
      else s.(locks := s.locks[name := s.nextId], ctrs := s.ctrs[s.nextId := Ctr(None, 0)], nextId := s.nextId + 1,
              pcs := s.pcs[t := Found(name, s.nextId)])
    case Found(name, id) =>
      s.(ctrs := s.ctrs[id := s.ctrs[id].(waiters := Int32(s.ctrs[id].waiters + 1))], pcs := s.pcs[t := Counted(name, id)])
    case Counted(name, id) => s.(main := None, pcs := s.pcs[t := Waiting(name, id)])
    case Waiting(name, id) =>
      s.(ctrs := s.ctrs[id := s.ctrs[id].(owner := Some(t))], pcs := s.pcs[t := Acquired(name, id)])
    case Acquired(name, id) =>
      s.(ctrs := s.ctrs[id := s.ctrs[id].(waiters := Int32(s.ctrs[id].waiters - 1))], pcs := s.pcs[t := Holding(name, id)])
    case Holding(name, id) => s.(main := Some(t), pcs := s.pcs[t := Unlocking(name, id)])
    case Unlocking(name, id) =>
      s.(pcs := s.pcs[t := if name in s.locks then Checking(name, id, s.locks[name]) else NoSuchLock(name, id)])
    case Checking(name, id, entry) =>
      s.(locks := if s.ctrs[entry].waiters == 0 then s.locks - {name} else s.locks,
         pcs := s.pcs[t := Releasing(name, id, entry)])
    case Releasing(_, _, entry) =>
      s.(ctrs := s.ctrs[entry := s.ctrs[entry].(owner := None)], pcs := s.pcs[t := Leaving])
    case Leaving => s.(main := None, pcs := s.pcs[t := Idle])
    case NoSuchLock(name, id) => s.(main := None, pcs := s.pcs[t := Holding(name, id)])
  }

  // ---------------------------------------------------------------- invariant

  ghost function CountedOn(s: State, id: Id): set<Tid> {
    set t | t in s.pcs && IsCounted(s.pcs[t]) && s.pcs[t].id == id
  }

  /** A thread that uses an entry uses the one in the table; an entry about to be released may already be gone. */
  ghost predicate UsesTable(s: State, t: Tid)
    requires t in s.pcs
  {
    match s.pcs[t]
    case Found(name, id) => name in s.locks && s.locks[name] == id
    case Counted(name, id) => name in s.locks && s.locks[name] == id
    case Waiting(name, id) => name in s.locks && s.locks[name] == id
    case Acquired(name, id) => name in s.locks && s.locks[name] == id
    case Holding(name, id) => name in s.locks && s.locks[name] == id
    case Unlocking(name, id) => name in s.locks && s.locks[name] == id
    case Checking(name, id, entry) => name in s.locks && s.locks[name] == id == entry
    case Releasing(name, id, entry) =>
      && entry == id && id in s.ctrs
      && (name in s.locks ==> s.locks[name] == id && WaitedFor(s, name, id))
      && (forall n :: n in s.locks && s.locks[n] == id ==> n == name)
    case NoSuchLock(_, _) => false
    case _ => true
  }

  ghost predicate WaitedFor(s: State, name: Name, id: Id) {
    exists t :: t in s.pcs && s.pcs[t] == Waiting(name, id)
  }

  ghost predicate MainOk(s: State) {
    && (forall t :: t in s.pcs ==> (InMain(s.pcs[t]) <==> s.main == Some(t)))
    && (s.main.Some? ==> s.main.value in s.pcs)
  }

  ghost predicate HeapOk(s: State) {
    && (forall id :: id in s.ctrs ==> id < s.nextId)
    && (forall n :: n in s.locks ==> s.locks[n] in s.ctrs)
    && (forall m, n :: m in s.locks && n in s.locks && s.locks[m] == s.locks[n] ==> m == n)
  }

  ghost predicate TableOk(s: State) {
    forall t :: t in s.pcs ==> UsesTable(s, t)
  }

  /** A named mutex and its owner know of each other. */
  ghost predicate OwnersOk(s: State) {
    && (forall t :: t in s.pcs && Owns(s.pcs[t]) ==> s.pcs[t].id in s.ctrs && s.ctrs[s.pcs[t].id].owner == Some(t))
    && (forall id :: id in s.ctrs && s.ctrs[id].owner.Some? ==>
          s.ctrs[id].owner.value in s.pcs && Owns(s.pcs[s.ctrs[id].owner.value]) && s.pcs[s.ctrs[id].owner.value].id == id)
  }

  /** The count of waiters is the number of threads between inc and dec. */
  ghost predicate CountsOk(s: State) {
    forall id :: id in s.ctrs ==> s.ctrs[id].waiters == Int32(|CountedOn(s, id)|)
  }

  ghost predicate EntriesUsed(s: State) {
    forall n :: n in s.locks ==> Used(s, n)
  }

  ghost predicate Inv(s: State) {
    |s.pcs| < TWO_32 && MainOk(s) && HeapOk(s) && TableOk(s) && OwnersOk(s) && CountsOk(s) && EntriesUsed(s)
  }

  /** Some thread waits for the name, holds it, or is about to be counted for it. */
  ghost predicate Used(s: State, n: Name) {
    exists t :: t in s.pcs && Uses(s.pcs[t], n)
  }

  predicate Uses(pc: Pc, n: Name) {
    (pc.Found? || pc.Counted? || pc.Waiting? || Owns(pc)) && pc.name == n
  }

  // ---------------------------------------------------------------- every step keeps the invariant

  lemma StepMain(s: State, t: Tid, a: Action)
    requires MainOk(s) && Enabled(s, t, a)
    ensures MainOk(Step(s, t, a)) && |Step(s, t, a).pcs| == |s.pcs|
  {
    var s' := Step(s, t, a);
    assert s'.pcs.Keys == s.pcs.Keys;
    assert |s'.pcs| == |s'.pcs.Keys| == |s.pcs.Keys|;
  }

  lemma StepHeap(s: State, t: Tid, a: Action)
    requires HeapOk(s) && Enabled(s, t, a)
    ensures HeapOk(Step(s, t, a))
  {
  }

  lemma StepOwners(s: State, t: Tid, a: Action)
    requires HeapOk(s) && OwnersOk(s) && Enabled(s, t, a) && UsesTable(s, t)
    ensures OwnersOk(Step(s, t, a))
  {
    var s' := Step(s, t, a);
    forall u | u in s'.pcs && Owns(s'.pcs[u])
      ensures s'.pcs[u].id in s'.ctrs && s'.ctrs[s'.pcs[u].id].owner == Some(u)
    {
      assert u != t ==> s'.pcs[u] == s.pcs[u];
    }
    forall id | id in s'.ctrs && s'.ctrs[id].owner.Some?
      ensures s'.ctrs[id].owner.value in s'.pcs && Owns(s'.pcs[s'.ctrs[id].owner.value])
        && s'.pcs[s'.ctrs[id].owner.value].id == id
    {
    }
  }

  /** While a thread is in the main mutex, a count of zero means that no thread uses its entry but itself. */
  lemma ZeroMeansAlone(s: State, t: Tid)
    requires Inv(s) && t in s.pcs && s.pcs[t].Checking? && s.ctrs[s.pcs[t].entry].waiters == 0
    ensures forall u :: u in s.pcs && u != t ==> !Uses(s.pcs[u], s.pcs[t].name)
  {
    var name, id := s.pcs[t].name, s.pcs[t].id;
    assert UsesTable(s, t);
    var c := CountedOn(s, id);
    assert c <= s.pcs.Keys;
    SubsetSize(c, s.pcs.Keys);
    assert |c| == 0;
    forall u | u in s.pcs && u != t ensures !Uses(s.pcs[u], name) {
      assert UsesTable(s, u);
      assert u !in c;
    }
  }

  lemma {:induction false} SubsetSize<T>(a: set<T>, b: set<T>)
    requires a <= b
    ensures |a| <= |b|
  {
    if a != {} {
      var x :| x in a;
      SubsetSize(a - {x}, b - {x});
    }
  }

  lemma StepTable(s: State, t: Tid, a: Action)
    requires Inv(s) && Enabled(s, t, a)
    ensures TableOk(Step(s, t, a))
  {
    if s.pcs[t].Checking? { CheckTable(s, t, a); } else { QuietTable(s, t, a); }
  }

  lemma QuietTable(s: State, t: Tid, a: Action)
    requires MainOk(s) && HeapOk(s) && TableOk(s) && OwnersOk(s) && Enabled(s, t, a) && !s.pcs[t].Checking?
    ensures TableOk(Step(s, t, a))
  {
    var s' := Step(s, t, a);
    assert UsesTable(s, t);
    forall u | u in s'.pcs ensures UsesTable(s', u) {
      assert UsesTable(s, u);
      if s'.pcs[u].Releasing? && s.pcs[u].name in s.locks { WaiterStays(s, u, t, a); }
    }
  }

  /** Nobody can overtake the owner of a named mutex: whoever waits for it still waits after another thread's step. */
  lemma WaiterStays(s: State, u: Tid, t: Tid, a: Action)
    requires OwnersOk(s) && Enabled(s, t, a) && u in s.pcs && s.pcs[u].Releasing? && s.pcs[u].name in s.locks && u != t
    requires WaitedFor(s, s.pcs[u].name, s.pcs[u].id)
    ensures WaitedFor(Step(s, t, a), s.pcs[u].name, s.pcs[u].id)
  {
    var w :| w in s.pcs && s.pcs[w] == Waiting(s.pcs[u].name, s.pcs[u].id);
    assert s.ctrs[s.pcs[u].id].owner == Some(u);
    assert w != t;
    assert Step(s, t, a).pcs[w] == s.pcs[w];
  }

  lemma CheckTable(s: State, t: Tid, a: Action)
    requires Inv(s) && Enabled(s, t, a) && s.pcs[t].Checking?
    ensures TableOk(Step(s, t, a))
  {
    var s' := Step(s, t, a);
    var name := s.pcs[t].name;
    assert UsesTable(s, t);
    if s.ctrs[s.pcs[t].entry].waiters == 0 {
      ZeroMeansAlone(s, t);
    } else {
      StillWaited(s, t);
      var w :| w in s.pcs && s.pcs[w] == Waiting(name, s.pcs[t].id);
      assert s'.pcs[w] == s.pcs[w];
    }
    forall u | u in s'.pcs ensures UsesTable(s', u) { assert UsesTable(s, u); }
  }

  /** A count other than zero means that somebody waits behind the thread that is about to release. */
  lemma StillWaited(s: State, t: Tid)
    requires Inv(s) && t in s.pcs && s.pcs[t].Checking? && s.ctrs[s.pcs[t].entry].waiters != 0
    ensures WaitedFor(s, s.pcs[t].name, s.pcs[t].id)
  {
    var name, id := s.pcs[t].name, s.pcs[t].id;
    assert UsesTable(s, t);
    assert CountedOn(s, id) != {};
    var w :| w in CountedOn(s, id);
    assert UsesTable(s, w);
    assert s.pcs[w] == Waiting(name, id);
  }

  lemma Int32Adds(n: int, d: int)
    ensures Int32(Int32(n) + d) == Int32(n + d)
  {
    var k := (n + TWO_31) / TWO_32;
    assert Int32(n) == n - k * TWO_32;
    assert (n + d + TWO_31 - k * TWO_32) % TWO_32 == (n + d + TWO_31) % TWO_32;
  }

  lemma CountedStep(s: State, t: Tid, a: Action, id: Id)
    requires Enabled(s, t, a)
    ensures var c, c' := CountedOn(s, id), CountedOn(Step(s, t, a), id);
      if s.pcs[t].Found? && s.pcs[t].id == id then c' == c + {t} && t !in c
      else if s.pcs[t].Acquired? && s.pcs[t].id == id then c' == c - {t} && t in c
      else c' == c
  {
    var s' := Step(s, t, a);
    assert forall u :: u in s.pcs && u != t ==> s'.pcs[u] == s.pcs[u];
  }

  lemma WaitersStep(s: State, t: Tid, a: Action, id: Id)
    requires Enabled(s, t, a) && id in Step(s, t, a).ctrs && (id !in s.ctrs ==> id == s.nextId && s.pcs[t].Looking?)
    requires id in s.ctrs ==> id < s.nextId
    ensures var w := Step(s, t, a).ctrs[id].waiters;
      if id !in s.ctrs then w == 0
      else if s.pcs[t].Found? && s.pcs[t].id == id then w == Int32(s.ctrs[id].waiters + 1)
      else if s.pcs[t].Acquired? && s.pcs[t].id == id then w == Int32(s.ctrs[id].waiters - 1)
      else w == s.ctrs[id].waiters
  {
  }

  lemma StepCount(s: State, t: Tid, a: Action, id: Id)
    requires Enabled(s, t, a) && id in Step(s, t, a).ctrs
    requires if id in s.ctrs then id < s.nextId && s.ctrs[id].waiters == Int32(|CountedOn(s, id)|)
             else CountedOn(s, id) == {} && id == s.nextId && s.pcs[t].Looking?
    ensures Step(s, t, a).ctrs[id].waiters == Int32(|CountedOn(Step(s, t, a), id)|)
  {
    var c := CountedOn(s, id);
    CountedStep(s, t, a, id);
    WaitersStep(s, t, a, id);
    Int32Adds(|c|, 1);
    Int32Adds(|c|, -1);
    assert Int32(0) == 0;
    if s.pcs[t].Found? && s.pcs[t].id == id { assert |c + {t}| == |c| + 1; }
    if s.pcs[t].Acquired? && s.pcs[t].id == id { assert |c - {t}| == |c| - 1; }
  }

  lemma StepCounts(s: State, t: Tid, a: Action)
    requires HeapOk(s) && TableOk(s) && CountsOk(s) && Enabled(s, t, a)
    ensures CountsOk(Step(s, t, a))
  {
    var s' := Step(s, t, a);
    forall id | id in s'.ctrs ensures s'.ctrs[id].waiters == Int32(|CountedOn(s', id)|) {
      if id !in s.ctrs { NoneCounted(s, id); }
      StepCount(s, t, a, id);
    }
  }

  lemma NoneCounted(s: State, id: Id)
    requires HeapOk(s) && TableOk(s) && id !in s.ctrs
    ensures CountedOn(s, id) == {}
  {
    forall u | u in s.pcs ensures u !in CountedOn(s, id) { assert UsesTable(s, u); }
  }

  lemma StepEntries(s: State, t: Tid, a: Action)
    requires Inv(s) && Enabled(s, t, a)
    ensures EntriesUsed(Step(s, t, a))
  {
    var s' := Step(s, t, a);
    assert UsesTable(s, t);
    forall n | n in s'.locks ensures Used(s', n) {
      if s.pcs[t].Looking? && s.pcs[t].name == n {
        assert Uses(s'.pcs[t], n);
      } else {
        assert Used(s, n);
        var u :| u in s.pcs && Uses(s.pcs[u], n);
        if u == t && s.pcs[t].Releasing? {
          var w :| w in s.pcs && s.pcs[w] == Waiting(n, s.pcs[t].id);
          assert Uses(s'.pcs[w], n);
        } else {
          assert Uses(s'.pcs[u], n);
        }
      }
    }
  }

  lemma StepKeepsInv(s: State, t: Tid, a: Action)
    requires Inv(s) && Enabled(s, t, a)
    ensures Inv(Step(s, t, a))
  {
    StepMain(s, t, a);
    StepHeap(s, t, a);
    assert UsesTable(s, t);
    StepOwners(s, t, a);
    StepTable(s, t, a);
    StepCounts(s, t, a);
    StepEntries(s, t, a);
  }

  // ---------------------------------------------------------------- whole runs

  /** A new Maplock with idle threads. */
  ghost predicate Init(s: State) {
    && s.main == None && s.locks == map[] && s.ctrs == map[] && s.nextId == 0
    && |s.pcs| < TWO_32 && forall t :: t in s.pcs ==> s.pcs[t].Idle?
  }

  ghost predicate IsRun(states: seq<State>, moves: seq<(Tid, Action)>) {
    && |states| == |moves| + 1 && Init(states[0])
    && forall i :: 0 <= i < |moves| ==>
         Enabled(states[i], moves[i].0, moves[i].1) && states[i + 1] == Step(states[i], moves[i].0, moves[i].1)
  }

  lemma {:induction false} RunKeepsInv(states: seq<State>, moves: seq<(Tid, Action)>, i: nat)
    requires IsRun(states, moves) && i < |states|
    ensures Inv(states[i])
  {
    if i == 0 {
      assert forall t :: t in states[0].pcs ==> UsesTable(states[0], t);
    } else {
      RunKeepsInv(states, moves, i - 1);
      StepKeepsInv(states[i - 1], moves[i - 1].0, moves[i - 1].1);
    }
  }

  /** In every run, at most one thread owns a given name at a time, even across deletion and re-creation of its entry. */
  lemma MutualExclusion(states: seq<State>, moves: seq<(Tid, Action)>, i: nat, t: Tid, u: Tid)
    requires IsRun(states, moves) && i < |states|
    requires var s := states[i]; t in s.pcs && u in s.pcs && Owns(s.pcs[t]) && Owns(s.pcs[u]) && s.pcs[t].name == s.pcs[u].name
    ensures t == u
  {
    RunKeepsInv(states, moves, i);
    var s := states[i];
    assert UsesTable(s, t) && UsesTable(s, u);
  }

  /** The name that a thread last called Lock with. */
  function LastAsked(moves: seq<(Tid, Action)>, t: Tid): Option<Name> {
    if moves == [] then None
    else
      var (u, a) := moves[|moves| - 1];
      if u == t && a.StartLock? then Some(a.name) else LastAsked(moves[..|moves| - 1], t)
  }

  predicate HasName(pc: Pc) { !pc.Idle? && !pc.Leaving? }

  /** In every run, the name that a thread waits for, owns or releases is the one it last called Lock with. */
  lemma {:induction false} OwnsWhatItAsked(states: seq<State>, moves: seq<(Tid, Action)>, i: nat, t: Tid)
    requires IsRun(states, moves) && i < |states| && t in states[i].pcs && HasName(states[i].pcs[t])
    ensures LastAsked(moves[..i], t) == Some(states[i].pcs[t].name)
  {
    if i > 0 {
      var (u, a) := moves[i - 1];
      assert moves[..i][..i - 1] == moves[..i - 1] && moves[..i][i - 1] == (u, a);
      assert states[i - 1 + 1] == Step(states[i - 1], u, a);
      if HasName(states[i - 1].pcs[t]) { OwnsWhatItAsked(states, moves, i - 1, t); }
    }
  }

  /**
   In every run, an entry exists exactly while some thread uses its name (apart from the instant between deletion and
   release), and Unlock by the owner never misses its entry.
   */
  lemma TableIsExact(states: seq<State>, moves: seq<(Tid, Action)>, i: nat, n: Name, t: Tid)
    requires IsRun(states, moves) && i < |states| && t in states[i].pcs
    ensures var s := states[i];
      && (n in s.locks ==> Used(s, n))
      && (Uses(s.pcs[t], n) && !s.pcs[t].Releasing? ==> n in s.locks)
      && !s.pcs[t].NoSuchLock?
  {
    RunKeepsInv(states, moves, i);
    assert UsesTable(states[i], t);
  }

  /** In every run, the count of waiters of an entry is the number of threads between inc and dec. */
  lemma CountIsExact(states: seq<State>, moves: seq<(Tid, Action)>, i: nat, n: Name)
    requires IsRun(states, moves) && i < |states| && n in states[i].locks
    ensures var s := states[i];
      && s.locks[n] in s.ctrs
      && (|CountedOn(s, s.locks[n])| < TWO_31 ==> s.ctrs[s.locks[n]].waiters == |CountedOn(s, s.locks[n])|)
  {
    RunKeepsInv(states, moves, i);
  }

  predicate MidCall(pc: Pc) { !pc.Idle? && !pc.Holding? }

  /**
   No deadlock: in every run, while a thread is inside Lock or Unlock, some such thread can take its next step, unless
   the thread waits for a name whose owner has returned from Lock and not yet called Unlock.
   */
  lemma NoDeadlock(states: seq<State>, moves: seq<(Tid, Action)>, i: nat, t: Tid)
    requires IsRun(states, moves) && i < |states| && t in states[i].pcs && MidCall(states[i].pcs[t])
    ensures var s := states[i];
      || (exists u :: u in s.pcs && MidCall(s.pcs[u]) && Enabled(s, u, Proceed))
      || (s.pcs[t].Waiting? && exists u :: u in s.pcs && s.pcs[u].Holding? && s.pcs[u].name == s.pcs[t].name)
  {
    RunKeepsInv(states, moves, i);
    var s := states[i];
    assert UsesTable(s, t);
    if s.main.Some? {
      var u := s.main.value;
      assert UsesTable(s, u);
      assert Enabled(s, u, Proceed);
    } else if s.pcs[t].Waiting? && s.ctrs[s.pcs[t].id].owner.Some? {
      var u := s.ctrs[s.pcs[t].id].owner.value;
      assert UsesTable(s, u);
      assert s.pcs[u].Holding? || Enabled(s, u, Proceed);
    } else {
      assert Enabled(s, t, Proceed);
    }
  }

  lemma OwnerHasName(s: State, t: Tid)
    requires Inv(s) && t in s.pcs && s.pcs[t].Waiting?
    ensures s.pcs[t].id in s.ctrs
    ensures s.ctrs[s.pcs[t].id].owner.Some? ==>
      var u := s.ctrs[s.pcs[t].id].owner.value; u in s.pcs && Owns(s.pcs[u]) && s.pcs[u].name == s.pcs[t].name
  {
    assert UsesTable(s, t);
    var id := s.pcs[t].id;
    if s.ctrs[id].owner.Some? { assert UsesTable(s, s.ctrs[id].owner.value); }
  }

  /** A thread that waits for a name that nobody owns can acquire it at once. */
  lemma UnheldCanBeAcquired(states: seq<State>, moves: seq<(Tid, Action)>, i: nat, t: Tid)
    requires IsRun(states, moves) && i < |states| && t in states[i].pcs && states[i].pcs[t].Waiting?
    requires var s := states[i]; forall u :: u in s.pcs && Owns(s.pcs[u]) ==> s.pcs[u].name != s.pcs[t].name
    ensures Enabled(states[i], t, Proceed)
  {
    RunKeepsInv(states, moves, i);
    OwnerHasName(states[i], t);
  }
}
