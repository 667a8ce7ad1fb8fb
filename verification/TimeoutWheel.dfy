/**
 The timeout map of the gateway (GatewaySvc.checkTimeout and the insertion in CommitModel): orders wait under a block
 height; a cursor follows the chain height by height, and every order found is dropped or scheduled again and put under a
 later height. Commits interleave with the sweep between any two of its steps.
 */
module TimeoutWheel {
  import opened Basics

  type OrderId = nat

  /** An insertion into the map: under `key`, with the cursor at `at`; `from` is the insertion it renews, if any. */
  datatype Entry = Entry(order: OrderId, key: U64, expire: U64, at: nat, from: Option<nat>)

  /** The chain's answer about an order: unknown, all shards completed, or open with the given timeout. */
  datatype Answer = Unknown | Completed | Open(timeout: U64)

  /** The insertion with the given number was looked at while the cursor stood at `height`. */
  datatype Exam = Exam(ticket: nat, entry: Entry, height: nat, answer: Answer)

  /** Between rounds, or at the cursor's height in a round that goes up to `target`, with `todo` left of the list. */
  datatype Phase = Waiting | Sweeping(target: nat, todo: seq<nat>)

  /**
   `slots` is the timeoutMap with entries as numbers of insertions; the rest is history: all insertions, the heights
   visited, the examinations, and the insertions whose order was pushed to the queue again.
   */
  datatype State = State(
    slots: map<nat, seq<nat>>,
    cursor: nat,
    phase: Phase,
    inserted: seq<Entry>,
    visited: seq<nat>,
    exams: seq<Exam>,
    requeued: seq<nat>)

  datatype Action = Insert(order: OrderId, key: U64, expire: U64) | NewHeight(height: nat) | Examine(answer: Answer) | Next

  const Start := State(map[], 0, Waiting, [], [], [], [])

  function SlotAt(s: State, k: nat): seq<nat> { if k in s.slots then s.slots[k] else [] }

  function Put(s: State, e: Entry): State {
    s.(slots := s.slots[e.key as nat := SlotAt(s, e.key) + [|s.inserted|]], inserted := s.inserted + [e])
  }

  /** Moves the cursor to the next height and takes the list that waits there. */
  function Visit(s: State, target: nat): State {
    s.(cursor := s.cursor + 1, phase := Sweeping(target, SlotAt(s, s.cursor + 1)), visited := s.visited + [s.cursor + 1])
  }

  predicate Enabled(s: State, a: Action) {
    match a
    case Insert(_, _, _) => true
    case NewHeight(h) => s.phase.Waiting? && h > s.cursor
    case Examine(_) => s.phase.Sweeping? && s.phase.todo != [] && s.phase.todo[0] < |s.inserted|
    case Next => s.phase.Sweeping? && s.phase.todo == []
  }

  function Step(s: State, a: Action): State
    requires Enabled(s, a)
  {
    match a
    case Insert(order, key, expire) => Put(s, Entry(order, key, expire, s.cursor, None))
    case NewHeight(h) => Visit(s, h)
    case Examine(answer) =>
      var i := s.phase.todo[0];
      var e := s.inserted[i];
      var s1 := s.(phase := Sweeping(s.phase.target, s.phase.todo[1..]), exams := s.exams + [Exam(i, e, s.cursor, answer)]);
      if !answer.Open? then s1
      else
        var expire := AddU64(e.expire, answer.timeout);
        Put(s1.(requeued := s.requeued + [i]), Entry(e.order, expire, expire, s.cursor, Some(i)))
    case Next =>
      if s.cursor == s.phase.target then s.(phase := Waiting)
      else Visit(s.(slots := s.slots - {s.cursor}), s.phase.target)
  }

  // ---------------------------------------------------------------- what must have been examined

  /** The entry was inserted while its key was still ahead of the cursor. */
  predicate OnTime(e: Entry) { e.at < e.key }

  /** The numbers of the on-time insertions under a key, in the order of insertion. */
  function Due(inserted: seq<Entry>, k: nat): (r: seq<nat>)
    ensures forall i :: i in r ==> i < |inserted|
  {
    if inserted == [] then []
    else
      var n := |inserted| - 1;
      var before := Due(inserted[..n], k);
      if inserted[n].key == k && OnTime(inserted[n]) then before + [n] else before
  }

  /** All on-time insertions with keys from 1 to h, by key and then by insertion. */
  function Schedule(inserted: seq<Entry>, h: nat): seq<nat> {
    if h == 0 then [] else Schedule(inserted, h - 1) + Due(inserted, h)
  }

  function Heights(n: nat): seq<nat> { if n == 0 then [] else Heights(n - 1) + [n] }

  function Tickets(exams: seq<Exam>): (r: seq<nat>)
    ensures |r| == |exams|
  {
    seq(|exams|, i requires 0 <= i < |exams| => exams[i].ticket)
  }

  function Todo(s: State): seq<nat> { if s.phase.Sweeping? then s.phase.todo else [] }

  ghost predicate SlotsOk(s: State) {
    forall k :: k > s.cursor ==> SlotAt(s, k) == Due(s.inserted, k)
  }

  ghost predicate EntriesOk(s: State) {
    && (forall i :: 0 <= i < |s.inserted| ==> s.inserted[i].at <= s.cursor)
    && (s.phase.Sweeping? ==> s.cursor <= s.phase.target)
  }

  /** Examined and still to examine at this height: exactly the schedule so far. */
  ghost predicate ScheduleOk(s: State) {
    Tickets(s.exams) + Todo(s) == Schedule(s.inserted, s.cursor)
  }

  ghost predicate ExamsOk(s: State) {
    && (forall j :: 0 <= j < |s.exams| ==>
          s.exams[j].ticket < |s.inserted| && s.exams[j].entry == s.inserted[s.exams[j].ticket]
          && s.exams[j].height == s.exams[j].entry.key)
    && (forall i :: i in Todo(s) ==> i < |s.inserted| && s.inserted[i].key == s.cursor)
  }

  /** The numbers of the insertions that were found open, and those that were renewed. */
  function Opened(exams: seq<Exam>): seq<nat> {
    if exams == [] then []
    else
      var n := |exams| - 1;
      Opened(exams[..n]) + (if exams[n].answer.Open? then [exams[n].ticket] else [])
  }

  function Renewed(inserted: seq<Entry>): seq<nat> {
    if inserted == [] then []
    else
      var n := |inserted| - 1;
      Renewed(inserted[..n]) + (if inserted[n].from.Some? then [inserted[n].from.value] else [])
  }

  ghost predicate RenewalsOk(s: State) {
    s.requeued == Opened(s.exams) == Renewed(s.inserted)
  }

  ghost predicate Inv(s: State) {
    s.visited == Heights(s.cursor) && SlotsOk(s) && EntriesOk(s) && ScheduleOk(s) && ExamsOk(s) && RenewalsOk(s)
  }

  lemma DuePut(inserted: seq<Entry>, e: Entry, k: nat)
    ensures Due(inserted + [e], k) == if e.key == k && OnTime(e) then Due(inserted, k) + [|inserted|] else Due(inserted, k)
  {
    assert (inserted + [e])[..|inserted|] == inserted;
  }

  /** An insertion at or behind the cursor, or ahead of it, leaves the schedule up to the cursor alone. */
  lemma {:induction false} SchedulePut(inserted: seq<Entry>, e: Entry, h: nat)
    requires h <= e.at
    ensures Schedule(inserted + [e], h) == Schedule(inserted, h)
  {
    if h > 0 {
      SchedulePut(inserted, e, h - 1);
      DuePut(inserted, e, h);
    }
  }

  lemma {:induction false} DueKeys(inserted: seq<Entry>, k: nat)
    ensures forall i :: i in Due(inserted, k) ==> i < |inserted| && inserted[i].key == k
  {
    if inserted != [] { DueKeys(inserted[..|inserted| - 1], k); }
  }

  lemma PutKeeps(s: State, e: Entry)
    requires SlotsOk(s) && EntriesOk(s) && ScheduleOk(s) && ExamsOk(s) && e.at == s.cursor
    ensures var s' := Put(s, e); SlotsOk(s') && EntriesOk(s') && ScheduleOk(s') && ExamsOk(s')
    ensures Renewed(Put(s, e).inserted) == Renewed(s.inserted) + (if e.from.Some? then [e.from.value] else [])
  {
    var s' := Put(s, e);
    forall k | k > s'.cursor ensures SlotAt(s', k) == Due(s'.inserted, k) { DuePut(s.inserted, e, k); }
    SchedulePut(s.inserted, e, s.cursor);
    assert s'.inserted[..|s.inserted|] == s.inserted;
  }

  lemma VisitKeeps(s: State, target: nat)
    requires SlotsOk(s) && EntriesOk(s) && ScheduleOk(s) && ExamsOk(s) && Todo(s) == [] && s.cursor < target
    requires s.visited == Heights(s.cursor)
    ensures var s' := Visit(s, target);
      SlotsOk(s') && EntriesOk(s') && ScheduleOk(s') && ExamsOk(s') && s'.visited == Heights(s'.cursor)
  {
    var s' := Visit(s, target);
    assert SlotAt(s, s'.cursor) == Due(s.inserted, s'.cursor);
    assert Tickets(s.exams) + [] == Tickets(s.exams);
    DueKeys(s.inserted, s'.cursor);
  }

  lemma ExamineKeeps(s: State, answer: Answer)
    requires Inv(s) && Enabled(s, Examine(answer))
    ensures Inv(Step(s, Examine(answer)))
  {
    var i := s.phase.todo[0];
    var e := s.inserted[i];
    var s1 := s.(phase := Sweeping(s.phase.target, s.phase.todo[1..]), exams := s.exams + [Exam(i, e, s.cursor, answer)]);
    ExamStep(s, s1, i, answer);
    if answer.Open? {
      var expire := AddU64(e.expire, answer.timeout);
      PutKeeps(s1.(requeued := s.requeued + [i]), Entry(e.order, expire, expire, s.cursor, Some(i)));
    }
  }

  lemma ExamStep(s: State, s1: State, i: nat, answer: Answer)
    requires Inv(s) && Enabled(s, Examine(answer)) && i == s.phase.todo[0]
    requires s1 == s.(phase := Sweeping(s.phase.target, s.phase.todo[1..]),
                      exams := s.exams + [Exam(i, s.inserted[i], s.cursor, answer)])
    ensures SlotsOk(s1) && EntriesOk(s1) && ScheduleOk(s1) && ExamsOk(s1)
    ensures Opened(s1.exams) == Opened(s.exams) + (if answer.Open? then [i] else [])
  {
    assert i in Todo(s);
    assert s.phase.todo == [i] + s.phase.todo[1..];
    assert Tickets(s1.exams) == Tickets(s.exams) + [i];
    assert Tickets(s1.exams) + Todo(s1) == Tickets(s.exams) + Todo(s);
    assert s1.exams[..|s.exams|] == s.exams;
    assert forall k :: SlotAt(s1, k) == SlotAt(s, k);
    assert forall j :: j in Todo(s1) ==> j in Todo(s);
  }

  lemma StepKeepsInv(s: State, a: Action)
    requires Inv(s) && Enabled(s, a)
    ensures Inv(Step(s, a))
  {
    match a
    case Insert(order, key, expire) => PutKeeps(s, Entry(order, key, expire, s.cursor, None));
    case NewHeight(h) => VisitKeeps(s, h);
    case Examine(answer) => ExamineKeeps(s, answer);
    case Next =>
      if s.cursor != s.phase.target {
        var s1 := s.(slots := s.slots - {s.cursor});
        assert forall k :: k > s.cursor ==> SlotAt(s1, k) == SlotAt(s, k);
        VisitKeeps(s1, s.phase.target);
      }
  }

  // ---------------------------------------------------------------- whole runs

  ghost predicate IsRun(states: seq<State>, acts: seq<Action>) {
    && |states| == |acts| + 1 && states[0] == Start
    && forall i :: 0 <= i < |acts| ==> Enabled(states[i], acts[i]) && states[i + 1] == Step(states[i], acts[i])
  }

  lemma {:induction false} RunKeepsInv(states: seq<State>, acts: seq<Action>, i: nat)
    requires IsRun(states, acts) && i < |states|
    ensures Inv(states[i])
  {
    if i > 0 {
      RunKeepsInv(states, acts, i - 1);
      StepKeepsInv(states[i - 1], acts[i - 1]);
    }
  }

  /** In every run the cursor visits 1, 2, 3, ... : every height once, in order and without gaps. */
  lemma {:induction false} HeightsInOrder(states: seq<State>, acts: seq<Action>, i: nat)
    requires IsRun(states, acts) && i < |states|
    ensures var s := states[i]; |s.visited| == s.cursor && forall j :: 0 <= j < s.cursor ==> s.visited[j] == j + 1
  {
    RunKeepsInv(states, acts, i);
    HeightsAre(states[i].cursor);
  }

  lemma {:induction false} HeightsAre(n: nat)
    ensures |Heights(n)| == n && forall j :: 0 <= j < n ==> Heights(n)[j] == j + 1
  {
    if n > 0 { HeightsAre(n - 1); }
  }

  function Count(s: seq<nat>, i: nat): nat {
    if s == [] then 0 else Count(s[..|s| - 1], i) + (if s[|s| - 1] == i then 1 else 0)
  }

  lemma {:induction false} CountAppend(s: seq<nat>, t: seq<nat>, i: nat)
    ensures Count(s + t, i) == Count(s, i) + Count(t, i)
    decreases |t|
  {
    if t == [] {
      assert s + t == s;
    } else {
      assert (s + t)[..|s + t| - 1] == s + t[..|t| - 1];
      CountAppend(s, t[..|t| - 1], i);
    }
  }

  lemma {:induction false} DueCount(inserted: seq<Entry>, k: nat, i: nat)
    ensures Count(Due(inserted, k), i) == if i < |inserted| && inserted[i].key == k && OnTime(inserted[i]) then 1 else 0
  {
    if inserted != [] {
      var n := |inserted| - 1;
      DueCount(inserted[..n], k, i);
      CountAppend(Due(inserted[..n], k), [n], i);
      assert Count([n], i) == (if n == i then 1 else 0) by { assert [n][..0] == []; }
    }
  }

  lemma {:induction false} ScheduleCount(inserted: seq<Entry>, h: nat, i: nat)
    ensures Count(Schedule(inserted, h), i)
         == if i < |inserted| && inserted[i].key <= h && OnTime(inserted[i]) then 1 else 0
  {
    if h > 0 {
      ScheduleCount(inserted, h - 1, i);
      DueCount(inserted, h, i);
      CountAppend(Schedule(inserted, h - 1), Due(inserted, h), i);
    }
  }

  /**
   In every run, once the sweep is past a key, an insertion under it has been examined exactly once if it was on time and
   not at all if it was not; and every examination happens at the key.
   */
  lemma ExaminedOnceIfOnTime(states: seq<State>, acts: seq<Action>, n: nat, i: nat)
    requires IsRun(states, acts) && n < |states| && i < |states[n].inserted|
    ensures var s := states[n];
      && (s.inserted[i].key < s.cursor || (s.inserted[i].key <= s.cursor && Todo(s) == []) ==>
            Count(Tickets(s.exams), i) == if OnTime(s.inserted[i]) then 1 else 0)
      && (s.inserted[i].key > s.cursor ==> Count(Tickets(s.exams), i) == 0)
      && forall j :: 0 <= j < |s.exams| ==> s.exams[j].height == s.exams[j].entry.key
  {
    RunKeepsInv(states, acts, n);
    var s := states[n];
    ScheduleCount(s.inserted, s.cursor, i);
    CountAppend(Tickets(s.exams), Todo(s), i);
    if s.inserted[i].key < s.cursor { CountZero(Todo(s), i); }
  }

  lemma {:induction false} CountZero(s: seq<nat>, i: nat)
    requires i !in s
    ensures Count(s, i) == 0
  {
    if s != [] {
      assert s[|s| - 1] in s;
      CountZero(s[..|s| - 1], i);
    }
  }

  /** The insertions that were asked about while the chain said that their order is open, in order. */
  ghost function OpenAsked(states: seq<State>, acts: seq<Action>, n: nat): seq<nat>
    requires IsRun(states, acts) && n <= |acts|
  {
    if n == 0 then []
    else
      var a := acts[n - 1];
      OpenAsked(states, acts, n - 1) + if a.Examine? && a.answer.Open? then [states[n - 1].phase.todo[0]] else []
  }

  /**
   In every run, the orders pushed to the queue again and the insertions that renew another are, in order, exactly those
   that the chain said to be open when they were asked about.
   */
  lemma {:induction false} OpenRenewedOnce(states: seq<State>, acts: seq<Action>, n: nat)
    requires IsRun(states, acts) && n < |states|
    ensures var s := states[n];
      s.requeued == OpenAsked(states, acts, n) && Renewed(s.inserted) == OpenAsked(states, acts, n)
  {
    if n > 0 {
      OpenRenewedOnce(states, acts, n - 1);
      assert states[n] == Step(states[n - 1], acts[n - 1]);
    }
    RunKeepsInv(states, acts, n);
  }

  /**
   What asking about an insertion does, in every run. An open order is pushed to the queue again and filed under its expiry
   plus the timeout (on 64 bits); otherwise nothing is added.
   */
  lemma ExamineEffect(states: seq<State>, acts: seq<Action>, i: nat)
    requires IsRun(states, acts) && i < |acts| && acts[i].Examine?
    ensures states[i].phase.Sweeping? && states[i].phase.todo != [] && states[i].phase.todo[0] < |states[i].inserted|
    ensures var s, s', ticket := states[i], states[i + 1], states[i].phase.todo[0];
      var e := s.inserted[ticket];
      && s'.exams == s.exams + [Exam(ticket, e, s.cursor, acts[i].answer)]
      && s'.phase == Sweeping(s.phase.target, s.phase.todo[1..])
      && (!acts[i].answer.Open? ==> s'.requeued == s.requeued && s'.inserted == s.inserted && s'.slots == s.slots)
      && (acts[i].answer.Open? ==>
            var key := (e.expire + acts[i].answer.timeout) % TWO_64;
            && s'.requeued == s.requeued + [ticket]
            && |s'.inserted| == |s.inserted| + 1 && s'.inserted[..|s.inserted|] == s.inserted
            && s'.inserted[|s.inserted|] == Entry(e.order, key, key, s.cursor, Some(ticket))
            && SlotAt(s', key) == SlotAt(s, key) + [|s.inserted|]
            && forall k: nat :: k != key ==> SlotAt(s', k) == SlotAt(s, k))
  {
    assert states[i + 1] == Step(states[i], acts[i]);
  }

  /** What a commit does, in every run: its order is filed under its key, behind those that are there. */
  lemma InsertEffect(states: seq<State>, acts: seq<Action>, i: nat)
    requires IsRun(states, acts) && i < |acts| && acts[i].Insert?
    ensures var s, s', a := states[i], states[i + 1], acts[i];
      && |s'.inserted| == |s.inserted| + 1 && s'.inserted[..|s.inserted|] == s.inserted
      && s'.inserted[|s.inserted|] == Entry(a.order, a.key, a.expire, s.cursor, None)
      && SlotAt(s', a.key) == SlotAt(s, a.key) + [|s.inserted|]
      && (forall k: nat :: k != a.key ==> SlotAt(s', k) == SlotAt(s, k))
      && s'.requeued == s.requeued && s'.phase == s.phase && s'.cursor == s.cursor
  {
    assert states[i + 1] == Step(states[i], acts[i]);
  }

  // ---------------------------------------------------------------- what the map holds

  /** The insertions under a key; if its list was deleted, only those made when the cursor was past the key. */
  function Filed(inserted: seq<Entry>, k: nat, deleted: bool): seq<nat> {
    if inserted == [] then []
    else
      var n := |inserted| - 1;
      var before := Filed(inserted[..n], k, deleted);
      if inserted[n].key == k && (deleted ==> inserted[n].at > k) then before + [n] else before
  }

  /** The cursor moved on from the key in the middle of a round. */
  ghost predicate Deleted(states: seq<State>, acts: seq<Action>, n: nat, k: nat) {
    exists j :: 0 <= j < n && j < |acts| && j < |states| && LeavesMidRound(states[j], acts[j], k)
  }

  ghost predicate LeavesMidRound(s: State, a: Action, k: nat) {
    a.Next? && s.cursor == k && s.phase.Sweeping? && s.phase.target != k
  }

  lemma FiledPut(inserted: seq<Entry>, e: Entry, k: nat, deleted: bool)
    ensures Filed(inserted + [e], k, deleted)
         == if e.key == k && (deleted ==> e.at > k) then Filed(inserted, k, deleted) + [|inserted|] else Filed(inserted, k, deleted)
  {
    assert (inserted + [e])[..|inserted|] == inserted;
  }

  lemma {:induction false} FiledNone(inserted: seq<Entry>, k: nat)
    requires forall i :: 0 <= i < |inserted| ==> inserted[i].at <= k
    ensures Filed(inserted, k, true) == []
  {
    if inserted != [] { FiledNone(inserted[..|inserted| - 1], k); }
  }

  /**
   In every run, the list under a key holds the insertions under it, in order. A list that the cursor left in the middle of
   a round was deleted, and holds only what came too late; the last list of a round is never deleted.
   */
  lemma {:induction false} SlotsExactly(states: seq<State>, acts: seq<Action>, n: nat, k: nat)
    requires IsRun(states, acts) && n < |states|
    ensures SlotAt(states[n], k) == Filed(states[n].inserted, k, Deleted(states, acts, n, k))
    ensures Deleted(states, acts, n, k) ==> k < states[n].cursor
  {
    if n > 0 {
      var s, a := states[n - 1], acts[n - 1];
      SlotsExactly(states, acts, n - 1, k);
      RunKeepsInv(states, acts, n - 1);
      assert states[n] == Step(s, a);
      DeletedStep(states, acts, n, k);
      SlotStep(s, a, k, Deleted(states, acts, n - 1, k));
    }
  }

  lemma DeletedStep(states: seq<State>, acts: seq<Action>, n: nat, k: nat)
    requires 0 < n <= |acts| < |states|
    ensures Deleted(states, acts, n, k) <==> Deleted(states, acts, n - 1, k) || LeavesMidRound(states[n - 1], acts[n - 1], k)
  {
  }

  lemma SlotStep(s: State, a: Action, k: nat, deleted: bool)
    requires Inv(s) && Enabled(s, a) && SlotAt(s, k) == Filed(s.inserted, k, deleted) && (deleted ==> k < s.cursor)
    ensures var s' := Step(s, a); var now := deleted || LeavesMidRound(s, a, k);
      SlotAt(s', k) == Filed(s'.inserted, k, now) && (now ==> k < s'.cursor)
  {
    match a
    case Insert(order, key, expire) => FiledPut(s.inserted, Entry(order, key, expire, s.cursor, None), k, deleted);
    case Examine(answer) =>
      var i := s.phase.todo[0];
      var e := s.inserted[i];
      if answer.Open? {
        var expire := AddU64(e.expire, answer.timeout);
        FiledPut(s.inserted, Entry(e.order, expire, expire, s.cursor, Some(i)), k, deleted);
      }
    case Next => if LeavesMidRound(s, a, k) { FiledNone(s.inserted, k); }
    case NewHeight(_) =>
  }

  // ---------------------------------------------------------------- keys modulo the timeout

  /** What the chain says about an order: its creation height and its timeout. */
  datatype ChainOrder = ChainOrder(createdAt: U64, timeout: U64)

  predicate Congruent(n: int, c: ChainOrder)
    requires c.timeout > 0
  {
    (n - c.createdAt) % c.timeout == 0
  }

  lemma ModAdd(x: int, t: int)
    requires t > 0
    ensures (x + t) % t == x % t
  {
    var q, r := x / t, x % t;
    assert x + t == (q + 1) * t + r;
    DivModUnique(x + t, t, q + 1, r);
  }

  lemma {:induction false} AtLeastOnce(k: int, t: int)
    requires k >= 1 && t > 0
    ensures k * t >= t
  {
    if k > 1 {
      AtLeastOnce(k - 1, t);
      assert k * t == (k - 1) * t + t;
    }
  }

  lemma SmallMultiple(k: int, t: int)
    requires t > 0 && -t < k * t < t
    ensures k == 0
  {
    if k >= 1 {
      AtLeastOnce(k, t);
    } else if k <= -1 {
      AtLeastOnce(-k, t);
    }
  }

  lemma DivModUnique(x: int, t: int, q: int, r: int)
    requires t > 0 && x == q * t + r && 0 <= r < t
    ensures x % t == r && x / t == q
  {
    var q', r' := x / t, x % t;
    assert x == t * q' + r';
    assert (q - q') * t == q * t - q' * t == r' - r;
    SmallMultiple(q - q', t);
  }

  /**
   The key under which an order is restored at start, on 64-bit numbers: the last multiple of its timeout, counted from its
   creation.
   */
  function RestoredKey(height: U64, c: ChainOrder): U64
    requires c.timeout > 0
  {
    MultipleFits(SubU64(height, c.createdAt), c.timeout);
    AddU64(SubU64(height, c.createdAt) / c.timeout * c.timeout, c.createdAt)
  }

  lemma MultipleFits(x: nat, t: nat)
    requires t > 0
    ensures 0 <= x / t * t <= x && x / t * t == x - x % t
  {
    assert x == t * (x / t) + x % t;
    assert x / t * t == t * (x / t);
  }

  /**
   The restored key lies between creation and height, less than a timeout below it, exactly if the height is not before
   the creation, and then it is congruent. A height before the creation (0 if the chain could not be asked) wraps around,
   and gives a key that the cursor has passed or one at the far end of the numbers.
   */
  lemma RestoredKeyBounds(height: U64, c: ChainOrder)
    requires c.timeout > 0
    ensures var key := RestoredKey(height, c);
      && (c.createdAt <= key <= height < key + c.timeout <==> c.createdAt <= height)
      && (c.createdAt <= height ==> Congruent(key, c) && Congruent(key + c.timeout, c))
      && (height < c.createdAt ==> key <= height || key > TWO_64 + height - c.timeout)
  {
    var x, t := SubU64(height, c.createdAt), c.timeout;
    MultipleFits(x, t);
    var y := x / t * t;
    DivModUnique(y, t, x / t, 0);
    ModAdd(y, t);
    if height < c.createdAt {
      assert y + c.createdAt == height + TWO_64 - x % t;
      if x % t <= height {
        assert AddU64(y, c.createdAt) == height - x % t by { DivModUnique(y + c.createdAt, TWO_64, 1, height - x % t); }
      }
    }
  }

  /** The insertion follows the chain: a commit one timeout after creation, or a restored order. */
  ghost predicate Follows(chain: OrderId -> ChainOrder, a: Action, s: State) {
    match a
    case Insert(o, key, expire) =>
      var c := chain(o);
      c.timeout > 0 && ((key == expire == c.createdAt + c.timeout)
        || exists h: U64 :: c.createdAt <= h && key == RestoredKey(h, c) && expire == key + c.timeout)
    case Examine(Open(t)) =>
      s.phase.Sweeping? && s.phase.todo != [] && s.phase.todo[0] < |s.inserted|
      && var e := s.inserted[s.phase.todo[0]]; t == chain(e.order).timeout && e.expire + t < TWO_64
    case _ => true
  }

  ghost predicate EntryCongruent(chain: OrderId -> ChainOrder, e: Entry) {
    var c := chain(e.order);
    c.timeout > 0 && e.key <= e.expire && Congruent(e.key, c) && Congruent(e.expire, c)
  }

  /** Over every run that follows the chain, keys and expiry heights stay congruent to the creation height. */
  lemma {:induction false} KeysCongruent(chain: OrderId -> ChainOrder, states: seq<State>, acts: seq<Action>, n: nat)
    requires IsRun(states, acts) && n < |states|
    requires forall i :: 0 <= i < |acts| ==> Follows(chain, acts[i], states[i])
    ensures forall i :: 0 <= i < |states[n].inserted| ==> EntryCongruent(chain, states[n].inserted[i])
  {
    if n > 0 {
      KeysCongruent(chain, states, acts, n - 1);
      var s, a := states[n - 1], acts[n - 1];
      match a
      case Insert(o, key, expire) => InsertCongruent(chain, o, key, expire, s);
      case Examine(Open(t)) =>
        var e := s.inserted[s.phase.todo[0]];
        ModAdd(e.expire - chain(e.order).createdAt, t);
      case _ =>
    }
  }

  /** A renewal is of an earlier insertion of the same order, and on time exactly if its key is later than that one's. */
  ghost predicate Renews(inserted: seq<Entry>, e: Entry) {
    e.from.Some? ==>
      && e.from.value < |inserted| && e.order == inserted[e.from.value].order
      && (OnTime(e) <==> e.key > inserted[e.from.value].key)
  }

  ghost predicate RenewsLater(inserted: seq<Entry>, e: Entry) {
    e.from.Some? ==> e.from.value < |inserted| && e.key > inserted[e.from.value].key
  }

  /** This holds of every renewal in every run. */
  lemma {:induction false} RenewalOnTime(states: seq<State>, acts: seq<Action>, n: nat)
    requires IsRun(states, acts) && n < |states|
    ensures forall j :: 0 <= j < |states[n].inserted| ==> Renews(states[n].inserted[..j], states[n].inserted[j])
  {
    if n > 0 {
      RenewalOnTime(states, acts, n - 1);
      RunKeepsInv(states, acts, n - 1);
      StepRenews(states[n - 1], acts[n - 1]);
    }
  }

  lemma StepRenews(s: State, a: Action)
    requires Inv(s) && Enabled(s, a)
    requires forall j :: 0 <= j < |s.inserted| ==> Renews(s.inserted[..j], s.inserted[j])
    ensures var s' := Step(s, a); forall j :: 0 <= j < |s'.inserted| ==> Renews(s'.inserted[..j], s'.inserted[j])
  {
    var s', n := Step(s, a), |s.inserted|;
    if a.Examine? { assert s.phase.todo[0] in Todo(s); }
    forall j | 0 <= j < |s'.inserted| ensures Renews(s'.inserted[..j], s'.inserted[j]) {
      assert s'.inserted[..j] == s.inserted[..j];
      if j == n { assert s.inserted[..j] == s.inserted; }
    }
  }

  /** Over every run that follows the chain, every renewal has a strictly larger key than what it renews, and is on time. */
  lemma {:induction false} RenewalsLater(chain: OrderId -> ChainOrder, states: seq<State>, acts: seq<Action>, n: nat)
    requires IsRun(states, acts) && n < |states|
    requires forall i :: 0 <= i < |acts| ==> Follows(chain, acts[i], states[i])
    ensures forall j :: 0 <= j < |states[n].inserted| ==>
      var e := states[n].inserted[j]; RenewsLater(states[n].inserted[..j], e) && (e.from.Some? ==> OnTime(e))
  {
    if n > 0 {
      RenewalsLater(chain, states, acts, n - 1);
      KeysCongruent(chain, states, acts, n - 1);
      StepRenewsLater(chain, states[n - 1], acts[n - 1]);
    }
    RenewalOnTime(states, acts, n);
    assert forall j :: 0 <= j < |states[n].inserted| ==> Renews(states[n].inserted[..j], states[n].inserted[j]);
  }

  lemma StepRenewsLater(chain: OrderId -> ChainOrder, s: State, a: Action)
    requires Enabled(s, a) && Follows(chain, a, s)
    requires forall i :: 0 <= i < |s.inserted| ==> EntryCongruent(chain, s.inserted[i])
    requires forall j :: 0 <= j < |s.inserted| ==> RenewsLater(s.inserted[..j], s.inserted[j])
    ensures var s' := Step(s, a); forall j :: 0 <= j < |s'.inserted| ==> RenewsLater(s'.inserted[..j], s'.inserted[j])
  {
    var s', n := Step(s, a), |s.inserted|;
    if a.Examine? { assert EntryCongruent(chain, s.inserted[s.phase.todo[0]]); }
    forall j | 0 <= j < |s'.inserted| ensures RenewsLater(s'.inserted[..j], s'.inserted[j]) {
      assert s'.inserted[..j] == s.inserted[..j];
      if j == n { assert s.inserted[..j] == s.inserted; }
    }
  }

  lemma InsertCongruent(chain: OrderId -> ChainOrder, o: OrderId, key: U64, expire: U64, s: State)
    requires Follows(chain, Insert(o, key, expire), s)
    ensures EntryCongruent(chain, Entry(o, key, expire, s.cursor, None))
  {
    var c := chain(o);
    if key == expire == c.createdAt + c.timeout {
      DivModUnique(c.timeout, c.timeout, 1, 0);
    } else {
      var h: U64 :| c.createdAt <= h && key == RestoredKey(h, c) && expire == key + c.timeout;
      RestoredKeyBounds(h, c);
    }
  }

  // ---------------------------------------------------------------- the gateway's loop

  /**
   The fields that checkTimeout and CommitModel work on. The history is that of the state machine, so everything proved of
   its runs holds of these methods.
   */
  class Wheel {
    var timeoutMap: map<nat, seq<nat>>
    var orders: seq<Entry>
    var latestHeight: nat
    var schedQueue: seq<nat>
    ghost var states: seq<State>
    ghost var acts: seq<Action>

    ghost function Now(): State
      reads this
    {
      if states == [] then Start else states[|states| - 1]
    }

    ghost predicate Valid()
      reads this
    {
      && IsRun(states, acts)
      && Now().slots == timeoutMap && Now().inserted == orders && Now().cursor == latestHeight
      && Now().requeued == schedQueue
    }

    constructor ()
      ensures Valid() && Now() == Start
    {
      timeoutMap, orders, latestHeight, schedQueue := map[], [], 0, [];
      states, acts := [Start], [];
    }

    /** The history takes one more step; the fields are up to the caller. */
    ghost method Record(a: Action)
      requires IsRun(states, acts) && Enabled(Now(), a)
      modifies this`states, this`acts
      ensures IsRun(states, acts) && Now() == Step(old(Now()), a) && old(states) <= states && old(acts) < acts
    {
      states, acts := states + [Step(Now(), a)], acts + [a];
    }

    /** The insertion under the "timeout" lock, as in CommitModel and in the restoring loop. */
    method InsertOrder(order: OrderId, key: U64, expire: U64)
      requires Valid()
      modifies this
      ensures Valid() && Now() == Step(old(Now()), Insert(order, key, expire)) && old(states) <= states
    {
      Record(Insert(order, key, expire));
      timeoutMap := timeoutMap[key as nat := (if key in timeoutMap then timeoutMap[key] else []) + [|orders|]];
      orders := orders + [Entry(order, key, expire, latestHeight, None)];
    }

    /** One turn of the inner loop over the list at the current height. */
    method ExamineOrder(i: nat, answer: Answer)
      requires Valid() && Enabled(Now(), Examine(answer)) && i == Now().phase.todo[0]
      modifies this
      ensures Valid() && Now() == Step(old(Now()), Examine(answer)) && old(states) <= states
      ensures latestHeight == old(latestHeight)
    {
      Record(Examine(answer));
      if answer.Open? {
        var expire := AddU64(orders[i].expire, answer.timeout);
        schedQueue := schedQueue + [i];
        timeoutMap := timeoutMap[expire as nat := (if expire in timeoutMap then timeoutMap[expire] else []) + [|orders|]];
        orders := orders + [Entry(orders[i].order, expire, expire, latestHeight, Some(i))];
      }
    }

    method ExamineHeight(list: seq<nat>, answers: nat -> Answer)
      requires Valid() && Inv(Now()) && Now().phase.Sweeping? && Now().phase.todo == list
      modifies this
      ensures Valid() && Inv(Now()) && Now().phase == Sweeping(old(Now()).phase.target, []) && old(states) <= states
      ensures latestHeight == old(latestHeight)
    {
      for j := 0 to |list|
        invariant Valid() && Inv(Now()) && old(states) <= states && latestHeight == old(latestHeight)
        invariant Now().phase == Sweeping(old(Now()).phase.target, list[j..])
      {
        assert list[j] in Todo(Now());
        assert list[j..][1..] == list[j + 1..];
        StepKeepsInv(Now(), Examine(answers(list[j])));
        ExamineOrder(list[j], answers(list[j]));
      }
    }

    /** The list under the current height is about to be examined. */
    ghost predicate AtHeight(target: nat)
      reads this
    {
      Valid() && Inv(Now()) && latestHeight <= target && Now().phase == Sweeping(target, SlotAt(Now(), latestHeight))
    }

    method StartRound(newHeight: nat)
      requires Valid() && Now().phase.Waiting? && newHeight > latestHeight
      modifies this
      ensures AtHeight(newHeight) && latestHeight == old(latestHeight) + 1 && old(states) <= states
    {
      RunKeepsInv(states, acts, |states| - 1);
      StepKeepsInv(Now(), NewHeight(newHeight));
      Record(NewHeight(newHeight));
      latestHeight := latestHeight + 1;
    }

    /** The list that was examined is deleted, and the cursor moves on. */
    method Advance(ghost target: nat)
      requires Valid() && Inv(Now()) && Now().phase == Sweeping(target, []) && latestHeight < target
      modifies this
      ensures AtHeight(target) && latestHeight == old(latestHeight) + 1 && old(states) <= states
    {
      StepKeepsInv(Now(), Next);
      Record(Next);
      timeoutMap := timeoutMap - {latestHeight};
      latestHeight := latestHeight + 1;
    }

    /**
     One round of checkTimeout, without commits in between: from the height after the last one up to the new height,
     every list is taken and examined; all but the last are deleted.
     */
    method Round(newHeight: nat, answers: nat -> Answer)
      requires Valid() && Now().phase.Waiting? && newHeight > latestHeight
      modifies this
      ensures Valid() && Now().phase.Waiting? && latestHeight == newHeight && old(states) <= states
    {
      StartRound(newHeight);
      while true
        invariant AtHeight(newHeight) && old(states) <= states
        decreases newHeight - latestHeight
      {
        var list := if latestHeight in timeoutMap then timeoutMap[latestHeight] else [];
        ExamineHeight(list, answers);
        if latestHeight == newHeight { break; }
        Advance(newHeight);
      }
      Record(Next);
    }
  }
}
