/**
 The work queue and the schedulers around it (RequestQueue, StoreSvc.Start, GatewaySvc.runSched): producers push requests,
 the scheduler starts workers within a window, a worker pops one request, looks at its retry time, processes it and
 pushes it back on an error. All of them interleave freely.
 */
module Scheduler {
  import opened Basics
  import opened Records
  import opened ShardTask
  import OrderTask

  const WINDOW_SIZE := 10

  /** What a service does with a task and the answers it gets: the task afterwards, and whether it is put back. */
  datatype Service<!T, !A> = Service(process: (T, A) -> (T, bool), tries: T -> U64)

  /** A task is put back only after it used up one try and while it has one left. */
  ghost predicate CountsTries<T(!new), A(!new)>(svc: Service<T, A>) {
    forall t, a :: svc.process(t, a).1 ==> svc.tries(svc.process(t, a).0) == AddU64(svc.tries(t), 1) < MAX_RETRIES
  }

  function StorageService(cidOf: Text -> Cid): Service<ShardInfo, Answers> {
    Service(
      (t: ShardInfo, a: Answers) => (ShardTask.Process(cidOf, t, a).task, ShardTask.Process(cidOf, t, a).verdict == Retry),
      (t: ShardInfo) => t.tries)
  }

  function GatewayService(): Service<OrderInfo, OrderTask.OrderAnswers> {
    Service(
      (o: OrderInfo, a: OrderTask.OrderAnswers) =>
        (OrderTask.ProcessOrder(o, a).order, OrderTask.ProcessOrder(o, a).verdict == Retry),
      (o: OrderInfo) => o.tries)
  }

  lemma ServicesCountTries(cidOf: Text -> Cid)
    ensures CountsTries(StorageService(cidOf)) && CountsTries(GatewayService())
  {
    forall t: ShardInfo, a: Answers | ShardTask.Process(cidOf, t, a).verdict == Retry
      ensures ShardTask.Process(cidOf, t, a).task.tries == AddU64(t.tries, 1) < MAX_RETRIES
    {
      RetryUsesTry(cidOf, t, a);
    }
  }

  /** A request is known by its identity (it is passed by pointer). */
  type Request = nat
  type Wid = nat

  /** The queue, with the history of everything that was ever pushed and popped. */
  class RequestQueue {
    var queue: seq<Request>
    ghost var pushes: seq<Request>
    ghost var pops: seq<Request>

    ghost predicate Valid()
      reads this
    {
      pushes == pops + queue
    }

    constructor ()
      ensures Valid() && pushes == pops == []
    {
      queue, pushes, pops := [], [], [];
    }

    method Len() returns (n: nat)
      requires Valid()
      ensures n == |pushes| - |pops|
    {
      n := |queue|;
    }

    method Push(x: Request)
      requires Valid()
      modifies this
      ensures Valid() && pushes == old(pushes) + [x] && pops == old(pops)
    {
      queue := queue + [x];
      pushes := pushes + [x];
    }

    /** The oldest request that was not popped yet, or None (a nil pointer) if there is none. */
    method PopFront() returns (item: Option<Request>)
      requires Valid()
      modifies this
      ensures Valid() && pushes == old(pushes)
      ensures item.None? <==> |old(pops)| == |pushes|
      ensures pops == if item.None? then old(pops) else old(pops) + [item.value]
      ensures item.Some? ==> item.value == pushes[|old(pops)|]
    {
      if |queue| == 0 { return None; }
      item := Some(queue[0]);
      queue := queue[1..];
      pops := pops + [item.value];
    }
  }

  /** A worker between its start and the release of its slot. */
  datatype Worker = Started | Busy(item: Request) | Ending

  /** The scheduler loop: outside, or about to start the rest of a batch. */
  datatype Loop = Outer | Batch(left: nat)

  /**
   `tasks` holds what the requests point to. `pushes` and `pops` record every push and pop, `calls` counts how often a
   request was handed to process, and `entered` is its number of tries at its first push.
   */
  datatype State<!T> = State(
    queue: seq<Request>,
    loop: Loop,
    slots: nat,
    workers: map<Wid, Worker>,
    tasks: map<Request, T>,
    finished: set<Request>,
    pushes: seq<Request>,
    pops: seq<Request>,
    entered: map<Request, nat>,
    calls: map<Request, nat>)

  datatype Action<!T, !A> =
    | Produce(r: Request, task: T)
    | ReadLen
    | Spawn(w: Wid)
    | Pop(w: Wid)
    | TooEarly(w: Wid)
    | Process(w: Wid, answers: A)
    | Release(w: Wid)

  predicate Enabled<T, A>(svc: Service<T, A>, s: State<T>, a: Action<T, A>) {
    match a
    case Produce(r, t) => r !in s.entered
    case ReadLen => s.loop == Outer || s.loop == Batch(0)
    case Spawn(w) => s.loop.Batch? && s.loop.left > 0 && s.slots < WINDOW_SIZE && w !in s.workers
    case Pop(w) => w in s.workers && s.workers[w] == Started
    case TooEarly(w) => w in s.workers && s.workers[w].Busy?
    case Process(w, _) =>
      w in s.workers && s.workers[w].Busy? && s.workers[w].item in s.tasks && s.workers[w].item in s.calls
    case Release(w) => w in s.workers && s.workers[w] == Ending && s.slots > 0
  }

  function Step<T, A>(svc: Service<T, A>, s: State<T>, a: Action<T, A>): State<T>
    requires Enabled(svc, s, a)
  {
    match a
    case Produce(r, t) =>
      s.(queue := s.queue + [r], pushes := s.pushes + [r], entered := s.entered[r := svc.tries(t)],
         tasks := s.tasks[r := t], calls := s.calls[r := 0])
    case ReadLen => s.(loop := if |s.queue| == 0 then Outer else Batch(|s.queue|))
    case Spawn(w) => s.(loop := Batch(s.loop.left - 1), slots := s.slots + 1, workers := s.workers[w := Started])
    case Pop(w) =>
      if s.queue == [] then s.(workers := s.workers[w := Ending])
      else s.(queue := s.queue[1..], pops := s.pops + [s.queue[0]], workers := s.workers[w := Busy(s.queue[0])])
    case TooEarly(w) =>
      var r := s.workers[w].item;
      s.(queue := s.queue + [r], pushes := s.pushes + [r], workers := s.workers[w := Ending])
    case Process(w, answers) =>
      var r := s.workers[w].item;
      var (t, back) := svc.process(s.tasks[r], answers);
      var s1 := s.(tasks := s.tasks[r := t], calls := s.calls[r := s.calls[r] + 1], workers := s.workers[w := Ending]);
      if back then s1.(queue := s.queue + [r], pushes := s.pushes + [r]) else s1.(finished := s.finished + {r})
    case Release(w) => s.(slots := s.slots - 1, workers := s.workers - {w})
  }

  ghost predicate Init<T>(s: State<T>) {
    s == State([], Outer, 0, map[], map[], {}, [], [], map[], map[])
  }

  /** Where a request is. */
  ghost predicate Queued<T>(s: State<T>, r: Request) { r in s.queue }
  ghost predicate Held<T>(s: State<T>, w: Wid, r: Request) { w in s.workers && s.workers[w] == Busy(r) }
  ghost predicate Somewhere<T>(s: State<T>, r: Request) { Queued(s, r) || r in s.finished || exists w :: Held(s, w, r) }

  /** Each request that entered is in exactly one place. */
  ghost predicate PlacesOk<T>(s: State<T>) {
    && NoDup(s.queue)
    && (forall r :: Queued(s, r) ==> r in s.entered && r !in s.finished)
    && (forall w, r :: Held(s, w, r) ==> r in s.entered && r !in s.finished && !Queued(s, r))
    && (forall v, w, r :: Held(s, v, r) && Held(s, w, r) ==> v == w)
    && (forall r :: r in s.finished ==> r in s.entered)
    && (forall r :: r in s.entered ==> Somewhere(s, r))
  }

  /** The calls that a request has had and those that its tries still allow never exceed those it came with. */
  ghost predicate TriesOk<T, A>(svc: Service<T, A>, s: State<T>) {
    && s.tasks.Keys == s.entered.Keys && s.calls.Keys == s.entered.Keys
    && (forall r :: r in s.entered ==>
          s.calls[r] + (if r in s.finished then 0 else CallBound(svc.tries(s.tasks[r]))) <= CallBound(s.entered[r]))
  }

  ghost predicate WindowOk<T>(s: State<T>) { s.slots == |s.workers| <= WINDOW_SIZE }

  ghost predicate OrderOk<T>(s: State<T>) { s.pushes == s.pops + s.queue }

  ghost predicate Inv<T, A>(svc: Service<T, A>, s: State<T>) { PlacesOk(s) && TriesOk(svc, s) && WindowOk(s) && OrderOk(s) }

  lemma StepOrder<T, A>(svc: Service<T, A>, s: State<T>, a: Action<T, A>)
    requires OrderOk(s) && Enabled(svc, s, a)
    ensures OrderOk(Step(svc, s, a))
  {
    if a.Pop? && s.queue != [] { assert s.queue == [s.queue[0]] + s.queue[1..]; }
  }

  lemma StepWindow<T, A>(svc: Service<T, A>, s: State<T>, a: Action<T, A>)
    requires WindowOk(s) && Enabled(svc, s, a)
    ensures WindowOk(Step(svc, s, a))
  {
    WorkerKeys(svc, s, a);
    KeySize(s.workers, Step(svc, s, a).workers);
  }

  lemma WorkerKeys<T, A>(svc: Service<T, A>, s: State<T>, a: Action<T, A>)
    requires Enabled(svc, s, a)
    ensures var s' := Step(svc, s, a);
      match a
      case Spawn(w) => s'.workers.Keys == s.workers.Keys + {w} && s'.slots == s.slots + 1
      case Release(w) => s'.workers.Keys == s.workers.Keys - {w} && s'.slots == s.slots - 1
      case _ => s'.workers.Keys == s.workers.Keys && s'.slots == s.slots
  {
  }

  lemma KeySize(m: map<Wid, Worker>, m': map<Wid, Worker>)
    ensures |m'| == |m'.Keys| && |m| == |m.Keys|
  {
  }

  lemma StepTries<T(!new), A(!new)>(svc: Service<T, A>, s: State<T>, a: Action<T, A>)
    requires CountsTries(svc) && PlacesOk(s) && TriesOk(svc, s) && Enabled(svc, s, a)
    ensures TriesOk(svc, Step(svc, s, a))
  {
    var s' := Step(svc, s, a);
    match a
    case Process(w, answers) =>
      assert Held(s, w, s.workers[w].item);
      ProcessTries(svc, s, w, answers);
    case Produce(r, t) => assert r !in s.finished || r in s.entered;
    case _ =>
      assert s'.tasks == s.tasks && s'.calls == s.calls && s'.entered == s.entered && s'.finished == s.finished;
  }

  lemma ProcessTries<T(!new), A(!new)>(svc: Service<T, A>, s: State<T>, w: Wid, answers: A)
    requires CountsTries(svc) && TriesOk(svc, s) && Enabled(svc, s, Process(w, answers))
    requires s.workers[w].item in s.entered && s.workers[w].item !in s.finished
    ensures TriesOk(svc, Step(svc, s, Process(w, answers)))
  {
    var r, s' := s.workers[w].item, Step(svc, s, Process(w, answers));
    var (t, back) := svc.process(s.tasks[r], answers);
    CallLowersBound(svc.tries(s.tasks[r]));
    assert back ==> svc.tries(t) == AddU64(svc.tries(s.tasks[r]), 1) < MAX_RETRIES;
    assert s'.tasks == s.tasks[r := t] && s'.calls == s.calls[r := s.calls[r] + 1] && s'.entered == s.entered;
    assert s'.finished == if back then s.finished else s.finished + {r};
  }

  lemma CallLowersBound(tries: U64)
    ensures CallBound(tries) >= 1
    ensures AddU64(tries, 1) < MAX_RETRIES ==> CallBound(AddU64(tries, 1)) + 1 <= CallBound(tries)
  {
  }

  lemma StepPlaces<T, A>(svc: Service<T, A>, s: State<T>, a: Action<T, A>)
    requires PlacesOk(s) && Enabled(svc, s, a)
    ensures PlacesOk(Step(svc, s, a))
  {
    var s' := Step(svc, s, a);
    match a
    case Produce(r, _) => MovesPlaces(s, s', r);
    case ReadLen => StaysPlaces(s, s');
    case Spawn(w) => StaysPlaces(s, s');
    case Pop(w) => if s.queue == [] { StaysPlaces(s, s'); } else { PopPlaces(svc, s, w); }
    case TooEarly(w) => BackPlaces(s, s', w);
    case Process(w, answers) =>
      if svc.process(s.tasks[s.workers[w].item], answers).1 { BackPlaces(s, s', w); } else { DonePlaces(s, s', w); }
    case Release(w) => StaysPlaces(s, s');
  }

  lemma StaysPlaces<T>(s: State<T>, s': State<T>)
    requires PlacesOk(s) && s'.queue == s.queue && s'.entered == s.entered && s'.finished == s.finished
    requires forall w, r :: Held(s', w, r) <==> Held(s, w, r)
    ensures PlacesOk(s')
  {
    forall r | r in s'.entered ensures Somewhere(s', r) {
      assert Somewhere(s, r);
      if w :| Held(s, w, r) { assert Held(s', w, r); }
    }
  }

  lemma MovesPlaces<T>(s: State<T>, s': State<T>, r: Request)
    requires PlacesOk(s) && r !in s.entered && s'.queue == s.queue + [r] && s'.entered.Keys == s.entered.Keys + {r}
    requires s'.finished == s.finished && s'.workers == s.workers
    ensures PlacesOk(s')
  {
    assert forall w, q :: Held(s', w, q) <==> Held(s, w, q);
    assert forall q :: Queued(s', q) <==> Queued(s, q) || q == r;
    forall q | q in s'.entered ensures Somewhere(s', q) {
      if q != r {
        assert Somewhere(s, q);
        if w :| Held(s, w, q) { assert Held(s', w, q); }
      }
    }
  }

  lemma PopPlaces<T, A>(svc: Service<T, A>, s: State<T>, w: Wid)
    requires PlacesOk(s) && Enabled(svc, s, Pop(w)) && s.queue != []
    ensures PlacesOk(Step(svc, s, Pop(w)))
  {
    var s', r := Step(svc, s, Pop(w)), s.queue[0];
    assert Queued(s, r);
    assert forall q :: Queued(s', q) <==> Queued(s, q) && q != r;
    assert forall v, q :: Held(s', v, q) <==> (Held(s, v, q) || (v == w && q == r));
    forall q | q in s'.entered ensures Somewhere(s', q) {
      assert Somewhere(s, q);
      if q == r { assert Held(s', w, r); }
      else if v :| Held(s, v, q) { assert Held(s', v, q); }
    }
  }

  /** A held request goes back to the queue. */
  lemma BackPlaces<T>(s: State<T>, s': State<T>, w: Wid)
    requires PlacesOk(s) && w in s.workers && s.workers[w].Busy?
    requires s'.queue == s.queue + [s.workers[w].item] && s'.workers == s.workers[w := Ending]
    requires s'.entered == s.entered && s'.finished == s.finished
    ensures PlacesOk(s')
  {
    var r := s.workers[w].item;
    assert Held(s, w, r);
    assert forall q :: Queued(s', q) <==> Queued(s, q) || q == r;
    assert forall v, q :: Held(s', v, q) <==> Held(s, v, q) && v != w;
    forall q | q in s'.entered ensures Somewhere(s', q) {
      assert Somewhere(s, q);
      if v :| Held(s, v, q) { assert v == w || Held(s', v, q); }
    }
  }

  /** A held request is finished. */
  lemma DonePlaces<T>(s: State<T>, s': State<T>, w: Wid)
    requires PlacesOk(s) && w in s.workers && s.workers[w].Busy?
    requires s'.queue == s.queue && s'.workers == s.workers[w := Ending]
    requires s'.entered == s.entered && s'.finished == s.finished + {s.workers[w].item}
    ensures PlacesOk(s')
  {
    var r := s.workers[w].item;
    assert Held(s, w, r);
    assert forall q :: Queued(s', q) <==> Queued(s, q);
    assert forall v, q :: Held(s', v, q) <==> Held(s, v, q) && v != w;
    forall q | q in s'.entered ensures Somewhere(s', q) {
      assert Somewhere(s, q);
      if v :| Held(s, v, q) { assert v == w || Held(s', v, q); }
    }
  }

  // ---------------------------------------------------------------- whole runs

  ghost predicate IsRun<T, A>(svc: Service<T, A>, states: seq<State<T>>, acts: seq<Action<T, A>>) {
    && |states| == |acts| + 1 && Init(states[0])
    && forall i {:trigger acts[i]} :: 0 <= i < |acts| ==>
         Enabled(svc, states[i], acts[i]) && states[i + 1] == Step(svc, states[i], acts[i])
  }

  lemma StepKeepsInv<T(!new), A(!new)>(svc: Service<T, A>, s: State<T>, a: Action<T, A>, s': State<T>)
    requires CountsTries(svc) && Inv(svc, s) && Enabled(svc, s, a) && s' == Step(svc, s, a)
    ensures Inv(svc, s')
  {
    StepPlaces(svc, s, a);
    StepTries(svc, s, a);
    StepWindow(svc, s, a);
    StepOrder(svc, s, a);
  }

  lemma StartInv<T, A>(svc: Service<T, A>, s: State<T>)
    requires Init(s)
    ensures Inv(svc, s)
  {
  }

  lemma {:induction false} RunKeepsInv<T(!new), A(!new)>(
    svc: Service<T, A>, states: seq<State<T>>, acts: seq<Action<T, A>>, i: nat)
    requires CountsTries(svc) && IsRun(svc, states, acts) && i < |states|
    ensures Inv(svc, states[i])
  {
    if i == 0 {
      StartInv(svc, states[0]);
    } else {
      var j := i - 1;
      assert states[j + 1] == Step(svc, states[j], acts[j]);
      RunKeepsInv(svc, states, acts, j);
      StepKeepsInv(svc, states[j], acts[j], states[i]);
    }
  }

  /**
   In every interleaving, each request that entered is in exactly one of the queue, one worker's hands or the finished
   requests.
   */
  lemma OnePlace<T(!new), A(!new)>(
    svc: Service<T, A>, states: seq<State<T>>, acts: seq<Action<T, A>>, i: nat, r: Request, v: Wid, w: Wid)
    requires CountsTries(svc) && IsRun(svc, states, acts) && i < |states| && r in states[i].entered
    ensures var s := states[i];
      && Somewhere(s, r)
      && !(Queued(s, r) && r in s.finished) && !(Held(s, v, r) && (Queued(s, r) || r in s.finished))
      && (Held(s, v, r) && Held(s, w, r) ==> v == w) && NoDup(s.queue)
  {
    RunKeepsInv(svc, states, acts, i);
  }

  /** In every interleaving, at most WINDOW_SIZE workers exist and the requests are popped in the order of their pushes. */
  lemma WindowAndOrder<T(!new), A(!new)>(svc: Service<T, A>, states: seq<State<T>>, acts: seq<Action<T, A>>, i: nat)
    requires CountsTries(svc) && IsRun(svc, states, acts) && i < |states|
    ensures var s := states[i];
      |s.workers| <= 10 && |s.pops| <= |s.pushes| && s.pops == s.pushes[..|s.pops|]
  {
    RunKeepsInv(svc, states, acts, i);
  }

  /**
   In every interleaving of the storage service and of the gateway, a request that entered with t tries is handed to
   process at most max(1, MAX_RETRIES - t) times, or once more than MAX_RETRIES if t is the number that wraps around.
   */
  lemma CallsBounded<T(!new), A(!new)>(
    svc: Service<T, A>, states: seq<State<T>>, acts: seq<Action<T, A>>, i: nat, r: Request)
    requires CountsTries(svc) && IsRun(svc, states, acts) && i < |states| && r in states[i].entered
    ensures var s := states[i]; r in s.calls && s.calls[r] <= CallBound(s.entered[r])
  {
    RunKeepsInv(svc, states, acts, i);
  }

  /**
   What processing a request does, in every run: the task becomes what the service makes of it, and the request is pushed
   again exactly if the service asks for a retry, and finished otherwise.
   */
  lemma ProcessEffect<T(!new), A(!new)>(svc: Service<T, A>, states: seq<State<T>>, acts: seq<Action<T, A>>, i: nat, r: Request)
    requires IsRun(svc, states, acts) && i < |acts| && acts[i].Process? && Held(states[i], acts[i].w, r)
    ensures r in states[i].tasks && r in states[i].calls
    ensures var s, s', (t, again) := states[i], states[i + 1], svc.process(states[i].tasks[r], acts[i].answers);
      && s'.tasks == s.tasks[r := t] && s'.calls == s.calls[r := s.calls[r] + 1] && s'.pops == s.pops
      && s'.pushes == (if again then s.pushes + [r] else s.pushes)
      && s'.finished == (if again then s.finished else s.finished + {r})
  {
    assert states[i + 1] == Step(svc, states[i], acts[i]);
  }

  /** A request whose time has not come is pushed again as it is. */
  lemma TooEarlyEffect<T(!new), A(!new)>(svc: Service<T, A>, states: seq<State<T>>, acts: seq<Action<T, A>>, i: nat, r: Request)
    requires IsRun(svc, states, acts) && i < |acts| && acts[i].TooEarly? && Held(states[i], acts[i].w, r)
    ensures var s, s' := states[i], states[i + 1];
      s'.pushes == s.pushes + [r] && s'.tasks == s.tasks && s'.calls == s.calls && s'.finished == s.finished
  {
    assert states[i + 1] == Step(svc, states[i], acts[i]);
  }

  // ---------------------------------------------------------------- the services' loop

  /**
   A service with its queue. Every method is a sequence of steps of the state machine, so everything proved of its runs
   holds of them, in whatever order the methods of producers and workers are called.
   */
  class WorkShop<T(!new), A(!new)> {
    const svc: Service<T, A>
    const schedQueue: RequestQueue
    var tasks: map<Request, T>
    ghost var states: seq<State<T>>
    ghost var acts: seq<Action<T, A>>

    ghost function Now(): State<T>
      reads this
      requires states != []
    {
      states[|states| - 1]
    }

    ghost predicate Valid()
      reads this, schedQueue
    {
      && CountsTries(svc) && IsRun(svc, states, acts) && schedQueue.Valid()
      && Now().pushes == schedQueue.pushes && Now().pops == schedQueue.pops && Now().tasks == tasks
    }

    constructor (svc: Service<T, A>)
      requires CountsTries(svc)
      ensures Valid() && this.svc == svc && Init(Now()) && fresh(schedQueue)
    {
      this.svc := svc;
      schedQueue := new RequestQueue();
      tasks := map[];
      states, acts := [State([], Outer, 0, map[], map[], {}, [], [], map[], map[])], [];
    }

    /** The history takes one more step; the fields are up to the caller. */
    ghost method Record(a: Action<T, A>)
      requires states != [] && IsRun(svc, states, acts) && Enabled(svc, Now(), a)
      modifies this`states, this`acts
      ensures states != [] && IsRun(svc, states, acts) && Now() == Step(svc, old(Now()), a) && old(states) <= states
    {
      states, acts := states + [Step(svc, Now(), a)], acts + [a];
    }

    lemma QueueInWindow()
      requires Valid()
      ensures OrderOk(Now()) && WindowOk(Now())
    {
      RunKeepsInv(svc, states, acts, |states| - 1);
    }

    /** A producer's new request. */
    method Submit(r: Request, t: T)
      requires Valid() && r !in Now().entered
      modifies this, schedQueue
      ensures Valid() && Now() == Step(svc, old(Now()), Produce(r, t)) && old(states) <= states
    {
      Record(Produce(r, t));
      schedQueue.Push(r);
      tasks := tasks[r := t];
    }

    /** A worker pops a request; the queue may have been emptied by others. */
    method Take(w: Wid) returns (item: Option<Request>)
      requires Valid() && Enabled(svc, Now(), Pop(w))
      modifies this, schedQueue
      ensures Valid() && Now() == Step(svc, old(Now()), Pop(w)) && old(states) <= states && Now().loop == old(Now()).loop
      ensures Now().workers == old(Now()).workers[w := if item.None? then Ending else Busy(item.value)]
      ensures schedQueue.pushes == old(schedQueue.pushes) && tasks == old(tasks)
      ensures item.Some? ==> |old(schedQueue.pops)| < |schedQueue.pushes| && item.value == schedQueue.pushes[|old(schedQueue.pops)|]
      ensures item.None? ==> |old(schedQueue.pops)| == |schedQueue.pushes|
      ensures |schedQueue.pops| == |old(schedQueue.pops)| + if |old(schedQueue.pops)| < |schedQueue.pushes| then 1 else 0
    {
      QueueInWindow();
      Record(Pop(w));
      item := schedQueue.PopFront();
    }

    /** The retry time of the request has not come. */
    method PutBack(w: Wid, r: Request)
      requires Valid() && Held(Now(), w, r)
      modifies this, schedQueue
      ensures Valid() && Now() == Step(svc, old(Now()), TooEarly(w)) && old(states) <= states && Now().loop == old(Now()).loop
      ensures Now().workers == old(Now()).workers[w := Ending]
      ensures schedQueue.pops == old(schedQueue.pops) && schedQueue.pushes == old(schedQueue.pushes) + [r] && tasks == old(tasks)
    {
      Record(TooEarly(w));
      schedQueue.Push(r);
    }

    method ProcessTask(w: Wid, r: Request, a: A)
      requires Valid() && Held(Now(), w, r)
      modifies this, schedQueue
      ensures Valid() && Enabled(svc, old(Now()), Process(w, a)) && Now() == Step(svc, old(Now()), Process(w, a))
      ensures old(states) <= states && Now().loop == old(Now()).loop && Now().workers == old(Now()).workers[w := Ending]
      ensures schedQueue.pops == old(schedQueue.pops)
      ensures r in old(tasks) && tasks == old(tasks)[r := svc.process(old(tasks)[r], a).0]
      ensures schedQueue.pushes == old(schedQueue.pushes) + if svc.process(old(tasks)[r], a).1 then [r] else []
    {
      HeldIsKnown(w, r);
      Record(Process(w, a));
      var (t, back) := svc.process(tasks[r], a);
      tasks := tasks[r := t];
      if back { schedQueue.Push(r); }
    }

    lemma HeldIsKnown(w: Wid, r: Request)
      requires Valid() && Held(Now(), w, r)
      ensures r in Now().tasks && r in Now().calls
    {
      RunKeepsInv(svc, states, acts, |states| - 1);
    }

    /** A worker gives its slot back. */
    ghost method Done(w: Wid)
      requires Valid() && w in Now().workers && Now().workers[w] == Ending
      modifies this`states, this`acts
      ensures Valid() && Now().workers == old(Now()).workers - {w} && Now().loop == old(Now()).loop && old(states) <= states
    {
      QueueInWindow();
      assert w in Now().workers.Keys;
      Record(Release(w));
    }

    /** The work on a request that was popped. */
    method Handle(w: Wid, r: Request, early: bool, a: A)
      requires Valid() && Held(Now(), w, r)
      modifies this, schedQueue
      ensures Valid() && old(states) <= states && Now().loop == old(Now()).loop
      ensures Now().workers == old(Now()).workers[w := Ending]
      ensures schedQueue.pops == old(schedQueue.pops) && old(schedQueue.pushes) <= schedQueue.pushes
      ensures r in old(tasks) && tasks == if early then old(tasks) else old(tasks)[r := svc.process(old(tasks)[r], a).0]
    {
      HeldIsKnown(w, r);
      if early { PutBack(w, r); } else { ProcessTask(w, r, a); }
    }

    /** A worker from its start to the release of its slot, with nothing in between. */
    method Work(w: Wid, early: bool, a: A)
      requires Valid() && w in Now().workers && Now().workers[w] == Started
      modifies this, schedQueue
      ensures Valid() && Now().workers == old(Now()).workers - {w} && Now().loop == old(Now()).loop && old(states) <= states
      ensures old(schedQueue.pushes) <= schedQueue.pushes
      ensures |schedQueue.pops| == |old(schedQueue.pops)| + if |old(schedQueue.pops)| < |old(schedQueue.pushes)| then 1 else 0
      ensures if early || |old(schedQueue.pops)| == |old(schedQueue.pushes)| then tasks == old(tasks)
              else
                var r := old(schedQueue.pushes)[|old(schedQueue.pops)|];
                r in old(tasks) && tasks == old(tasks)[r := svc.process(old(tasks)[r], a).0]
    {
      var item := Take(w);
      if item.Some? { Handle(w, item.value, early, a); }
      Done(w);
    }

    /** The scheduler starts a worker. */
    ghost method Start(w: Wid, n: nat)
      requires Valid() && Now().workers == map[] && Now().loop == Batch(n + 1)
      modifies this`states, this`acts
      ensures Valid() && Now().workers == map[w := Started] && Now().loop == Batch(n) && old(states) <= states
    {
      QueueInWindow();
      Record(Spawn(w));
    }

    ghost predicate Idle()
      reads this
    {
      states != [] && Now().workers == map[] && (Now().loop == Outer || Now().loop == Batch(0))
    }

    /**
     One turn of the scheduler's outer loop: as many workers as the queue is long, one after the other. Exactly the requests
     that waited at its start are popped.
     */
    method Turn(early: nat -> bool, answers: nat -> A)
      requires Valid() && Idle()
      modifies this, schedQueue
      ensures Valid() && Idle() && old(states) <= states
      ensures schedQueue.pops == old(schedQueue.pushes) <= schedQueue.pushes
    {
      var len := ReadLength();
      for i := 0 to len
        invariant Valid() && Now().workers == map[] && old(states) <= states
        invariant Now().loop == if len > 0 then Batch(len - i) else Outer
        invariant old(schedQueue.pushes) <= schedQueue.pushes && |schedQueue.pops| == |old(schedQueue.pops)| + i
      {
        Start(0, len - i - 1);
        Work(0, early(i), answers(i));
      }
      assert schedQueue.pops == schedQueue.pushes[..|schedQueue.pops|];
    }

    method ReadLength() returns (len: nat)
      requires Valid() && Idle()
      modifies this`states, this`acts
      ensures Valid() && Now().workers == map[] && Now().loop == (if len > 0 then Batch(len) else Outer) && old(states) <= states
      ensures len == |schedQueue.pushes| - |schedQueue.pops|
    {
      QueueInWindow();
      len := schedQueue.Len();
      Record(ReadLen);
    }
  }
}
