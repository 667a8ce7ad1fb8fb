/**
 The life of one queued shard task (StoreSvc.process): fetch the content from the gateway and store it, send the
 completion transaction, notify the gateway; on an error the task goes back to the queue, at most MAX_RETRIES times.
 Chain, peer and store answers are arbitrary.
 */
module ShardTask {
  import opened Basics
  import opened Records

  const VALIDATED: U64 := 0
  const STORED: U64 := 1
  const TX_SENT: U64 := 2
  const COMPLETE: U64 := 3
  const TERMINATE: U64 := 4

  const MAX_RETRIES: U64 := 3

  /** The answers to the calls of one `process`; None stands for an error or a refusal. */
  datatype Answers = Answers(
    retryAt: I64,
    lastHeight: Option<I64>,
    peerKnown: bool,
    content: Option<Text>,
    storeOk: bool,
    present: bool,
    completeTx: Option<(Text, I64)>,
    noticeOk: bool,
    errText: Text)

  /** Finished leaves the queue, Retry goes back to it, and Panicked takes the node down. */
  datatype Verdict = Finished | Retry | Panicked

  /** What the rest of the world sees. */
  datatype Event =
    | ContentStored(cid: Cid, content: Text)
    | ContentFound(cid: Cid)
    | Completed(hash: Text, height: I64)
    | Noticed(hash: Text, height: I64)

  datatype Result = Result(task: ShardInfo, verdict: Verdict, log: seq<Event>)

  /** Go's conversion of a `uint64` to an `int64`. */
  function AsI64(n: U64): I64 { if n < TWO_63 then n else n - TWO_64 }

  predicate IsRenewal(t: ShardInfo) { t.orderOperation == "3" && t.shardOperation == "3" }

  /**
   Obtaining the content. An answer with the wrong CID and a renewal without content pass a nil error to
   updateShardError, which dereferences it.
   */
  function Fetch(cidOf: Text -> Cid, t: ShardInfo, a: Answers): Result {
    if IsRenewal(t) then
      if !a.present then Result(t, Panicked, [])
      else Result(t.(state := STORED), Retry, [ContentFound(t.cid)])
    else if a.content.None? then Result(t.(lastErr := a.errText), Retry, [])
    else if cidOf(a.content.value) != t.cid then Result(t, Panicked, [])
    else if !a.storeOk then Result(t.(lastErr := a.errText), Retry, [])
    else Result(t.(size := |a.content.value|, state := STORED), Retry, [ContentStored(t.cid, a.content.value)])
  }

  /** Sending the completion transaction and the notice, with content in store. */
  function Complete(t: ShardInfo, a: Answers, log: seq<Event>): Result {
    if t.state < TX_SENT && a.completeTx.None? then Result(t.(lastErr := a.errText), Retry, log)
    else
      var t1 := if t.state < TX_SENT
                then t.(state := COMPLETE, completeHash := a.completeTx.value.0, completeHeight := a.completeTx.value.1)
                else t;
      var log1 := if t.state < TX_SENT then log + [Completed(t1.completeHash, t1.completeHeight)] else log;
      var t2 := if a.noticeOk then t1 else t1.(lastErr := a.errText);
      Result(if t2.state < COMPLETE then t2.(state := COMPLETE) else t2, Finished,
             log1 + [Noticed(t1.completeHash, t1.completeHeight)])
  }

  /** One call of `process`. */
  function Process(cidOf: Text -> Cid, task: ShardInfo, a: Answers): Result {
    if task.state == TERMINATE then Result(task, Finished, [])
    else
      var t := task.(tries := AddU64(task.tries, 1), retryAt := a.retryAt);
      if t.tries >= MAX_RETRIES then Result(t.(state := TERMINATE, lastErr := a.errText), Finished, [])
      else if t.expireHeight > 0 && a.lastHeight.None? then Result(t, Retry, [])
      else if t.expireHeight > 0 && a.lastHeight.value > AsI64(t.expireHeight) then
        Result(t.(state := TERMINATE, lastErr := a.errText), Finished, [])
      else if !a.peerKnown then Result(t.(lastErr := a.errText), Retry, [])
      else if t.state >= STORED then Complete(t, a, [])
      else
        var f := Fetch(cidOf, t, a);
        if f.task.state == STORED then Complete(f.task, a, f.log) else f
  }

  /** The queue entry: a pointer to the task, whose fields `process` assigns as it goes. */
  class Task {
    var info: ShardInfo

    constructor (info: ShardInfo)
      ensures this.info == info
    {
      this.info := info;
    }

    method ProcessOnce(cidOf: Text -> Cid, a: Answers) returns (v: Verdict, log: seq<Event>)
      modifies this
      ensures Result(info, v, log) == Process(cidOf, old(info), a)
    {
      log := [];
      if info.state == TERMINATE { return Finished, log; }
      info := info.(tries := AddU64(info.tries, 1));
      info := info.(retryAt := a.retryAt);
      if info.tries >= MAX_RETRIES {
        info := info.(state := TERMINATE);
        info := info.(lastErr := a.errText);
        return Finished, log;
      }
      if info.expireHeight > 0 {
        if a.lastHeight.None? { return Retry, log; }
        if a.lastHeight.value > AsI64(info.expireHeight) {
          info := info.(state := TERMINATE);
          info := info.(lastErr := a.errText);
          return Finished, log;
        }
      }
      if !a.peerKnown {
        info := info.(lastErr := a.errText);
        return Retry, log;
      }
      if info.state < STORED {
        if info.orderOperation != "3" || info.shardOperation != "3" {
          if a.content.None? {
            info := info.(lastErr := a.errText);
            return Retry, log;
          }
          if cidOf(a.content.value) != info.cid { return Panicked, log; }
          if !a.storeOk {
            info := info.(lastErr := a.errText);
            return Retry, log;
          }
          log := log + [ContentStored(info.cid, a.content.value)];
          info := info.(size := |a.content.value|);
        } else {
          if !a.present { return Panicked, log; }
          log := log + [ContentFound(info.cid)];
        }
        info := info.(state := STORED);
      }
      if info.state < TX_SENT {
        if a.completeTx.None? {
          info := info.(lastErr := a.errText);
          return Retry, log;
        }
        info := info.(state := COMPLETE);
        info := info.(completeHash := a.completeTx.value.0);
        info := info.(completeHeight := a.completeTx.value.1);
        log := log + [Completed(info.completeHash, info.completeHeight)];
      }
      log := log + [Noticed(info.completeHash, info.completeHeight)];
      if !a.noticeOk { info := info.(lastErr := a.errText); }
      if info.state < COMPLETE { info := info.(state := COMPLETE); }
      return Finished, log;
    }
  }

  // ---------------------------------------------------------------- runs of one task

  /** The task after a run of `process` calls, the number of calls and everything seen; `states` lists the states. */
  datatype Life = Life(task: ShardInfo, verdict: Verdict, log: seq<Event>, states: seq<U64>)

  /** The task is processed for as long as it is put back and answers last. */
  function Live(cidOf: Text -> Cid, task: ShardInfo, answers: seq<Answers>): Life
    decreases |answers|
  {
    if answers == [] then Life(task, Retry, [], [])
    else
      var r := Process(cidOf, task, answers[0]);
      if r.verdict != Retry then Life(r.task, r.verdict, r.log, [r.task.state])
      else
        var rest := Live(cidOf, r.task, answers[1..]);
        Life(rest.task, rest.verdict, r.log + rest.log, [r.task.state] + rest.states)
  }

  /** The content of the task was accepted by the store under its CID, or a renewal found it there. */
  ghost predicate HasContent(cidOf: Text -> Cid, t: ShardInfo, log: seq<Event>) {
    exists i :: 0 <= i < |log| &&
      match log[i]
      case ContentStored(cid, content) => cid == t.cid && cidOf(content) == t.cid
      case ContentFound(cid) => cid == t.cid && IsRenewal(t)
      case _ => false
  }

  /** What must hold of everything seen of a task. */
  ghost predicate Sound(cidOf: Text -> Cid, t: ShardInfo, log: seq<Event>) {
    && (forall i, j :: 0 <= i < j < |log| ==> !(log[i].Completed? && log[j].Completed?))
    && (forall j :: 0 <= j < |log| && log[j].Completed? ==> HasContent(cidOf, t, log[..j]))
    && (forall j :: 0 <= j < |log| && log[j].Noticed? ==>
          exists i :: 0 <= i < j && log[i] == Completed(log[j].hash, log[j].height))
  }

  /** The task is still in the queue: nothing was completed or noticed, and Stored means that there is content. */
  ghost predicate Pending(cidOf: Text -> Cid, t: ShardInfo, log: seq<Event>) {
    && (t.state == VALIDATED || t.state == STORED)
    && (forall i :: 0 <= i < |log| ==> !log[i].Completed? && !log[i].Noticed?)
    && (t.state == STORED ==> HasContent(cidOf, t, log))
  }

  predicate SameJob(t: ShardInfo, u: ShardInfo) {
    t.cid == u.cid && t.orderOperation == u.orderOperation && t.shardOperation == u.shardOperation
  }

  lemma CompleteSound(cidOf: Text -> Cid, t: ShardInfo, a: Answers, past: seq<Event>, log: seq<Event>)
    requires t.state == STORED && Pending(cidOf, t, past + log)
    ensures var r := Complete(t, a, log);
      && SameJob(t, r.task) && r.task.state != TX_SENT && Sound(cidOf, t, past + r.log)
      && (r.verdict == Retry ==> Pending(cidOf, r.task, past + r.log))
  {
    var r := Complete(t, a, log);
    if r.verdict == Finished {
      var c := Completed(a.completeTx.value.0, a.completeTx.value.1);
      var n := |past + log|;
      assert past + r.log == (past + log) + [c, Noticed(c.hash, c.height)];
      assert (past + r.log)[..n] == past + log;
      assert (past + r.log)[n] == c;
    }
  }

  lemma ProcessSound(cidOf: Text -> Cid, t: ShardInfo, a: Answers, past: seq<Event>)
    requires Pending(cidOf, t, past)
    ensures var r := Process(cidOf, t, a);
      && SameJob(t, r.task) && r.task.state != TX_SENT && Sound(cidOf, t, past + r.log)
      && (r.verdict == Retry ==> Pending(cidOf, r.task, past + r.log))
  {
    var r := Process(cidOf, t, a);
    var u := t.(tries := AddU64(t.tries, 1), retryAt := a.retryAt);
    assert past + [] == past;
    assert HasContent(cidOf, t, past) ==> HasContent(cidOf, u, past);
    if t.state == STORED {
      CompleteSound(cidOf, u, a, past, []);
    } else {
      FetchSound(cidOf, u, a, past);
      var f := Fetch(cidOf, u, a);
      if f.task.state == STORED { CompleteSound(cidOf, f.task, a, past, f.log); }
    }
  }

  lemma FetchSound(cidOf: Text -> Cid, t: ShardInfo, a: Answers, past: seq<Event>)
    requires t.state == VALIDATED && Pending(cidOf, t, past)
    ensures var f := Fetch(cidOf, t, a);
      SameJob(t, f.task) && Pending(cidOf, f.task, past + f.log) && Sound(cidOf, t, past + f.log)
      && (f.task.state == VALIDATED || f.task.state == STORED) && (f.task.state == VALIDATED ==> f.log == [])
  {
    var f := Fetch(cidOf, t, a);
    if f.log == [] {
      assert past + [] == past;
    } else {
      assert (past + f.log)[|past|] == f.log[0];
      assert HasContent(cidOf, f.task, past + f.log);
    }
  }

  /**
   Under every sequence of answers, a task that starts in Validated completes its order at most once, never before its
   content was stored under its CID or found by a renewal; every notice carries the hash and height of that completion;
   and the task is never left in TxSent.
   */
  lemma {:induction false} LifeSound(cidOf: Text -> Cid, t: ShardInfo, answers: seq<Answers>)
    requires t.state == VALIDATED
    ensures var life := Live(cidOf, t, answers);
      Sound(cidOf, t, life.log) && forall i :: 0 <= i < |life.states| ==> life.states[i] != TX_SENT
  {
    LiveSound(cidOf, t, answers, []);
    var log := Live(cidOf, t, answers).log;
    assert [] + log == log;
  }

  lemma {:induction false} LiveSound(cidOf: Text -> Cid, t: ShardInfo, answers: seq<Answers>, past: seq<Event>)
    requires Pending(cidOf, t, past)
    ensures var life := Live(cidOf, t, answers);
      Sound(cidOf, t, past + life.log) && forall i :: 0 <= i < |life.states| ==> life.states[i] != TX_SENT
    decreases |answers|
  {
    if answers == [] {
      assert past + [] == past;
    } else {
      ProcessSound(cidOf, t, answers[0], past);
      var r := Process(cidOf, t, answers[0]);
      if r.verdict == Retry {
        LiveSound(cidOf, r.task, answers[1..], past + r.log);
        SameJobSound(cidOf, r.task, t, past, r.log, Live(cidOf, r.task, answers[1..]).log);
      }
    }
  }

  lemma SameJobSound(cidOf: Text -> Cid, t: ShardInfo, u: ShardInfo, a: seq<Event>, b: seq<Event>, c: seq<Event>)
    requires SameJob(t, u) && Sound(cidOf, t, a + b + c)
    ensures Sound(cidOf, u, a + (b + c))
  {
    var log := a + (b + c);
    assert log == a + b + c;
    forall j | 0 <= j < |log| && log[j].Completed? ensures HasContent(cidOf, u, log[..j]) {
      assert HasContent(cidOf, t, log[..j]);
    }
  }

  // ---------------------------------------------------------------- retries

  /** A call that puts the task back has used up one try and left at least one. */
  lemma RetryUsesTry(cidOf: Text -> Cid, t: ShardInfo, a: Answers)
    requires Process(cidOf, t, a).verdict == Retry
    ensures Process(cidOf, t, a).task.tries == AddU64(t.tries, 1) < MAX_RETRIES
  {
  }

  /** How often a task with the given number of tries may be processed; the largest number wraps around to zero. */
  function CallBound(tries: nat): nat {
    if tries == TWO_64 - 1 then 4 else if tries < 3 then 3 - tries else 1
  }

  /** A task that enters the queue with some tries is processed at most as often as it has tries left, and at least
   its first call is allowed. */
  lemma {:induction false} CallsBounded(cidOf: Text -> Cid, t: ShardInfo, answers: seq<Answers>)
    ensures |Live(cidOf, t, answers).states| <= CallBound(t.tries)
    decreases |answers|
  {
    if answers != [] {
      var r := Process(cidOf, t, answers[0]);
      if r.verdict == Retry {
        RetryUsesTry(cidOf, t, answers[0]);
        CallsBounded(cidOf, r.task, answers[1..]);
        LiveLength(cidOf, r.task, answers[1..]);
      }
    }
  }

  /** A task with no tries left is processed only once more. */
  lemma LiveLength(cidOf: Text -> Cid, t: ShardInfo, answers: seq<Answers>)
    ensures t.tries == MAX_RETRIES - 1 ==> |Live(cidOf, t, answers).states| <= 1
  {
    if answers != [] && t.tries == MAX_RETRIES - 1 { assert Process(cidOf, t, answers[0]).verdict != Retry; }
  }

  /** The number of tries that wraps around does give its task one call more than there are retries. */
  lemma TriesWrapAround(cidOf: Text -> Cid, t: ShardInfo, a: Answers)
    requires t.tries == TWO_64 - 1 && t.state == VALIDATED && t.expireHeight == 0 && !a.peerKnown
    ensures |Live(cidOf, t, [a, a, a, a]).states| == CallBound(t.tries) == 4
  {
    var t0 := Process(cidOf, t, a).task;
    var t1 := Process(cidOf, t0, a).task;
    var t2 := Process(cidOf, t1, a).task;
    assert t0.tries == 0 && t1.tries == 1 && t2.tries == 2;
    assert [a, a, a, a][1..] == [a, a, a] && [a, a, a][1..] == [a, a] && [a, a][1..] == [a] && [a][1..] == [];
    assert |Live(cidOf, t2, [a]).states| == 1;
    assert |Live(cidOf, t1, [a, a]).states| == 2;
    assert |Live(cidOf, t0, [a, a, a]).states| == 3;
  }

  // ---------------------------------------------------------------- nil errors

  /** The chain reports a height past the expiry of the task. */
  predicate Expired(t: ShardInfo, a: Answers) {
    && t.expireHeight > 0 && a.lastHeight.Some?
    && a.lastHeight.value > if t.expireHeight < TWO_63 then t.expireHeight else t.expireHeight - TWO_64
  }

  /** The call gets as far as the content: the height is known where it matters, and so is the gateway's peer. */
  predicate ReachesContent(t: ShardInfo, a: Answers) {
    (t.expireHeight > 0 ==> a.lastHeight.Some?) && !Expired(t, a) && a.peerKnown
  }

  /** The answers that make updateShardError dereference a nil error: content of another CID, or none for a renewal. */
  predicate NilError(cidOf: Text -> Cid, t: ShardInfo, a: Answers) {
    ReachesContent(t, a) &&
    if t.orderOperation == "3" && t.shardOperation == "3" then !a.present
    else a.content.Some? && cidOf(a.content.value) != t.cid
  }

  /** The answers that put a task back without content. */
  predicate Stalls(cidOf: Text -> Cid, t: ShardInfo, a: Answers) {
    && !Expired(t, a)
    && (ReachesContent(t, a) ==>
          !IsRenewal(t) && (a.content.None? || (cidOf(a.content.value) == t.cid && !a.storeOk)))
  }

  /** The n-th call from now finds a try left. */
  predicate TryLeft(t: ShardInfo, n: nat) { (t.tries + n + 1) % TWO_64 < 3 }

  lemma PanicsExactly(cidOf: Text -> Cid, t: ShardInfo, a: Answers)
    ensures Process(cidOf, t, a).verdict == Panicked <==> t.state == VALIDATED && TryLeft(t, 0) && NilError(cidOf, t, a)
  {
  }

  /** A task that is put back goes on waiting for content exactly if the answers stall it. */
  lemma StallsExactly(cidOf: Text -> Cid, t: ShardInfo, a: Answers)
    ensures var r := Process(cidOf, t, a);
      r.verdict == Retry && r.task.state == VALIDATED <==> t.state == VALIDATED && TryLeft(t, 0) && Stalls(cidOf, t, a)
  {
  }

  lemma JobStays(cidOf: Text -> Cid, t: ShardInfo, a: Answers)
    requires Process(cidOf, t, a).verdict == Retry
    ensures var u := Process(cidOf, t, a).task;
      SameJob(t, u) && u.expireHeight == t.expireHeight && u.tries == AddU64(t.tries, 1)
  {
  }

  /** Some call finds the task without content and with a try left, and is answered with what leads to a nil error. */
  ghost predicate MeetsNilError(cidOf: Text -> Cid, t: ShardInfo, answers: seq<Answers>, n: nat) {
    && n < |answers| && NilError(cidOf, t, answers[n])
    && (forall i :: 0 <= i < n ==> Stalls(cidOf, t, answers[i]))
    && (forall i :: 0 <= i <= n ==> TryLeft(t, i))
  }

  lemma MeetsLater(cidOf: Text -> Cid, t: ShardInfo, u: ShardInfo, answers: seq<Answers>, n: nat)
    requires answers != [] && SameJob(t, u) && u.expireHeight == t.expireHeight && u.tries == AddU64(t.tries, 1)
    requires Stalls(cidOf, t, answers[0]) && TryLeft(t, 0)
    ensures MeetsNilError(cidOf, u, answers[1..], n) <==> MeetsNilError(cidOf, t, answers, n + 1)
  {
    assert forall i: nat :: TryLeft(u, i) <==> TryLeft(t, i + 1);
    assert forall a :: NilError(cidOf, u, a) == NilError(cidOf, t, a) && Stalls(cidOf, u, a) == Stalls(cidOf, t, a);
    if MeetsNilError(cidOf, u, answers[1..], n) {
      forall i | 0 <= i <= n + 1 ensures TryLeft(t, i) && (i <= n ==> Stalls(cidOf, t, answers[i])) {
        if i > 0 { assert TryLeft(u, i - 1) && (i <= n ==> Stalls(cidOf, u, answers[1..][i - 1])); }
      }
    }
    if MeetsNilError(cidOf, t, answers, n + 1) {
      forall i | 0 <= i <= n ensures TryLeft(u, i) && (i < n ==> Stalls(cidOf, u, answers[1..][i])) {
        assert TryLeft(t, i + 1) && Stalls(cidOf, t, answers[i]) && (i < n ==> Stalls(cidOf, t, answers[i + 1]));
      }
    }
  }

  /**
   Over every life of a task, the node goes down exactly if the task starts without content and, after answers that only
   stall it, is answered with content of another CID or, for a renewal, finds its content missing, with a try left.
   */
  lemma {:induction false} LifePanicsExactly(cidOf: Text -> Cid, t: ShardInfo, answers: seq<Answers>)
    ensures Live(cidOf, t, answers).verdict == Panicked
       <==> t.state == VALIDATED && exists n :: MeetsNilError(cidOf, t, answers, n)
    decreases |answers|
  {
    if answers != [] {
      var r := Process(cidOf, t, answers[0]);
      PanicsExactly(cidOf, t, answers[0]);
      StallsExactly(cidOf, t, answers[0]);
      if r.verdict == Panicked {
        assert MeetsNilError(cidOf, t, answers, 0);
      } else {
        LaterPanics(cidOf, t, answers);
        if r.verdict == Retry { LifePanicsExactly(cidOf, r.task, answers[1..]); }
      }
    }
  }

  lemma LaterPanics(cidOf: Text -> Cid, t: ShardInfo, answers: seq<Answers>)
    requires answers != [] && Process(cidOf, t, answers[0]).verdict != Panicked
    ensures var r := Process(cidOf, t, answers[0]);
      (t.state == VALIDATED && exists n :: MeetsNilError(cidOf, t, answers, n))
      <==> (r.verdict == Retry && r.task.state == VALIDATED && exists n :: MeetsNilError(cidOf, r.task, answers[1..], n))
  {
    var r := Process(cidOf, t, answers[0]);
    PanicsExactly(cidOf, t, answers[0]);
    StallsExactly(cidOf, t, answers[0]);
    if r.verdict == Retry { JobStays(cidOf, t, answers[0]); }
    if t.state == VALIDATED && exists n :: MeetsNilError(cidOf, t, answers, n) {
      var n: nat :| MeetsNilError(cidOf, t, answers, n);
      assert TryLeft(t, 0);
      assert n > 0 && Stalls(cidOf, t, answers[0]);
      MeetsLater(cidOf, t, r.task, answers, n - 1);
    }
    if r.verdict == Retry && r.task.state == VALIDATED && exists n :: MeetsNilError(cidOf, r.task, answers[1..], n) {
      var n: nat :| MeetsNilError(cidOf, r.task, answers[1..], n);
      MeetsLater(cidOf, t, r.task, answers, n);
    }
  }

  // ---------------------------------------------------------------- what a call does, and when

  /** The call obtains the content: a renewal finds it, or the gateway sends content of the CID and the store accepts it. */
  predicate Obtains(cidOf: Text -> Cid, t: ShardInfo, a: Answers) {
    ReachesContent(t, a) &&
    if t.orderOperation == "3" && t.shardOperation == "3" then a.present
    else a.content.Some? && cidOf(a.content.value) == t.cid && a.storeOk
  }

  /** The call gets to the completion transaction, with content in store, and the transaction succeeds. */
  predicate Completes(cidOf: Text -> Cid, t: ShardInfo, a: Answers, stored: bool) {
    ReachesContent(t, a) && (stored || Obtains(cidOf, t, a)) && a.completeTx.Some?
  }

  /** What a call of a Validated (0) task shows of the content that it obtained; a Stored (1) one has it already. */
  function Obtained(t: ShardInfo, a: Answers): seq<Event> {
    if t.state == 1 then []
    else if t.orderOperation == "3" && t.shardOperation == "3" then [ContentFound(t.cid)]
    else if a.content.Some? then [ContentStored(t.cid, a.content.value)] else []
  }

  lemma CompletionForm(cidOf: Text -> Cid, t: ShardInfo, a: Answers)
    requires (t.state == 0 || t.state == 1) && TryLeft(t, 0) && Completes(cidOf, t, a, t.state == 1)
    ensures var r := Process(cidOf, t, a);
      var (h, n) := a.completeTx.value;
      && r.verdict == Finished && r.task.state == 3 && r.task.completeHash == h && r.task.completeHeight == n
      && r.log == Obtained(t, a) + [Completed(h, n), Noticed(h, n)]
  {
  }

  lemma NoCompletion(cidOf: Text -> Cid, t: ShardInfo, a: Answers)
    requires (t.state == 0 || t.state == 1) && !(TryLeft(t, 0) && Completes(cidOf, t, a, t.state == 1))
    ensures var r := Process(cidOf, t, a); |r.log| <= 1 && (r.log != [] ==> !r.log[0].Completed? && !r.log[0].Noticed?)
  {
  }

  /**
   A call of a Validated (0) or Stored (1) task completes the order exactly if a try is left, the task is not expired, the
   peer is known, content is in store or obtained, and the transaction succeeds; then the task is Complete (3), and task,
   completion and notice carry what the chain answered.
   */
  lemma CompletesExactly(cidOf: Text -> Cid, t: ShardInfo, a: Answers)
    requires t.state == 0 || t.state == 1
    ensures var r := Process(cidOf, t, a);
      && ((exists i :: 0 <= i < |r.log| && r.log[i].Completed?) <==> TryLeft(t, 0) && Completes(cidOf, t, a, t.state == 1))
      && (TryLeft(t, 0) && Completes(cidOf, t, a, t.state == 1) ==>
            var (h, n) := a.completeTx.value;
            && r.verdict == Finished && r.task.state == 3 && r.task.completeHash == h && r.task.completeHeight == n
            && r.log == Obtained(t, a) + [Completed(h, n), Noticed(h, n)])
  {
    var r := Process(cidOf, t, a);
    if TryLeft(t, 0) && Completes(cidOf, t, a, t.state == 1) {
      CompletionForm(cidOf, t, a);
      assert r.log[|Obtained(t, a)|].Completed?;
    } else {
      NoCompletion(cidOf, t, a);
    }
  }

  /**
   Such a task is put back exactly if a try is left and the call neither completes, nor finds it expired, nor runs into a
   nil error; content that was obtained makes it Stored.
   */
  lemma PutBackExactly(cidOf: Text -> Cid, t: ShardInfo, a: Answers)
    requires t.state == 0 || t.state == 1
    ensures var r := Process(cidOf, t, a);
      && (r.verdict == Retry <==>
            TryLeft(t, 0) && !Expired(t, a) && !Completes(cidOf, t, a, t.state == 1) && !(t.state == 0 && NilError(cidOf, t, a)))
      && (r.verdict == Retry ==>
            r.task.state == (if t.state == 1 || Obtains(cidOf, t, a) then 1 else 0)
            && forall i :: 0 <= i < |r.log| ==> !r.log[i].Completed? && !r.log[i].Noticed?)
  {
  }

  /** A task is left Terminated (4) exactly if it was, has no try left, or is expired; and an expired one is finished. */
  lemma TerminatesExactly(cidOf: Text -> Cid, t: ShardInfo, a: Answers)
    ensures var r := Process(cidOf, t, a);
      && (r.task.state == 4 <==> t.state == 4 || !TryLeft(t, 0) || Expired(t, a))
      && (r.task.state == 4 ==> r.verdict == Finished && r.log == [])
      && (t.state == 4 ==> r.task == t)
      && (t.state != 4 ==> r.task.tries == (t.tries + 1) % TWO_64 && r.task.retryAt == a.retryAt)
  {
  }

  /** Content that is stored by a call is recorded with its length; nothing else changes the size of a task. */
  lemma SizeIsContent(cidOf: Text -> Cid, t: ShardInfo, a: Answers)
    ensures var r := Process(cidOf, t, a);
      if t.state == 0 && TryLeft(t, 0) && Obtains(cidOf, t, a) then
        |r.log| > 0 && if IsRenewal(t) then r.task.size == t.size && r.log[0] == ContentFound(t.cid)
                       else r.task.size == |a.content.value| && r.log[0] == ContentStored(t.cid, a.content.value)
      else r.task.size == t.size
  {
  }

  /** A task that is past its transaction (TxSent 2, Complete 3) is only noticed once more, with what it holds. */
  lemma OnlyNotices(cidOf: Text -> Cid, t: ShardInfo, a: Answers)
    requires t.state == 2 || t.state == 3
    ensures var r := Process(cidOf, t, a);
      if TryLeft(t, 0) && ReachesContent(t, a) then
        r.verdict == Finished && r.task.state == 3 && r.log == [Noticed(t.completeHash, t.completeHeight)]
      else r.log == []
  {
  }

  /** The call ends in an error that is recorded: all but an unknown height and a nil error are. */
  predicate IsRecorded(cidOf: Text -> Cid, t: ShardInfo, a: Answers) {
    t.state != 4 &&
    if !TryLeft(t, 0) || Expired(t, a) then true
    else if t.expireHeight > 0 && a.lastHeight.None? then false
    else if !a.peerKnown then true
    else if t.state == 0 && !Obtains(cidOf, t, a) then !NilError(cidOf, t, a)
    else if t.state < 2 && a.completeTx.None? then true
    else !a.noticeOk
  }

  lemma ErrorsRecorded(cidOf: Text -> Cid, t: ShardInfo, a: Answers)
    ensures Process(cidOf, t, a).task.lastErr == if IsRecorded(cidOf, t, a) then a.errText else t.lastErr
  {
  }

  /** Content is in store before the n-th call. */
  ghost predicate StoredBy(cidOf: Text -> Cid, t: ShardInfo, answers: seq<Answers>, n: nat) {
    t.state == 1 || exists i :: 0 <= i < n && i < |answers| && Obtains(cidOf, t, answers[i])
  }

  /** The n-th call neither completes, nor finds the task expired, nor runs into a nil error. */
  ghost predicate GoesOn(cidOf: Text -> Cid, t: ShardInfo, answers: seq<Answers>, n: nat)
    requires n < |answers|
  {
    && !Expired(t, answers[n]) && !Completes(cidOf, t, answers[n], StoredBy(cidOf, t, answers, n))
    && (NilError(cidOf, t, answers[n]) ==> StoredBy(cidOf, t, answers, n))
  }

  /** The n-th call completes the order, and those before it put the task back. */
  ghost predicate CompletesAt(cidOf: Text -> Cid, t: ShardInfo, answers: seq<Answers>, n: nat) {
    && n < |answers| && Completes(cidOf, t, answers[n], StoredBy(cidOf, t, answers, n))
    && (forall i :: 0 <= i < n ==> GoesOn(cidOf, t, answers, i))
    && (forall i :: 0 <= i <= n ==> TryLeft(t, i))
  }

  lemma StoredLater(cidOf: Text -> Cid, t: ShardInfo, u: ShardInfo, answers: seq<Answers>, n: nat)
    requires answers != [] && SameJob(t, u) && u.expireHeight == t.expireHeight && (u.state == 0 || u.state == 1)
    requires u.state == 1 <==> t.state == 1 || Obtains(cidOf, t, answers[0])
    ensures StoredBy(cidOf, u, answers[1..], n) <==> StoredBy(cidOf, t, answers, n + 1)
  {
    assert forall a :: Obtains(cidOf, u, a) == Obtains(cidOf, t, a);
    if i :| 0 <= i < n && i < |answers| - 1 && Obtains(cidOf, u, answers[1..][i]) {
      assert Obtains(cidOf, t, answers[i + 1]);
    }
    if i :| 0 <= i < n + 1 && i < |answers| && Obtains(cidOf, t, answers[i]) {
      if i > 0 { assert Obtains(cidOf, u, answers[1..][i - 1]); }
    }
  }

  lemma CompletesLater(cidOf: Text -> Cid, t: ShardInfo, u: ShardInfo, answers: seq<Answers>, n: nat)
    requires answers != [] && SameJob(t, u) && u.expireHeight == t.expireHeight && (u.state == 0 || u.state == 1)
    requires u.state == 1 <==> t.state == 1 || Obtains(cidOf, t, answers[0])
    requires u.tries == AddU64(t.tries, 1) && TryLeft(t, 0) && GoesOn(cidOf, t, answers, 0)
    ensures CompletesAt(cidOf, u, answers[1..], n) <==> CompletesAt(cidOf, t, answers, n + 1)
  {
    forall i: nat | i < |answers| - 1
      ensures GoesOn(cidOf, u, answers[1..], i) <==> GoesOn(cidOf, t, answers, i + 1)
      ensures Completes(cidOf, u, answers[1..][i], StoredBy(cidOf, u, answers[1..], i))
         <==> Completes(cidOf, t, answers[i + 1], StoredBy(cidOf, t, answers, i + 1))
    {
      StoredLater(cidOf, t, u, answers, i);
      assert answers[1..][i] == answers[i + 1];
    }
    assert forall i: nat :: TryLeft(u, i) <==> TryLeft(t, i + 1);
    if CompletesAt(cidOf, u, answers[1..], n) {
      forall i | 0 <= i <= n + 1 ensures TryLeft(t, i) && (i <= n ==> GoesOn(cidOf, t, answers, i)) {
        if i > 0 { assert TryLeft(u, i - 1) && (i <= n ==> GoesOn(cidOf, u, answers[1..], i - 1)); }
      }
    }
    if CompletesAt(cidOf, t, answers, n + 1) {
      forall i | 0 <= i <= n ensures TryLeft(u, i) && (i < n ==> GoesOn(cidOf, u, answers[1..], i)) {
        assert TryLeft(t, i + 1) && (i < n ==> GoesOn(cidOf, t, answers, i + 1));
      }
    }
  }

  /** The completion in a log, and what the task remembers of it. */
  ghost predicate CompletedWith(life: Life, h: Text, n: I64) {
    Completed(h, n) in life.log && life.task.state == 3 && life.task.completeHash == h && life.task.completeHeight == n
  }

  /**
   Over every life of a Validated or Stored task, the order is completed with a hash and a height exactly if some call
   completes it, after calls that only put the task back, and the chain answered that call with them; the task keeps them.
   */
  lemma {:induction false} LifeCompletesExactly(cidOf: Text -> Cid, t: ShardInfo, answers: seq<Answers>, h: Text, n: I64)
    requires t.state == 0 || t.state == 1
    ensures var life := Live(cidOf, t, answers);
      && (Completed(h, n) in life.log <==> exists i: nat :: CompletesAt(cidOf, t, answers, i) && answers[i].completeTx == Some((h, n)))
      && (Completed(h, n) in life.log ==> CompletedWith(life, h, n))
    decreases |answers|
  {
    if answers != [] {
      var r := Process(cidOf, t, answers[0]);
      CompletesExactly(cidOf, t, answers[0]);
      PutBackExactly(cidOf, t, answers[0]);
      FirstCall(cidOf, t, answers);
      if r.verdict == Retry {
        JobStays(cidOf, t, answers[0]);
        LifeCompletesExactly(cidOf, r.task, answers[1..], h, n);
        LaterCompletion(cidOf, t, r.task, answers, h, n);
      } else if TryLeft(t, 0) && Completes(cidOf, t, answers[0], t.state == 1) {
        assert CompletesAt(cidOf, t, answers, 0);
        assert r.log[|Obtained(t, answers[0])|].Completed?;
      }
    }
  }

  lemma LaterCompletion(cidOf: Text -> Cid, t: ShardInfo, u: ShardInfo, answers: seq<Answers>, h: Text, n: I64)
    requires answers != [] && SameJob(t, u) && u.expireHeight == t.expireHeight && (u.state == 0 || u.state == 1)
    requires u.state == 1 <==> t.state == 1 || Obtains(cidOf, t, answers[0])
    requires u.tries == AddU64(t.tries, 1) && TryLeft(t, 0) && GoesOn(cidOf, t, answers, 0)
    ensures (exists i: nat :: CompletesAt(cidOf, t, answers, i) && answers[i].completeTx == Some((h, n)))
       <==> exists i: nat :: CompletesAt(cidOf, u, answers[1..], i) && answers[1..][i].completeTx == Some((h, n))
  {
    if i: nat :| CompletesAt(cidOf, t, answers, i) && answers[i].completeTx == Some((h, n)) {
      assert i > 0;
      CompletesLater(cidOf, t, u, answers, i - 1);
      assert answers[1..][i - 1] == answers[i];
    }
    if i: nat :| CompletesAt(cidOf, u, answers[1..], i) && answers[1..][i].completeTx == Some((h, n)) {
      CompletesLater(cidOf, t, u, answers, i);
      assert answers[1..][i] == answers[i + 1];
    }
  }

  lemma FirstCall(cidOf: Text -> Cid, t: ShardInfo, answers: seq<Answers>)
    requires answers != []
    ensures StoredBy(cidOf, t, answers, 0) <==> t.state == 1
    ensures forall i: nat :: CompletesAt(cidOf, t, answers, i) ==> TryLeft(t, 0) && (i > 0 ==> GoesOn(cidOf, t, answers, 0))
  {
  }

  // ---------------------------------------------------------------- retry intervals

  const SECOND := 1_000_000_000

  function Power3(n: nat): (p: nat)
    ensures p >= 1
  {
    if n == 0 then 1 else 3 * Power3(n - 1)
  }

  function WrapI64(n: int): I64 { (n + TWO_63) % TWO_64 - TWO_63 }

  /** The interval of GetRetryAt in nanoseconds: one second, tripled for every try, in a 64-bit duration that wraps around. */
  method RetryInterval(tries: U64) returns (interval: I64)
    ensures interval == WrapI64(1_000_000_000 * Power3(tries))
    ensures tries <= 20 ==> interval == 1_000_000_000 * Power3(tries)
  {
    interval := SECOND;
    for i := 0 to tries
      invariant interval == WrapI64(SECOND * Power3(i))
    {
      WrapTriples(SECOND * Power3(i));
      assert 3 * (SECOND * Power3(i)) == SECOND * Power3(i + 1);
      interval := WrapI64(interval * 3);
    }
    if tries <= 20 { Power3Bound(tries); }
  }

  lemma WrapTriples(n: int)
    ensures WrapI64(WrapI64(n) * 3) == WrapI64(3 * n)
  {
    var k := (n + TWO_63) / TWO_64;
    assert WrapI64(n) == n - k * TWO_64;
    assert WrapI64(n) * 3 + TWO_63 == 3 * n + TWO_63 - 3 * k * TWO_64;
  }

  lemma {:induction false} Power3Bound(n: nat)
    requires n <= 20
    ensures Power3(n) <= 3_486_784_401
  {
    assert Power3(4) == 81;
    assert Power3(8) == 6561 by { assert Power3(6) == 729; }
    assert Power3(12) == 531_441 by { assert Power3(10) == 59049; }
    assert Power3(16) == 43_046_721 by { assert Power3(14) == 4_782_969; }
    assert Power3(20) == 3_486_784_401 by { assert Power3(18) == 387_420_489; }
    Power3Grows(n, 20);
  }

  lemma {:induction false} Power3Grows(m: nat, n: nat)
    requires m <= n
    ensures Power3(m) <= Power3(n)
    decreases n - m
  {
    if m < n { Power3Grows(m + 1, n); }
  }
}
