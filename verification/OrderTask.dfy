/**
 The life of one queued order (GatewaySvc.process): every shard that is not completed is assigned to its storage node,
 and the order is saved. The loop works on copies of the map's values, so the marks it sets on them are not kept.
 */
module OrderTask {
  import opened Basics
  import opened Records
  import opened ShardTask

  const ORDER_COMPLETE: U64 := 2
  const ORDER_TERMINATE: U64 := 3
  const ORDER_EXPIRED: U64 := 4
  const SHARD_COMPLETED: Text := "completed"

  datatype OrderAnswers = OrderAnswers(retryAt: I64, lastHeight: Option<I64>, saveOk: bool, errText: Text)

  datatype OrderResult = OrderResult(order: OrderInfo, verdict: Verdict, assigns: bool)

  /** One call of `process`; `assigns` says whether it reached the assignment of the shards. */
  function ProcessOrder(order: OrderInfo, a: OrderAnswers): OrderResult {
    if order.state == ORDER_TERMINATE || order.state == ORDER_COMPLETE then OrderResult(order, Finished, false)
    else
      var o := order.(tries := AddU64(order.tries, 1), retryAt := a.retryAt);
      if o.tries >= MAX_RETRIES then OrderResult(o.(state := ORDER_TERMINATE, lastErr := a.errText), Finished, false)
      else if o.expireHeight > 0 && a.lastHeight.None? then OrderResult(o, Retry, false)
      else if o.expireHeight > 0 && a.lastHeight.value > AsI64(o.expireHeight) then
        OrderResult(o.(state := ORDER_EXPIRED, lastErr := a.errText), Finished, false)
      else if o.state >= ORDER_COMPLETE then OrderResult(o, Finished, false)
      else OrderResult(o, if a.saveOk then Finished else Retry, true)
  }

  /** The storage nodes that a call asks: those whose shard is not completed. */
  ghost predicate AskedExactly(shards: ShardMap, asked: seq<Text>) {
    NoDup(asked) && forall node :: node in asked <==> node in shards && shards[node].state != "completed"
  }

  /** The assignment loop, over the map in any order. */
  method AssignShards(shards: ShardMap) returns (asked: seq<Text>)
    ensures AskedExactly(shards, asked)
  {
    asked := [];
    var left := shards.Keys;
    while left != {}
      invariant left <= shards.Keys && NoDup(asked)
      invariant forall node :: node in asked <==> node in shards && node !in left && shards[node].state != SHARD_COMPLETED
    {
      var node :| node in left;
      var shard := shards[node];
      if shard.state != SHARD_COMPLETED {
        asked := asked + [node];
        shard := shard.(state := "notified");
      }
      left := left - {node};
    }
  }

  class Order {
    var info: OrderInfo

    constructor (info: OrderInfo)
      ensures this.info == info
    {
      this.info := info;
    }

    method ProcessOnce(a: OrderAnswers) returns (v: Verdict, asked: seq<Text>)
      modifies this
      ensures info == ProcessOrder(old(info), a).order && v == ProcessOrder(old(info), a).verdict
      ensures if ProcessOrder(old(info), a).assigns then AskedExactly(old(info).shards, asked) else asked == []
    {
      asked := [];
      if info.state == ORDER_TERMINATE { return Finished, asked; }
      if info.state == ORDER_COMPLETE { return Finished, asked; }
      info := info.(tries := AddU64(info.tries, 1));
      info := info.(retryAt := a.retryAt);
      if info.tries >= MAX_RETRIES {
        info := info.(state := ORDER_TERMINATE);
        info := info.(lastErr := a.errText);
        return Finished, asked;
      }
      if info.expireHeight > 0 {
        if a.lastHeight.None? { return Retry, asked; }
        if a.lastHeight.value > AsI64(info.expireHeight) {
          info := info.(state := ORDER_EXPIRED);
          info := info.(lastErr := a.errText);
          return Finished, asked;
        }
      }
      if info.state < ORDER_COMPLETE {
        asked := AssignShards(info.shards);
        if !a.saveOk { return Retry, asked; }
      }
      return Finished, asked;
    }
  }

  predicate OrderTryLeft(o: OrderInfo) { (o.tries + 1) % TWO_64 < 3 }

  /** The chain reports a height past the expiry of the order. */
  predicate OrderExpired(o: OrderInfo, a: OrderAnswers) {
    && o.expireHeight > 0 && a.lastHeight.Some?
    && a.lastHeight.value > if o.expireHeight < TWO_63 then o.expireHeight else o.expireHeight - TWO_64
  }

  /**
   A call asks the nodes exactly if the order is neither Complete (2), Terminated (3) nor Expired (4), has a try left, and
   the chain, if it matters, says that it has not expired. It is put back exactly if the height cannot be had or, after
   asking, the order cannot be saved.
   */
  lemma AsksExactly(o: OrderInfo, a: OrderAnswers)
    ensures var r := ProcessOrder(o, a);
      && (r.assigns <==>
            o.state < 2 && OrderTryLeft(o) && (o.expireHeight > 0 ==> a.lastHeight.Some?) && !OrderExpired(o, a))
      && (r.verdict == Retry <==>
            o.state != 2 && o.state != 3 && OrderTryLeft(o)
            && ((o.expireHeight > 0 && a.lastHeight.None?) || (r.assigns && !a.saveOk)))
      && r.verdict != Panicked
  {
  }

  /** What a call leaves of the order: nothing but its state, its tries, its retry time and its last error ever change. */
  lemma OrderAfter(o: OrderInfo, a: OrderAnswers)
    ensures ProcessOrder(o, a).order
         == if o.state == 2 || o.state == 3 then o
            else
              var o' := o.(tries := (o.tries + 1) % TWO_64, retryAt := a.retryAt);
              if !OrderTryLeft(o) then o'.(state := 3, lastErr := a.errText)
              else if OrderExpired(o, a) then o'.(state := 4, lastErr := a.errText)
              else o'
  {
  }

  /** The orders after each call, for as long as the order is put back and answers last. */
  function LiveOrder(order: OrderInfo, answers: seq<OrderAnswers>): seq<OrderResult>
    decreases |answers|
  {
    if answers == [] then []
    else
      var r := ProcessOrder(order, answers[0]);
      [r] + (if r.verdict == Retry then LiveOrder(r.order, answers[1..]) else [])
  }

  /**
   Over every life of a queued order the shards stay as they were, so every call that assigns asks the same nodes again;
   and the order is processed at most as often as it has tries left.
   */
  lemma {:induction false} OrderLife(order: OrderInfo, answers: seq<OrderAnswers>)
    ensures forall i :: 0 <= i < |LiveOrder(order, answers)| ==> LiveOrder(order, answers)[i].order.shards == order.shards
    ensures |LiveOrder(order, answers)| <= CallBound(order.tries)
    decreases |answers|
  {
    if answers != [] {
      var r := ProcessOrder(order, answers[0]);
      if r.verdict == Retry {
        OrderLife(r.order, answers[1..]);
        if r.order.tries == MAX_RETRIES - 1 && |answers| > 1 {
          assert ProcessOrder(r.order, answers[1]).verdict != Retry;
          assert answers[1..][0] == answers[1];
        }
      }
    }
  }
}
