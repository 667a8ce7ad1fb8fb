/**
 What every operation of a run answers, said in terms of the operations before it and of the fields of the records: orders
 are known by their data id, shards by their order and CID, migrations by their data id and the provider they leave, and
 expiry records by their shard.
 */
module JobAnswers {
  import opened Basics
  import opened Cbor
  import opened Records
  import opened JobTables
  import opened JobHistory

  /** The save gets its record into the datastore. */
  ghost predicate Succeeds(lib: Lib, job: Job, f: Faults) { !f.has && JobFits(lib, job) && !f.put }

  /** The last order that was stored with a data id, and likewise for the other records. */
  ghost function LastOrder(lib: Lib, ops: seq<Op>, dataId: Text): Option<OrderInfo>
    decreases |ops|
  {
    if ops == [] then None
    else
      var op := ops[|ops| - 1];
      if op.SaveOp? && op.job.OrderJob? && op.job.order.dataId == dataId && Succeeds(lib, op.job, op.f)
      then Some(op.job.order) else LastOrder(lib, ops[..|ops| - 1], dataId)
  }

  ghost function LastShard(lib: Lib, ops: seq<Op>, orderId: U64, cid: Cid): Option<ShardInfo>
    decreases |ops|
  {
    if ops == [] then None
    else
      var op := ops[|ops| - 1];
      if op.SaveOp? && op.job.ShardJob? && op.job.shard.orderId == orderId && op.job.shard.cid == cid
         && Succeeds(lib, op.job, op.f)
      then Some(op.job.shard) else LastShard(lib, ops[..|ops| - 1], orderId, cid)
  }

  ghost function LastMigrate(lib: Lib, ops: seq<Op>, dataId: Text, from: Text): Option<MigrateInfo>
    decreases |ops|
  {
    if ops == [] then None
    else
      var op := ops[|ops| - 1];
      if op.SaveOp? && op.job.MigrateJob? && op.job.migrate.dataId == dataId && op.job.migrate.fromProvider == from
         && Succeeds(lib, op.job, op.f)
      then Some(op.job.migrate) else LastMigrate(lib, ops[..|ops| - 1], dataId, from)
  }

  ghost function LastExpire(lib: Lib, ops: seq<Op>, shardId: U64): Option<ShardExpireInfo>
    decreases |ops|
  {
    if ops == [] then None
    else
      var op := ops[|ops| - 1];
      if op.SaveOp? && op.job.ExpireJob? && op.job.expire.shardId == shardId && Succeeds(lib, op.job, op.f)
      then Some(op.job.expire) else LastExpire(lib, ops[..|ops| - 1], shardId)
  }

  lemma {:induction false} LastOrderStored(lib: Lib, ops: seq<Op>, dataId: Text)
    ensures LastStored(lib, ops, OrderKey(dataId))
         == match LastOrder(lib, ops, dataId) case None => None case Some(o) => Some(OrderJob(o))
    decreases |ops|
  {
    if ops != [] { LastOrderStored(lib, ops[..|ops| - 1], dataId); }
  }

  lemma {:induction false} LastShardStored(lib: Lib, ops: seq<Op>, orderId: U64, cid: Cid)
    ensures LastStored(lib, ops, ShardKey(orderId, cid))
         == match LastShard(lib, ops, orderId, cid) case None => None case Some(s) => Some(ShardJob(s))
    decreases |ops|
  {
    if ops != [] { LastShardStored(lib, ops[..|ops| - 1], orderId, cid); }
  }

  lemma {:induction false} LastMigrateStored(lib: Lib, ops: seq<Op>, dataId: Text, from: Text)
    ensures LastStored(lib, ops, MigrateKey(dataId, from))
         == match LastMigrate(lib, ops, dataId, from) case None => None case Some(m) => Some(MigrateJob(m))
    decreases |ops|
  {
    if ops != [] { LastMigrateStored(lib, ops[..|ops| - 1], dataId, from); }
  }

  lemma {:induction false} LastExpireStored(lib: Lib, ops: seq<Op>, shardId: U64)
    ensures LastStored(lib, ops, ExpireKey(shardId))
         == match LastExpire(lib, ops, shardId) case None => None case Some(e) => Some(ExpireJob(e))
    decreases |ops|
  {
    if ops != [] { LastExpireStored(lib, ops[..|ops| - 1], shardId); }
  }

  /** What a read answers of the last record, with the given failures: a missing one is the zero record. */
  ghost function Answered(lib: Lib, last: Option<Job>, zero: Job, f: Faults): Option<Job> {
    if f.has then None
    else
      match last
      case None => Some(zero)
      case Some(job) => if f.get || !JobReadable(lib, job) then None else Some(job)
  }

  lemma ReadAnswers(lib: Lib, ops: seq<Op>, k: Key, f: Faults)
    ensures Get(lib, Run(lib, Empty, ops).0, k, f) == Answered(lib, LastStored(lib, ops, k), ZeroJob(KeyTable(k)), f)
  {
    StoredIsLast(lib, ops, k);
  }

  const ZeroOrder := OrderInfo([], [], [], [], 0, [], [], 0, map[], 0, 0, 0, 0, [])
  const ZeroShard := ShardInfo(0, [], [], [], [], [], [], [], 0, 0, 0, 0, 0, 0, [])
  const ZeroMigrate := MigrateInfo([], 0, [], [], [], [], 0, [], 0, 0)
  const ZeroExpire := ShardExpireInfo(0, [], 0)

  function AsOrder(o: Option<OrderInfo>): Option<Job> { if o.None? then None else Some(OrderJob(o.value)) }
  function AsShard(s: Option<ShardInfo>): Option<Job> { if s.None? then None else Some(ShardJob(s.value)) }
  function AsMigrate(m: Option<MigrateInfo>): Option<Job> { if m.None? then None else Some(MigrateJob(m.value)) }
  function AsExpire(e: Option<ShardExpireInfo>): Option<Job> { if e.None? then None else Some(ExpireJob(e.value)) }

  /** After every run, GetOrder answers with the last order that was stored with its data id. */
  lemma GetOrderAnswers(lib: Lib, ops: seq<Op>, dataId: Text, f: Faults)
    ensures Get(lib, Run(lib, Empty, ops).0, OrderKey(dataId), f)
         == Answered(lib, AsOrder(LastOrder(lib, ops, dataId)), OrderJob(ZeroOrder), f)
  {
    ReadAnswers(lib, ops, OrderKey(dataId), f);
    LastOrderStored(lib, ops, dataId);
  }

  /** After every run, GetShard answers with the last shard that was stored with its order and CID. */
  lemma GetShardAnswers(lib: Lib, ops: seq<Op>, orderId: U64, cid: Cid, f: Faults)
    ensures Get(lib, Run(lib, Empty, ops).0, ShardKey(orderId, cid), f)
         == Answered(lib, AsShard(LastShard(lib, ops, orderId, cid)), ShardJob(ZeroShard), f)
  {
    ReadAnswers(lib, ops, ShardKey(orderId, cid), f);
    LastShardStored(lib, ops, orderId, cid);
  }

  /** After every run, GetMigrate answers with the last migration that was stored with its data id and the provider it leaves. */
  lemma GetMigrateAnswers(lib: Lib, ops: seq<Op>, dataId: Text, from: Text, f: Faults)
    ensures Get(lib, Run(lib, Empty, ops).0, MigrateKey(dataId, from), f)
         == Answered(lib, AsMigrate(LastMigrate(lib, ops, dataId, from)), MigrateJob(ZeroMigrate), f)
  {
    ReadAnswers(lib, ops, MigrateKey(dataId, from), f);
    LastMigrateStored(lib, ops, dataId, from);
  }

  /** After every run, GetShardExpire answers with the last expiry record that was stored for its shard. */
  lemma GetExpireAnswers(lib: Lib, ops: seq<Op>, shardId: U64, f: Faults)
    ensures Get(lib, Run(lib, Empty, ops).0, ExpireKey(shardId), f)
         == Answered(lib, AsExpire(LastExpire(lib, ops, shardId)), ExpireJob(ZeroExpire), f)
  {
    ReadAnswers(lib, ops, ExpireKey(shardId), f);
    LastExpireStored(lib, ops, shardId);
  }

  /** An index list names only keys of records that were stored, by the fields of those records. */
  lemma ListedByFields(lib: Lib, ops: seq<Op>)
    ensures var m := Run(lib, Empty, ops).0;
      && (forall d :: OrderKey(d) in IndexOf(m, Orders) ==> LastOrder(lib, ops, d).Some?)
      && (forall o, c :: ShardKey(o, c) in IndexOf(m, Shards) ==> LastShard(lib, ops, o, c).Some?)
      && (forall d, f :: MigrateKey(d, f) in IndexOf(m, Migrates) ==> LastMigrate(lib, ops, d, f).Some?)
      && (forall i :: ExpireKey(i) in IndexOf(m, Expires) ==> LastExpire(lib, ops, i).Some?)
  {
    var m := Run(lib, Empty, ops).0;
    forall t, k | k in IndexOf(m, t) ensures LastStored(lib, ops, k).Some? {
      IndexIsFirstSaveOrder(lib, ops, t);
      FirstStoredIsStored(lib, ops, t);
      StoredIsLast(lib, ops, k);
    }
    forall d ensures LastStored(lib, ops, OrderKey(d)).Some? <==> LastOrder(lib, ops, d).Some? { LastOrderStored(lib, ops, d); }
    forall o, c ensures LastStored(lib, ops, ShardKey(o, c)).Some? <==> LastShard(lib, ops, o, c).Some? {
      LastShardStored(lib, ops, o, c);
    }
    forall d, f ensures LastStored(lib, ops, MigrateKey(d, f)).Some? <==> LastMigrate(lib, ops, d, f).Some? {
      LastMigrateStored(lib, ops, d, f);
    }
    forall i ensures LastStored(lib, ops, ExpireKey(i)).Some? <==> LastExpire(lib, ops, i).Some? { LastExpireStored(lib, ops, i); }
  }

  // ---------------------------------------------------------------- the other answers

  /** The outcome of the last operation of a run. */
  ghost function LastOut(lib: Lib, ops: seq<Op>): Out
    requires ops != []
  {
    Run(lib, Empty, ops).1[|ops| - 1]
  }

  /**
   A save reports success exactly if its record is stored and, for a key without a record, its key could be appended to
   the index list.
   */
  lemma SaveAnswers(lib: Lib, ops: seq<Op>, job: Job, f: Faults)
    ensures LastOut(lib, ops + [SaveOp(job, f)])
         == Saved(Succeeds(lib, job, f) && (LastStored(lib, ops, KeyOf(job)).Some? || !AddFails(lib, ops, TableOf(job), f)))
  {
    var now := ops + [SaveOp(job, f)];
    assert now[..|ops|] == ops;
    RunStep(lib, now);
    StoredIsLast(lib, ops, KeyOf(job));
    HistoryAgrees(lib, ops, TableOf(job));
    GuardsAgree(lib, ops, TableOf(job), f);
  }

  /** An index read answers with the listed keys, and fails exactly if the list cannot be read. */
  lemma IndexAnswers(lib: Lib, ops: seq<Op>, t: Table, f: Faults)
    ensures LastOut(lib, ops + [IndexOp(t, f)])
         == JobTables.Listed(if ReadFails(lib, ops, t, f) then None else Some(IndexOf(Run(lib, Empty, ops).0, t)))
    ensures IndexOf(Run(lib, Empty, ops).0, t) == Keep(FirstStored(lib, ops, t), Unlisted(lib, ops))
  {
    var now := ops + [IndexOp(t, f)];
    assert now[..|ops|] == ops;
    RunStep(lib, now);
    HistoryAgrees(lib, ops, t);
    GuardsAgree(lib, ops, t, f);
  }

  /** A removal reports success exactly if the list can be read and written, whether or not it held the id. */
  lemma RemoveAnswers(lib: Lib, ops: seq<Op>, id: U64, f: Faults)
    ensures LastOut(lib, ops + [RemoveOp(id, f)]) == Removed(!RemoveFails(lib, ops, f))
  {
    var now := ops + [RemoveOp(id, f)];
    assert now[..|ops|] == ops;
    RunStep(lib, now);
    HistoryAgrees(lib, ops, Expires);
    GuardsAgree(lib, ops, Expires, f);
  }
}
