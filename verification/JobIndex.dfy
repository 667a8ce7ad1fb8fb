/**
 What a caller may rely on of the index lists, over whole runs: when a list is complete, what a full list and an unreadable
 key do to it, and when the removal of an expiry id is final.
 */
module JobIndex {
  import opened Basics
  import opened Cbor
  import opened Records
  import opened JobTables
  import opened JobHistory

  lemma {:induction false} RunTablesOk(lib: Lib, ops: seq<Op>)
    ensures TablesOk(lib, Run(lib, Empty, ops).0)
    decreases |ops|
  {
    if ops != [] {
      RunTablesOk(lib, ops[..|ops| - 1]);
      RunStep(lib, ops);
      StepTablesOk(lib, Run(lib, Empty, ops[..|ops| - 1]).0, ops[|ops| - 1]);
    }
  }

  lemma StepTablesOk(lib: Lib, m: Tables, op: Op)
    requires TablesOk(lib, m)
    ensures TablesOk(lib, Step(lib, m, op).0)
  {
    match op
    case SaveOp(job, f) => SaveTablesOk(lib, m, job, f);
    case RemoveOp(id, f) =>
      var ks := Without(IndexOf(m, Expires), ExpireKey(id));
      assert ListsStored(m.jobs, Expires, IndexOf(m, Expires));
      forall i | 0 <= i < |ks| ensures KeyTable(ks[i]) == Expires && ks[i] in m.jobs { assert ks[i] in IndexOf(m, Expires); }
      IndexKeepsTables(lib, m, Expires, ks);
    case _ =>
  }

  lemma SaveTablesOk(lib: Lib, m: Tables, job: Job, f: Faults)
    requires TablesOk(lib, m)
    ensures TablesOk(lib, Save(lib, m, job, f).0)
  {
    var k, t := KeyOf(job), TableOf(job);
    if Stores(lib, job, f) {
      RecordKeepsTables(lib, m, job);
      var m1 := m.(jobs := m.jobs[k := job]);
      if k !in m.jobs && Indexes(lib, m, t, f) { IndexKeepsTables(lib, m1, t, IndexOf(m, t) + [k]); }
    }
  }

  /** In tables of a run, a listed key can be read back unless it is that of a shard with an oversized or malformed CID. */
  lemma ListedReadable(lib: Lib, m: Tables, t: Table)
    requires Sane(lib) && TablesOk(lib, m)
    ensures forall i :: 0 <= i < |IndexOf(m, t)| ==>
      var k := IndexOf(m, t)[i]; KeyReadable(lib, k) <==> (k.ShardKey? ==> |k.cid| < CID_MAX && lib.isCid(k.cid))
  {
    forall i | 0 <= i < |IndexOf(m, t)|
      ensures var k := IndexOf(m, t)[i]; KeyReadable(lib, k) <==> (k.ShardKey? ==> |k.cid| < CID_MAX && lib.isCid(k.cid))
    {
      var k := IndexOf(m, t)[i];
      assert k in m.jobs && Kept(lib, k, m.jobs[k]);
      JobKeyFits(lib, m.jobs[k]);
      KeyReadableExactly(lib, k);
    }
  }

  lemma ExpireIndexReadable(lib: Lib, ops: seq<Op>)
    requires Sane(lib)
    ensures KeysReadable(lib, IndexOf(Run(lib, Empty, ops).0, Expires))
    ensures forall f :: RemoveFails(lib, ops, f) <==> f.indexHas || f.indexPut || (f.indexGet && IndexWritten(lib, ops, Expires))
  {
    var m := Run(lib, Empty, ops).0;
    RunTablesOk(lib, ops);
    ListedReadable(lib, m, Expires);
    assert Expires in m.index ==> ListsStored(m.jobs, Expires, m.index[Expires]);
    assert KeysReadable(lib, IndexOf(m, Expires));
    HistoryAgrees(lib, ops, Expires);
  }

  // ---------------------------------------------------------------- complete index lists

  /** Nothing goes wrong with the index calls of a save, its key can be read back, and nothing is removed. */
  ghost predicate Untroubled(lib: Lib, op: Op) {
    match op
    case SaveOp(job, f) => !f.indexHas && !f.indexGet && !f.indexPut && KeyReadable(lib, KeyOf(job))
    case RemoveOp(_, _) => false
    case _ => true
  }

  function Start(ks: seq<Key>, n: nat): seq<Key> { if |ks| <= n then ks else ks[..n] }

  /**
   In a run without index failures, unreadable keys and removals, an index list is the first-save order of its table, cut at
   the length limit; so it is complete exactly if no more keys were stored than the limit admits.
   */
  lemma {:induction false} UntroubledIndex(lib: Lib, ops: seq<Op>, t: Table)
    requires forall i :: 0 <= i < |ops| ==> Untroubled(lib, ops[i])
    ensures var m, ks := Run(lib, Empty, ops).0, FirstStored(lib, ops, t);
      && IndexOf(m, t) == Start(ks, lib.maxLength)
      && ((forall k :: k in m.jobs && KeyTable(k) == t ==> k in IndexOf(m, t)) <==> |ks| <= lib.maxLength)
  {
    UntroubledPrefix(lib, ops, t);
    FirstStoredIsStored(lib, ops, t);
    var ks, n := FirstStored(lib, ops, t), lib.maxLength;
    if |ks| > n { assert ks[n] !in ks[..n]; }
  }

  lemma {:induction false} UntroubledPrefix(lib: Lib, ops: seq<Op>, t: Table)
    requires forall i :: 0 <= i < |ops| ==> Untroubled(lib, ops[i])
    ensures var m, ks := Run(lib, Empty, ops).0, FirstStored(lib, ops, t);
      IndexOf(m, t) == Start(ks, lib.maxLength) && KeysReadable(lib, ks)
    decreases |ops|
  {
    if ops != [] {
      var init, op := ops[..|ops| - 1], ops[|ops| - 1];
      UntroubledPrefix(lib, init, t);
      RunStep(lib, ops);
      assert Untroubled(lib, op);
      if op.SaveOp? {
        FirstStoredIsStored(lib, init, t);
        UntroubledSave(lib, Run(lib, Empty, init).0, op.job, op.f, t, FirstStored(lib, init, t));
      }
    }
  }

  lemma UntroubledSave(lib: Lib, m: Tables, job: Job, f: Faults, t: Table, ks: seq<Key>)
    requires IndexOf(m, t) == Start(ks, lib.maxLength) && KeysReadable(lib, ks) && !f.indexHas && !f.indexGet && !f.indexPut
    requires forall k :: k in ks <==> k in m.jobs && KeyTable(k) == t
    ensures var isNew := TableOf(job) == t && Stores(lib, job, f) && KeyOf(job) !in ks;
      IndexOf(Save(lib, m, job, f).0, t) == Start(if isNew then ks + [KeyOf(job)] else ks, lib.maxLength)
  {
    var isNew := TableOf(job) == t && Stores(lib, job, f) && KeyOf(job) !in ks;
    if isNew {
      assert KeysReadable(lib, IndexOf(m, t));
      assert Indexes(lib, m, t, f) <==> |ks| < lib.maxLength;
      StartAppend(ks, KeyOf(job), lib.maxLength);
    } else {
      assert IndexOf(Save(lib, m, job, f).0, t) == IndexOf(m, t);
    }
  }

  lemma StartAppend(ks: seq<Key>, k: Key, n: nat)
    ensures Start(ks + [k], n) == if |ks| < n then Start(ks, n) + [k] else Start(ks, n)
  {
  }

  // ---------------------------------------------------------------- a full index list

  /** The first saves of the expiry records 0, 1, ..., n - 1. */
  function ExpireSave(i: nat): Op
    requires i < TWO_63
  {
    SaveOp(ExpireJob(ShardExpireInfo(i, [], 0)), NoFaults)
  }

  function ExpireSaves(n: nat): (ops: seq<Op>)
    requires n <= TWO_63
    ensures |ops| == n
  {
    seq(n, i requires 0 <= i < n => ExpireSave(i))
  }

  lemma {:induction false} ExpireSavesStored(lib: Lib, n: nat)
    requires Sane(lib) && n <= TWO_63
    ensures var ks := FirstStored(lib, ExpireSaves(n), Expires); |ks| == n && forall i :: 0 <= i < n ==> ks[i] == ExpireKey(i)
  {
    if n > 0 {
      var ops, op := ExpireSaves(n), ExpireSave(n - 1);
      ExpireSavesStored(lib, n - 1);
      assert ops[..n - 1] == ExpireSaves(n - 1) && ops[n - 1] == op;
      ExpireFits(lib, op.job.expire);
      var before := FirstStored(lib, ops[..n - 1], Expires);
      assert ExpireKey(n - 1) !in before;
      assert FirstStored(lib, ops, Expires) == before + [ExpireKey(n - 1)];
    }
  }

  lemma ExpireSavesUntroubled(lib: Lib, n: nat)
    requires Sane(lib) && n <= TWO_63
    ensures forall i :: 0 <= i < n ==> Untroubled(lib, ExpireSaves(n)[i])
  {
    forall i | 0 <= i < n ensures Untroubled(lib, ExpireSaves(n)[i]) {
      var job := ExpireSave(i).job;
      ExpireFits(lib, job.expire);
      JobKeyFits(lib, job);
      KeyReadableExactly(lib, KeyOf(job));
    }
  }

  /** A first save into a full list stores its record and reports an error. */
  lemma FullIndexRefuses(lib: Lib, m: Tables, job: Job, f: Faults)
    requires Stores(lib, job, f) && KeyOf(job) !in m.jobs && |IndexOf(m, TableOf(job))| >= lib.maxLength
    ensures var (m', ok) := Save(lib, m, job, f);
      !ok && KeyOf(job) in m'.jobs && IndexOf(m', TableOf(job)) == IndexOf(m, TableOf(job))
  {
  }

  /** One save more than the limit: its record is stored, the save reports an error, and the key is not listed. */
  lemma FullIndexLosesKey(lib: Lib)
    requires Sane(lib)
    ensures var n: nat := lib.maxLength; var (m, outs) := Run(lib, Empty, ExpireSaves(n + 1));
      outs[n] == Saved(false) && ExpireKey(n) in m.jobs && ExpireKey(n) !in IndexOf(m, Expires)
  {
    var n: nat := lib.maxLength;
    var ops := ExpireSaves(n + 1);
    assert ops[..n] == ExpireSaves(n) && ops[n] == ExpireSave(n);
    FullIndexBefore(lib, n);
    ExpireFits(lib, ExpireSave(n).job.expire);
    FullIndexRefuses(lib, Run(lib, Empty, ExpireSaves(n)).0, ExpireSave(n).job, NoFaults);
    RunStep(lib, ops);
  }

  lemma FullIndexBefore(lib: Lib, n: nat)
    requires Sane(lib) && n == lib.maxLength
    ensures var m := Run(lib, Empty, ExpireSaves(n)).0;
      |IndexOf(m, Expires)| == n && ExpireKey(n) !in m.jobs && ExpireKey(n) !in IndexOf(m, Expires)
  {
    ExpireSavesStored(lib, n);
    ExpireSavesUntroubled(lib, n);
    UntroubledPrefix(lib, ExpireSaves(n), Expires);
    FirstStoredIsStored(lib, ExpireSaves(n), Expires);
    assert ExpireKey(n) !in FirstStored(lib, ExpireSaves(n), Expires);
  }

  // ---------------------------------------------------------------- an unreadable key

  /** A shard with a CID of 512 bytes or more is saved and listed without an error, and then the shard index is lost. */
  lemma OversizedShardListed(lib: Lib, m: Tables, s: ShardInfo, f: Faults)
    requires Sane(lib) && TablesOk(lib, m) && |s.cid| >= CID_MAX
    requires Stores(lib, ShardJob(s), f) && KeyOf(ShardJob(s)) !in m.jobs && Indexes(lib, m, Shards, f)
    ensures var (m', ok) := Save(lib, m, ShardJob(s), f); var k := KeyOf(ShardJob(s));
      ok && k in IndexOf(m', Shards) && !KeyReadable(lib, k) && GetIndex(lib, m', Shards, NoFaults) == None
  {
    JobKeyFits(lib, ShardJob(s));
    KeyReadableExactly(lib, KeyOf(ShardJob(s)));
  }

  ghost predicate Frozen(lib: Lib, m: Tables, t: Table) { t in m.index && !KeysReadable(lib, m.index[t]) }

  lemma FrozenStep(lib: Lib, m: Tables, op: Op, t: Table)
    requires Frozen(lib, m, t)
    ensures var m' := Step(lib, m, op).0; t in m'.index && m'.index[t] == m.index[t]
  {
  }

  /** From then on the list of the table is never read or changed again, whatever is saved. */
  lemma {:induction false} UnreadableKeyFreezes(lib: Lib, ops: seq<Op>, i: nat, k: Key)
    requires i <= |ops| && k in IndexOf(Run(lib, Empty, ops[..i]).0, KeyTable(k)) && !KeyReadable(lib, k)
    ensures var m := Run(lib, Empty, ops).0;
      && IndexOf(m, KeyTable(k)) == IndexOf(Run(lib, Empty, ops[..i]).0, KeyTable(k))
      && Frozen(lib, m, KeyTable(k)) && forall f :: GetIndex(lib, m, KeyTable(k), f) == None
    decreases |ops|
  {
    if i == |ops| {
      assert ops[..i] == ops;
    } else {
      var init := ops[..|ops| - 1];
      assert init[..i] == ops[..i];
      UnreadableKeyFreezes(lib, init, i, k);
      RunStep(lib, ops);
      FrozenStep(lib, Run(lib, Empty, init).0, ops[|ops| - 1], KeyTable(k));
    }
  }

  // ---------------------------------------------------------------- removed expiry ids

  /**
   A RemoveShardExpireIndex that finds the id with a record takes it off the list for good, whatever follows; and every
   listed id has a record.
   */
  lemma RemovedStaysRemoved(lib: Lib, ops: seq<Op>, i: nat, id: U64)
    requires i < |ops| && ops[i].RemoveOp? && ops[i].id == id && !RemoveFails(lib, ops[..i], ops[i].f)
    requires LastStored(lib, ops[..i], ExpireKey(id)).Some?
    ensures ExpireKey(id) !in IndexOf(Run(lib, Empty, ops).0, Expires)
    ensures forall k :: k in IndexOf(Run(lib, Empty, ops).0, Expires) ==> k in Run(lib, Empty, ops).0.jobs
  {
    var now := ops[..i + 1];
    assert now[..i] == ops[..i] && now[i] == ops[i];
    StoredIsLast(lib, ops[..i], ExpireKey(id));
    FirstStoredIsStored(lib, ops[..i], Expires);
    HistoryAfterRemove(lib, now, Expires);
    UnlistedGrows(lib, ops, i + 1);
    IndexIsFirstSaveOrder(lib, ops, Expires);
    FirstStoredIsStored(lib, ops, Expires);
  }

  /** A continuation that lists the id: first some room is made, if there is none. */
  function Relisting(m: Tables, id: U64, limit: nat): seq<Op> {
    var ks := IndexOf(m, Expires);
    (if |ks| >= limit && |ks| > 0 && ks[0].ExpireKey? then [RemoveOp(ks[0].shardId, NoFaults)] else [])
    + [SaveOp(ExpireJob(ShardExpireInfo(id, [], 0)), NoFaults)]
  }

  lemma RunAppend(lib: Lib, ops: seq<Op>, op: Op)
    ensures Run(lib, Empty, ops + [op]).0 == Step(lib, Run(lib, Empty, ops).0, op).0
  {
    assert (ops + [op])[..|ops|] == ops;
    RunStep(lib, ops + [op]);
  }

  lemma SaveLists(lib: Lib, m: Tables, id: U64)
    requires Sane(lib) && TablesOk(lib, m) && ExpireKey(id) !in m.jobs && |IndexOf(m, Expires)| < lib.maxLength
    ensures ExpireKey(id) in IndexOf(Step(lib, m, SaveOp(ExpireJob(ShardExpireInfo(id, [], 0)), NoFaults)).0, Expires)
  {
    ExpireFits(lib, ShardExpireInfo(id, [], 0));
    ListedReadable(lib, m, Expires);
    assert Expires in m.index ==> ListsStored(m.jobs, Expires, m.index[Expires]);
    assert KeysReadable(lib, IndexOf(m, Expires));
    var k := ExpireKey(id);
    assert (IndexOf(m, Expires) + [k])[|IndexOf(m, Expires)|] == k;
  }

  lemma NoRecordRelists(lib: Lib, ops: seq<Op>, id: U64)
    requires Sane(lib) && ExpireKey(id) !in Run(lib, Empty, ops).0.jobs
    ensures ExpireKey(id) in IndexOf(Run(lib, Empty, ops + Relisting(Run(lib, Empty, ops).0, id, lib.maxLength)).0, Expires)
  {
    var m := Run(lib, Empty, ops).0;
    var ks, save := IndexOf(m, Expires), SaveOp(ExpireJob(ShardExpireInfo(id, [], 0)), NoFaults);
    RunTablesOk(lib, ops);
    if |ks| < lib.maxLength {
      SaveLists(lib, m, id);
      RunAppend(lib, ops, save);
      assert ops + Relisting(m, id, lib.maxLength) == ops + [save];
    } else {
      assert KeyTable(ks[0]) == Expires;
      var room := RemoveOp(ks[0].shardId, NoFaults);
      ExpireIndexReadable(lib, ops);
      RunAppend(lib, ops, room);
      RunTablesOk(lib, ops + [room]);
      SaveLists(lib, Run(lib, Empty, ops + [room]).0, id);
      RunAppend(lib, ops + [room], save);
      assert ops + Relisting(m, id, lib.maxLength) == ops + [room] + [save];
    }
  }

  /** A removal is final, whatever follows, exactly if the id has a record when it is removed. */
  lemma RemovalFinalExactly(lib: Lib, ops: seq<Op>, id: U64, f: Faults)
    requires Sane(lib) && !RemoveFails(lib, ops, f)
    ensures (forall more :: ExpireKey(id) !in IndexOf(Run(lib, Empty, ops + [RemoveOp(id, f)] + more).0, Expires))
       <==> LastStored(lib, ops, ExpireKey(id)).Some?
  {
    var now := ops + [RemoveOp(id, f)];
    StoredIsLast(lib, ops, ExpireKey(id));
    if LastStored(lib, ops, ExpireKey(id)).Some? {
      forall more ensures ExpireKey(id) !in IndexOf(Run(lib, Empty, now + more).0, Expires) {
        assert (now + more)[..|ops|] == ops;
        RemovedStaysRemoved(lib, now + more, |ops|, id);
      }
    } else {
      RunAppend(lib, ops, RemoveOp(id, f));
      NoRecordRelists(lib, now, id);
    }
  }
}
