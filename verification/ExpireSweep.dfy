/**
 The daily sweep of expired shards (StoreSvc.processExpire): local expiry entries whose shard is no longer on the chain
 lose their content, unless a shard on the chain still needs it, and their place in the expiry index.
 */
module ExpireSweep {
  import opened Basics
  import opened Records
  import opened Keys
  import opened JobTables
  import opened JobHistory
  import opened JobIndex
  import opened JobStore
  import opened Codec
  import opened Cbor
  import opened Wire
  import opened Limits

  datatype ChainShard = ChainShard(id: U64, cid: Text)

  /** The answer of storeManager.Remove; "not pinned" counts as gone. */
  datatype RemoveAnswer = Gone | NotPinned | Failed

  /** What goes wrong while one index entry is handled. */
  datatype Trouble = Trouble(record: Faults, remove: RemoveAnswer, index: Faults, getShard: Faults, saveShard: Faults)

  const SHARD_EXPIRED: U64 := 5

  datatype Sweep = Sweep(chain: seq<ChainShard>, parse: Text -> Option<Cid>, trouble: nat -> Trouble)

  predicate OnChain(w: Sweep, k: Key) {
    k.ExpireKey? && exists j :: 0 <= j < |w.chain| && w.chain[j].id == k.shardId
  }

  predicate CidOnChain(w: Sweep, cid: Text) {
    exists j :: 0 <= j < |w.chain| && w.chain[j].cid == cid
  }

  /** Entry `i` of the index list is off the chain, and its stored record is read. */
  ghost predicate Examined(w: Sweep, m: Tables, ks: seq<Key>, i: nat) {
    && i < |ks| && !OnChain(w, ks[i])
    && ks[i] in m.jobs && m.jobs[ks[i]].ExpireJob?
    && !w.trouble(i).record.has && !w.trouble(i).record.get
  }

  ghost function CidText(m: Tables, k: Key): Text
    requires k in m.jobs && m.jobs[k].ExpireJob?
  {
    m.jobs[k].expire.cid
  }

  /** Its content is handed to storeManager.Remove: no shard on the chain has its CID's text, which parses. */
  ghost predicate Asks(w: Sweep, m: Tables, ks: seq<Key>, i: nat) {
    Examined(w, m, ks, i) && !CidOnChain(w, CidText(m, ks[i])) && w.parse(CidText(m, ks[i])).Some?
  }

  /** It is handled to the point where it leaves the index. */
  ghost predicate Cleared(w: Sweep, m: Tables, ks: seq<Key>, i: nat) {
    var tr := w.trouble(i);
    && Examined(w, m, ks, i)
    && (CidOnChain(w, CidText(m, ks[i])) || (w.parse(CidText(m, ks[i])).Some? && tr.remove != Failed))
    && !tr.index.indexHas && !tr.index.indexGet && !tr.index.indexPut
  }

  /** The contents handed over for the first `n` entries: the text of the CID in the record, and what it parses to. */
  ghost function Asked(w: Sweep, m: Tables, ks: seq<Key>, n: nat): seq<(Text, Cid)> {
    if n == 0 then []
    else
      Asked(w, m, ks, n - 1)
      + if Asks(w, m, ks, n - 1) then [(CidText(m, ks[n - 1]), w.parse(CidText(m, ks[n - 1])).value)] else []
  }

  ghost function Dropped(w: Sweep, m: Tables, ks: seq<Key>, n: nat): set<Key>
    requires n <= |ks|
  {
    set i | 0 <= i < n && Cleared(w, m, ks, i) :: ks[i]
  }

  /** Besides the expiry index, the sweep changes only the state of stored shards. */
  ghost predicate OnlyShardStates(m: Tables, m': Tables) {
    && m'.jobs.Keys == m.jobs.Keys
    && (forall k :: k in m.jobs && !k.ShardKey? ==> m'.jobs[k] == m.jobs[k])
    && (forall k :: k in m.jobs && k.ShardKey? ==>
          m'.jobs[k] == m.jobs[k]
          || (m.jobs[k].ShardJob? && m'.jobs[k] == ShardJob(m.jobs[k].shard.(state := SHARD_EXPIRED))))
    && (forall t :: t != Expires ==> IndexOf(m', t) == IndexOf(m, t))
  }

  /** The shard with its state set to Expired (5). */
  function AsExpired(job: Job): Job { if job.ShardJob? then ShardJob(job.shard.(state := 5)) else job }

  /** The local shard can be read and saved, if there is one. */
  ghost predicate CanMark(lib: Lib, m: Tables, k: Key, tr: Trouble) {
    && k in m.jobs && JobReadable(lib, m.jobs[k])
    && !tr.getShard.has && !tr.getShard.get && !tr.saveShard.has && !tr.saveShard.put
  }

  ghost function ShardOf(w: Sweep, m: Tables, k: Key): Option<Key>
    requires k in m.jobs && m.jobs[k].ExpireJob?
  {
    match w.parse(CidText(m, k))
    case None => None
    case Some(c) => Some(ShardKey(m.jobs[k].expire.orderId, c))
  }

  /** Entry `i` is cleared, and its local shard is marked as expired. */
  ghost predicate Marks(lib: Lib, w: Sweep, m: Tables, ks: seq<Key>, i: nat) {
    && Cleared(w, m, ks, i) && ShardOf(w, m, ks[i]).Some?
    && CanMark(lib, m, ShardOf(w, m, ks[i]).value, w.trouble(i))
  }

  ghost function Marked(lib: Lib, w: Sweep, m: Tables, ks: seq<Key>, n: nat): set<Key> {
    if n == 0 then {}
    else Marked(lib, w, m, ks, n - 1) + if Marks(lib, w, m, ks, n - 1) then {ShardOf(w, m, ks[n - 1]).value} else {}
  }

  ghost function MarkedJobs(jobs: map<Key, Job>, marked: set<Key>): map<Key, Job> {
    map k | k in jobs :: if k in marked then AsExpired(jobs[k]) else jobs[k]
  }

  /** All shards and expiry records have names of their own in the store. */
  ghost predicate NamesShards(names: Slot -> bool) {
    forall k: Key :: k.ShardKey? || k.ExpireKey? ==> names(Record(k))
  }

  /** A shard without a CID cannot be written. */
  lemma UndefinedCidUnfit(lib: Lib, s: ShardInfo)
    ensures JobFits(lib, ShardJob(s)) ==> s.cid != []
  {
    var vals := ToStruct(ShardJob(s));
    ShardHasSchema(s);
    assert ShardSchema.fields[2].kind == KCid && vals[2] == VCid(s.cid);
    assert StructFits(lib, ShardSchema, vals) ==> Fits(lib, ShardSchema.fields[2].kind, vals[2]);
  }

  /** The state of a shard is a number; it has no part in the limits. */
  lemma StateHasNoLimit(lib: Lib, s: ShardInfo, state: U64)
    requires Sane(lib)
    ensures JobFits(lib, ShardJob(s.(state := state))) <==> JobFits(lib, ShardJob(s))
    ensures JobReadable(lib, ShardJob(s.(state := state))) <==> JobReadable(lib, ShardJob(s))
  {
    LimitsExactly(lib, ShardJob(s));
    LimitsExactly(lib, ShardJob(s.(state := state)));
    SameLimits(lib, ShardItems(s), ShardItems(s.(state := state)));
  }

  lemma SameLimits(lib: Lib, a: seq<Item>, b: seq<Item>)
    requires |a| == |b| && forall i :: 0 <= i < |a| ==> a[i] == b[i] || (a[i].Uint? && b[i].Uint?)
    ensures AllFit(lib, a) <==> AllFit(lib, b)
    ensures AllReadable(lib, a) <==> AllReadable(lib, b)
  {
    assert forall i :: 0 <= i < |a| ==> (ItemFits(lib, b[i]) <==> ItemFits(lib, a[i]));
    assert forall i :: 0 <= i < |a| ==> (ItemReadable(lib, b[i]) <==> ItemReadable(lib, a[i]));
  }

  /** The tail of the loop body: the local shard, if there is one, is marked as expired. */
  method MarkExpired(store: Store, info: ShardExpireInfo, c: Cid, tr: Trouble)
    requires store.Valid() && NamesShards(store.names)
    modifies store
    ensures store.Valid() && store.tables.index == old(store.tables).index
    ensures var m, key := old(store.tables), ShardKey(info.orderId, c);
      store.tables.jobs == if CanMark(store.lib, m, key, tr) then m.jobs[key := AsExpired(m.jobs[key])] else m.jobs
  {
    var key := ShardKey(info.orderId, c);
    var sf := store.Get(key, tr.getShard);
    if sf.None? { return; }
    if key in store.tables.jobs {
      assert Kept(store.lib, key, store.tables.jobs[key]);
      StateHasNoLimit(store.lib, sf.value.shard, SHARD_EXPIRED);
    } else {
      UndefinedCidUnfit(store.lib, sf.value.shard.(state := SHARD_EXPIRED));
    }
    var ok := store.Save(ShardJob(sf.value.shard.(state := SHARD_EXPIRED)), tr.saveShard);
  }

  lemma OnlyShardStatesTransitive(a: Tables, b: Tables, c: Tables)
    requires OnlyShardStates(a, b) && OnlyShardStates(b, c)
    ensures OnlyShardStates(a, c)
  {
  }

  lemma ExpireRecordRead(lib: Lib, m: Tables, k: Key, f: Faults)
    requires Sane(lib) && TablesOk(lib, m) && k in m.jobs && k.ExpireKey?
    ensures m.jobs[k].ExpireJob? && JobTables.Get(lib, m, k, f) == if f.has || f.get then None else Some(m.jobs[k])
  {
    assert Kept(lib, k, m.jobs[k]);
    ExpireReadable(lib, m.jobs[k].expire);
  }

  lemma ExpireListRead(lib: Lib, m: Tables, f: Faults)
    requires Sane(lib) && TablesOk(lib, m) && Expires in m.index
    ensures JobTables.GetIndex(lib, m, Expires, f).None? <==> f.indexHas || f.indexGet
  {
    ListedReadable(lib, m, Expires);
    assert ListsStored(m.jobs, Expires, m.index[Expires]);
    assert KeysReadable(lib, IndexOf(m, Expires));
  }

  /** The loop body for entry `i` of the index list `ks`; `asked` is what it hands to storeManager.Remove. */
  method SweepEntry(store: Store, w: Sweep, ks: seq<Key>, i: nat) returns (asked: seq<(Text, Cid)>)
    requires store.Valid() && NamesShards(store.names)
    requires i < |ks| && ks[i] in store.tables.jobs && ks[i].ExpireKey? && Expires in store.tables.index
    modifies store
    ensures store.Valid() && OnlyShardStates(old(store.tables), store.tables) && Expires in store.tables.index
    ensures asked == if Asks(w, old(store.tables), ks, i)
                     then [(CidText(old(store.tables), ks[i]), w.parse(CidText(old(store.tables), ks[i])).value)] else []
    ensures var ix := IndexOf(old(store.tables), Expires);
      IndexOf(store.tables, Expires) == if Cleared(w, old(store.tables), ks, i) then Without(ix, ks[i]) else ix
    ensures var m := old(store.tables);
      store.tables.jobs == if Marks(store.lib, w, m, ks, i)
                           then m.jobs[ShardOf(w, m, ks[i]).value := AsExpired(m.jobs[ShardOf(w, m, ks[i]).value])] else m.jobs
  {
    asked := [];
    if OnChain(w, ks[i]) { return; }
    var tr := w.trouble(i);
    ExpireRecordRead(store.lib, store.tables, ks[i], tr.record);
    ExpireListRead(store.lib, store.tables, tr.index);
    var rec := store.Get(ks[i], tr.record);
    if rec.None? { return; }
    var info := rec.value.expire;
    if !CidOnChain(w, info.cid) {
      if w.parse(info.cid).None? { return; }
      asked := [(info.cid, w.parse(info.cid).value)];
      if tr.remove == Failed { return; }
    }
    var ok := store.RemoveExpire(ks[i].shardId, tr.index);
    if !ok { return; }
    if w.parse(info.cid).None? { return; }
    MarkExpired(store, info, w.parse(info.cid).value, tr);
    ShardStaysShard(store.lib, old(store.tables), ShardKey(info.orderId, w.parse(info.cid).value));
  }

  lemma ShardStaysShard(lib: Lib, m: Tables, k: Key)
    requires TablesOk(lib, m) && k.ShardKey?
    ensures k in m.jobs ==> m.jobs[k].ShardJob?
  {
    if k in m.jobs { assert Kept(lib, k, m.jobs[k]); }
  }

  lemma AfterEntry(w: Sweep, m: Tables, before: Tables, ks: seq<Key>, i: nat)
    requires i < |ks| && ks[i].ExpireKey? && NoDup(ks) && OnlyShardStates(m, before)
    ensures var ix := Keep(ks, Dropped(w, m, ks, i));
      Keep(ks, Dropped(w, m, ks, i + 1)) == if Cleared(w, before, ks, i) then Without(ix, ks[i]) else ix
    ensures Asks(w, before, ks, i) == Asks(w, m, ks, i)
    ensures Asks(w, m, ks, i) ==> CidText(before, ks[i]) == CidText(m, ks[i])
  {
    assert Cleared(w, before, ks, i) == Cleared(w, m, ks, i);
    DroppedStep(w, m, ks, i);
    WithoutIsKeep(ks, Dropped(w, m, ks, i), ks[i]);
  }

  /** One more entry, seen from the start of the sweep: what is marked by then. */
  lemma AfterMark(lib: Lib, w: Sweep, m: Tables, before: Tables, ks: seq<Key>, i: nat)
    requires Sane(lib) && i < |ks| && ks[i].ExpireKey? && ks[i] in m.jobs && OnlyShardStates(m, before)
    requires before.jobs == MarkedJobs(m.jobs, Marked(lib, w, m, ks, i)) && TablesOk(lib, m)
    ensures MarkedJobs(m.jobs, Marked(lib, w, m, ks, i + 1))
         == if Marks(lib, w, before, ks, i)
            then before.jobs[ShardOf(w, before, ks[i]).value := AsExpired(before.jobs[ShardOf(w, before, ks[i]).value])]
            else before.jobs
  {
    assert Cleared(w, before, ks, i) == Cleared(w, m, ks, i);
    if Cleared(w, m, ks, i) && ShardOf(w, m, ks[i]).Some? {
      var k := ShardOf(w, m, ks[i]).value;
      ShardStaysShard(lib, m, k);
      if k in m.jobs { StateHasNoLimit(lib, m.jobs[k].shard, 5); }
      assert CanMark(lib, before, k, w.trouble(i)) == CanMark(lib, m, k, w.trouble(i));
    }
  }

  /**
   One sweep. The expiry index ends up as it was, less exactly the cleared entries, so only off-chain ids go, whatever
   fails; and exactly the contents of the entries that ask for it are handed over for removal, in the order of the index.
   */
  method ProcessExpire(store: Store, w: Sweep, f: Faults) returns (log: seq<(Text, Cid)>)
    requires store.Valid() && NamesShards(store.names) && NoDup(IndexOf(store.tables, Expires))
    modifies store
    ensures store.Valid() && OnlyShardStates(old(store.tables), store.tables)
    ensures var m, ks := old(store.tables), IndexOf(old(store.tables), Expires);
      if JobTables.GetIndex(store.lib, m, Expires, f).None?
      then log == [] && IndexOf(store.tables, Expires) == ks && store.tables.jobs == m.jobs
      else
        && log == Asked(w, m, ks, |ks|) && IndexOf(store.tables, Expires) == Keep(ks, Dropped(w, m, ks, |ks|))
        && store.tables.jobs == MarkedJobs(m.jobs, Marked(store.lib, w, m, ks, |ks|))
  {
    var index := store.GetIndex(Expires, f);
    if index.None? { return []; }
    KeepAll(index.value, {});
    assert Dropped(w, store.tables, index.value, 0) == {};
    log := SweepAll(store, w, store.tables, index.value);
  }

  method SweepAll(store: Store, w: Sweep, ghost m: Tables, ks: seq<Key>) returns (log: seq<(Text, Cid)>)
    requires store.Valid() && NamesShards(store.names) && m == store.tables && ks == IndexOf(m, Expires) && NoDup(ks)
    requires ks == Keep(ks, Dropped(w, m, ks, 0))
    modifies store
    ensures store.Valid() && OnlyShardStates(m, store.tables) && log == Asked(w, m, ks, |ks|)
    ensures IndexOf(store.tables, Expires) == Keep(ks, Dropped(w, m, ks, |ks|))
    ensures store.tables.jobs == MarkedJobs(m.jobs, Marked(store.lib, w, m, ks, |ks|))
  {
    log := [];
    assert m.jobs == MarkedJobs(m.jobs, {});
    for i := 0 to |ks|
      invariant store.Valid() && OnlyShardStates(m, store.tables) && log == Asked(w, m, ks, i)
      invariant IndexOf(store.tables, Expires) == Keep(ks, Dropped(w, m, ks, i))
      invariant store.tables.jobs == MarkedJobs(m.jobs, Marked(store.lib, w, m, ks, i)) && TablesOk(store.lib, m)
      invariant ks != [] ==> Expires in store.tables.index && ListsStored(m.jobs, Expires, ks)
    {
      var asked := SweepNext(store, w, m, ks, i);
      log := log + asked;
    }
  }

  /** One turn of the loop, seen from the tables `m` at the start of the sweep. */
  method SweepNext(store: Store, w: Sweep, ghost m: Tables, ks: seq<Key>, i: nat) returns (asked: seq<(Text, Cid)>)
    requires store.Valid() && NamesShards(store.names) && OnlyShardStates(m, store.tables) && i < |ks| && NoDup(ks)
    requires ListsStored(m.jobs, Expires, ks) && Expires in store.tables.index
    requires IndexOf(store.tables, Expires) == Keep(ks, Dropped(w, m, ks, i))
    requires store.tables.jobs == MarkedJobs(m.jobs, Marked(store.lib, w, m, ks, i)) && TablesOk(store.lib, m)
    modifies store
    ensures store.Valid() && OnlyShardStates(m, store.tables) && Expires in store.tables.index
    ensures Asked(w, m, ks, i) + asked == Asked(w, m, ks, i + 1)
    ensures IndexOf(store.tables, Expires) == Keep(ks, Dropped(w, m, ks, i + 1))
    ensures store.tables.jobs == MarkedJobs(m.jobs, Marked(store.lib, w, m, ks, i + 1))
  {
    assert KeyTable(ks[i]) == Expires && ks[i] in m.jobs;
    AfterEntry(w, m, store.tables, ks, i);
    AfterMark(store.lib, w, m, store.tables, ks, i);
    ghost var before := store.tables;
    asked := SweepEntry(store, w, ks, i);
    OnlyShardStatesTransitive(m, before, store.tables);
  }

  lemma DroppedStep(w: Sweep, m: Tables, ks: seq<Key>, i: nat)
    requires i < |ks|
    ensures Dropped(w, m, ks, i + 1) == if Cleared(w, m, ks, i) then Dropped(w, m, ks, i) + {ks[i]} else Dropped(w, m, ks, i)
  {
  }

  /** Nothing fails while the entries are handled, and the text in each record is that of a CID. */
  ghost predicate Smooth(w: Sweep, m: Tables, ks: seq<Key>) {
    forall i :: 0 <= i < |ks| ==>
      && ks[i] in m.jobs && m.jobs[ks[i]].ExpireJob? && w.parse(CidText(m, ks[i])).Some?
      && w.trouble(i) == Trouble(NoFaults, w.trouble(i).remove, NoFaults, w.trouble(i).getShard, w.trouble(i).saveShard)
      && w.trouble(i).remove != Failed
  }

  /**
   What is left of the index: only what was there, and every on-chain id, whatever fails. If nothing fails, exactly the
   off-chain ids are dropped, so the on-chain ids are left in their order.
   */
  lemma SweepLeavesOnChain(w: Sweep, m: Tables, ks: seq<Key>)
    ensures forall k :: k in Keep(ks, Dropped(w, m, ks, |ks|)) ==> k in ks
    ensures forall k :: k in ks && OnChain(w, k) ==> k in Keep(ks, Dropped(w, m, ks, |ks|))
    ensures Smooth(w, m, ks) ==> Dropped(w, m, ks, |ks|) == set k | k in ks && !OnChain(w, k)
  {
    if Smooth(w, m, ks) {
      forall k | k in ks && !OnChain(w, k) ensures k in Dropped(w, m, ks, |ks|) {
        var i :| 0 <= i < |ks| && ks[i] == k;
        assert Cleared(w, m, ks, i);
      }
    }
  }

  /**
   An entry stays in the index exactly if its id is on the chain, its record could not be read, its content was still to be
   removed and could not be, or the index could not be read or written.
   */
  lemma EntryStaysExactly(w: Sweep, m: Tables, ks: seq<Key>, i: nat)
    requires NoDup(ks) && i < |ks| && ks[i] in m.jobs && m.jobs[ks[i]].ExpireJob?
    ensures var tr, text := w.trouble(i), m.jobs[ks[i]].expire.cid;
      ks[i] in Keep(ks, Dropped(w, m, ks, |ks|)) <==>
        || OnChain(w, ks[i]) || tr.record.has || tr.record.get
        || (!CidOnChain(w, text) && (w.parse(text).None? || tr.remove == Failed))
        || tr.index.indexHas || tr.index.indexGet || tr.index.indexPut
  {
    assert ks[i] in Dropped(w, m, ks, |ks|) <==> Cleared(w, m, ks, i) by {
      if ks[i] in Dropped(w, m, ks, |ks|) {
        var j :| 0 <= j < |ks| && Cleared(w, m, ks, j) && ks[j] == ks[i];
        assert j == i;
      }
    }
  }

  lemma {:induction false} MarkedGrows(lib: Lib, w: Sweep, m: Tables, ks: seq<Key>, i: nat, n: nat)
    requires i <= n
    ensures Marked(lib, w, m, ks, i) <= Marked(lib, w, m, ks, n)
  {
    if i < n { MarkedGrows(lib, w, m, ks, i, n - 1); }
  }

  /** The local shard of an entry that is cleared ends up Expired (5), if it can be read and saved. */
  lemma ClearedShardExpires(lib: Lib, w: Sweep, m: Tables, ks: seq<Key>, i: nat, c: Cid)
    requires TablesOk(lib, m) && i < |ks| && Cleared(w, m, ks, i) && w.parse(CidText(m, ks[i])) == Some(c)
    requires var k := ShardKey(m.jobs[ks[i]].expire.orderId, c); k in m.jobs && JobReadable(lib, m.jobs[k])
    requires w.trouble(i).getShard == NoFaults && w.trouble(i).saveShard == NoFaults
    ensures var k, jobs := ShardKey(m.jobs[ks[i]].expire.orderId, c), MarkedJobs(m.jobs, Marked(lib, w, m, ks, |ks|));
      k in jobs && m.jobs[k].ShardJob? && jobs[k] == ShardJob(m.jobs[k].shard.(state := 5))
  {
    var k := ShardKey(m.jobs[ks[i]].expire.orderId, c);
    ShardStaysShard(lib, m, k);
    assert Marks(lib, w, m, ks, i);
    assert k in Marked(lib, w, m, ks, i + 1);
    MarkedGrows(lib, w, m, ks, i + 1, |ks|);
  }

  // ---------------------------------------------------------------- contents on the chain

  lemma {:induction false} AskedExactly(w: Sweep, m: Tables, ks: seq<Key>, n: nat, c: Cid)
    ensures (exists x :: x in Asked(w, m, ks, n) && x.1 == c)
       <==> exists i :: 0 <= i < n && Asks(w, m, ks, i) && w.parse(CidText(m, ks[i])) == Some(c)
  {
    if n > 0 {
      AskedExactly(w, m, ks, n - 1, c);
      var before, all := Asked(w, m, ks, n - 1), Asked(w, m, ks, n);
      assert forall x :: x in before ==> x in all;
      if Asks(w, m, ks, n - 1) {
        var x := (CidText(m, ks[n - 1]), w.parse(CidText(m, ks[n - 1])).value);
        assert all == before + [x];
        assert x in all;
      } else {
        assert all == before;
      }
    }
  }

  /** The record's text is not the text of any shard on the chain, and yet it names the same content as one. */
  predicate Alias(w: Sweep, text: Text, onChain: Text) {
    !CidOnChain(w, text) && w.parse(text).Some? && w.parse(text) == w.parse(onChain)
  }

  /**
   The content of a shard on the chain is handed over for removal exactly when the record of an off-chain entry names the
   same CID by a text that no shard on the chain has.
   */
  lemma ChainContentAskedExactly(w: Sweep, m: Tables, ks: seq<Key>, j: nat)
    requires j < |w.chain|
    ensures (exists x :: x in Asked(w, m, ks, |ks|) && w.parse(w.chain[j].cid) == Some(x.1))
       <==> exists i: nat :: Examined(w, m, ks, i) && Alias(w, CidText(m, ks[i]), w.chain[j].cid)
  {
    match w.parse(w.chain[j].cid)
    case None =>
    case Some(c) =>
      AskedExactly(w, m, ks, |ks|, c);
      if x :| x in Asked(w, m, ks, |ks|) && w.parse(w.chain[j].cid) == Some(x.1) {
        assert x.1 == c;
        var i :| 0 <= i < |ks| && Asks(w, m, ks, i) && w.parse(CidText(m, ks[i])) == Some(c);
        assert Examined(w, m, ks, i) && Alias(w, CidText(m, ks[i]), w.chain[j].cid);
      }
      if i: nat :| Examined(w, m, ks, i) && Alias(w, CidText(m, ks[i]), w.chain[j].cid) {
        assert 0 <= i < |ks| && Asks(w, m, ks, i) && w.parse(CidText(m, ks[i])) == Some(c);
        var x :| x in Asked(w, m, ks, |ks|) && x.1 == c;
      }
  }

  /** So no content of the chain is handed over if every CID has one text only. */
  lemma OneTextSparesChain(w: Sweep, m: Tables, ks: seq<Key>, j: nat)
    requires j < |w.chain|
    requires forall i: nat :: Examined(w, m, ks, i) && w.parse(CidText(m, ks[i])) == w.parse(w.chain[j].cid) ==>
      CidText(m, ks[i]) == w.chain[j].cid
    ensures forall x :: x in Asked(w, m, ks, |ks|) ==> w.parse(w.chain[j].cid) != Some(x.1)
  {
    ChainContentAskedExactly(w, m, ks, j);
  }

  /** But the path form of a CID parses to the same content, and then the content of the shard on the chain goes. */
  lemma PathTextRemovesChainContent(lib: Lib, w: Sweep, c: Cid)
    requires Sane(lib) && w.chain == [ChainShard(1, "c")] && w.parse("c") == w.parse("/ipfs/c") == Some(c)
    requires !w.trouble(0).record.has && !w.trouble(0).record.get
    ensures var m := Run(lib, Empty, [SaveOp(ExpireJob(ShardExpireInfo(2, "/ipfs/c", 7)), NoFaults)]).0;
      var ks := IndexOf(m, Expires);
      ks == [ExpireKey(2)] && Asked(w, m, ks, |ks|) == [("/ipfs/c", c)] && w.parse(w.chain[0].cid) == Some(c)
  {
    var op := SaveOp(ExpireJob(ShardExpireInfo(2, "/ipfs/c", 7)), NoFaults);
    ExpireFits(lib, op.job.expire);
    assert [] + [op] == [op];
    RunAppend(lib, [], op);
    var m := Run(lib, Empty, [op]).0;
    assert IndexOf(m, Expires) == [] + [ExpireKey(2)];
    assert w.chain[0].cid != "/ipfs/c";
    assert Asks(w, m, [ExpireKey(2)], 0);
    assert Asked(w, m, [ExpireKey(2)], 1) == Asked(w, m, [ExpireKey(2)], 0) + [("/ipfs/c", c)];
  }
}
