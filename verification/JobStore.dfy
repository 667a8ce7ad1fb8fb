/**
 utils/state_utils.go over one byte-level datastore. Every operation reads and writes CBOR bytes under cleaned printf keys;
 the class is proved to behave as the independent typed tables of JobTables over every sequence of operations.
 */
module JobStore {
  import opened Basics
  import opened Cbor
  import opened Codec
  import opened Records
  import opened Keys
  import opened JobTables

  /** The bytes that belong in a slot. */
  ghost function SlotBytes(lib: Lib, m: Tables, slot: Slot): Option<Bytes>
    requires TablesOk(lib, m)
  {
    match slot
    case Record(k) => if k in m.jobs then Some(EncodeJob(m.jobs[k])) else None
    case Index(t) => if t in m.index then Some(EncodeIndex(t, m.index[t])) else None
  }

  ghost function Lookup(data: map<Bytes, Bytes>, key: Bytes): Option<Bytes> {
    if key in data then Some(data[key]) else None
  }

  /** The slots that a node uses; none of them shares its datastore key with another. */
  ghost predicate Injective(lib: Lib, names: Slot -> bool) {
    && (forall t :: names(Index(t)))
    && (forall a, b {:trigger StoreKey(lib, a), StoreKey(lib, b)} ::
          names(a) && names(b) && StoreKey(lib, a) == StoreKey(lib, b) ==> a == b)
  }

  /** UUID data ids and slash-free addresses are such slots, and so is any slash-free family without a clashing pair. */
  lemma WellNamedInjective(lib: Lib)
    requires CidNames(lib)
    ensures Injective(lib, slot => WellNamed(slot))
  {
    forall a, b | WellNamed(a) && WellNamed(b) && StoreKey(lib, a) == StoreKey(lib, b) ensures a == b {
      StoreKeysInjective(lib, a, b);
    }
  }

  lemma SlashFreeInjective(lib: Lib, names: Slot -> bool)
    requires CidNames(lib) && (forall t :: names(Index(t))) && forall a :: names(a) ==> SlashFree(a)
    ensures Injective(lib, names) <==> forall a, b :: names(a) && names(b) ==> !Clash(lib, a, b)
  {
    forall a, b | names(a) && names(b)
      ensures StoreKey(lib, a) == StoreKey(lib, b) <==> a == b || Clash(lib, a, b) || Clash(lib, b, a)
      ensures Clash(lib, a, b) ==> a != b
    {
      StoreKeysCollideExactly(lib, a, b);
    }
  }

  ghost predicate Represents(lib: Lib, names: Slot -> bool, data: map<Bytes, Bytes>, m: Tables)
    requires TablesOk(lib, m)
  {
    forall slot {:trigger StoreKey(lib, slot)} :: names(slot) ==> Lookup(data, StoreKey(lib, slot)) == SlotBytes(lib, m, slot)
  }

  /** If two slots share a key, no bytes stand for tables that fill only one of them. */
  lemma SharedKeyConfuses(lib: Lib, names: Slot -> bool, data: map<Bytes, Bytes>, m: Tables, a: Slot, b: Slot)
    requires TablesOk(lib, m) && names(a) && names(b) && StoreKey(lib, a) == StoreKey(lib, b)
    requires SlotBytes(lib, m, a).Some? && SlotBytes(lib, m, b).None?
    ensures !Represents(lib, names, data, m)
  {
  }

  ghost predicate AllNamed(names: Slot -> bool, m: Tables) {
    forall k :: k in m.jobs ==> names(Record(k))
  }

  /** The operation keeps to the slots that the node uses. */
  ghost predicate Permitted(names: Slot -> bool, op: Op) {
    match op
    case SaveOp(job, _) => names(Record(KeyOf(job)))
    case GetOp(k, _) => names(Record(k))
    case _ => true
  }

  /** Writing one slot touches no other. */
  lemma PutRepresents(lib: Lib, names: Slot -> bool, data: map<Bytes, Bytes>, m: Tables, slot: Slot, b: Bytes, m': Tables)
    requires Injective(lib, names) && TablesOk(lib, m) && TablesOk(lib, m') && Represents(lib, names, data, m) && names(slot)
    requires SlotBytes(lib, m', slot) == Some(b)
    requires forall other :: other != slot ==> SlotBytes(lib, m', other) == SlotBytes(lib, m, other)
    ensures Represents(lib, names, data[StoreKey(lib, slot) := b], m')
  {
    forall other | names(other)
      ensures Lookup(data[StoreKey(lib, slot) := b], StoreKey(lib, other)) == SlotBytes(lib, m', other)
    {
      assert StoreKey(lib, other) == StoreKey(lib, slot) ==> other == slot;
    }
  }

  /** The loop of RemoveShardExpireIndex, which stops at the first entry with the id. */
  method CutFirst(ks: KeyList, k: Key) returns (alls: KeyList)
    ensures alls == Without(ks, k)
  {
    for i := 0 to |ks|
      invariant k !in ks[..i]
    {
      if ks[i] == k {
        WithoutFirst(ks, i);
        return ks[..i] + ks[i + 1..];
      }
    }
    WithoutAbsent(ks, k);
    return ks;
  }

  lemma StillStored(jobs: map<Key, Job>, t: Table, ks: seq<Key>, k: Key)
    requires ListsStored(jobs, t, ks)
    ensures ListsStored(jobs, t, Without(ks, k))
  {
    var r := Without(ks, k);
    forall i | 0 <= i < |r| ensures KeyTable(r[i]) == t && r[i] in jobs { assert r[i] in ks; }
  }

  ghost predicate RecordsOf(jobs: map<Key, Job>, ks: seq<Key>, r: seq<Job>) {
    |r| == |ks| && forall i :: 0 <= i < |ks| ==> ks[i] in jobs && r[i] == jobs[ks[i]]
  }

  /** One of the reads of a listing fails, or finds a record that cannot be read back. */
  ghost predicate SomeReadFails(lib: Lib, m: Tables, ks: seq<Key>, each: nat -> Faults) {
    exists i :: 0 <= i < |ks| && JobTables.Get(lib, m, ks[i], each(i)).None?
  }

  method MarshalJob(lib: Lib, job: Job) returns (b: Option<Bytes>)
    ensures b == if JobFits(lib, job) then Some(EncodeJob(job)) else None
  {
    JobHasSchema(job);
    b := Marshal(lib, SchemaOf(TableOf(job)), ToStruct(job));
  }

  class Store {
    const lib: Lib
    ghost const names: Slot -> bool
    var data: map<Bytes, Bytes>
    ghost var tables: Tables

    ghost predicate Valid()
      reads this
    {
      Sane(lib) && Injective(lib, names) && TablesOk(lib, tables) && AllNamed(names, tables)
      && Represents(lib, names, data, tables)
    }

    constructor (lib: Lib, ghost names: Slot -> bool)
      requires Sane(lib) && Injective(lib, names)
      ensures Valid() && this.lib == lib && this.names == names && tables == Empty
    {
      this.lib := lib;
      this.names := names;
      data := map[];
      tables := Empty;
    }

    method Save(job: Job, f: Faults) returns (ok: bool)
      requires Valid() && names(Record(KeyOf(job)))
      modifies this
      ensures Valid() && (tables, ok) == JobTables.Save(lib, old(tables), job, f)
    {
      var key := StoreKey(lib, Record(KeyOf(job)));
      if f.has { return false; }
      var found := key in data;
      assert Lookup(data, key) == SlotBytes(lib, tables, Record(KeyOf(job)));
      var b := MarshalJob(lib, job);
      if b.None? || f.put { return false; }
      ok := PutAndIndex(job, b.value, found, f);
    }

    /** The rest of a save, once the record has been marshalled. */
    method PutAndIndex(job: Job, b: Bytes, found: bool, f: Faults) returns (ok: bool)
      requires Valid() && names(Record(KeyOf(job))) && Stores(lib, job, f) && b == EncodeJob(job)
      requires found == (KeyOf(job) in tables.jobs)
      modifies this
      ensures Valid() && (tables, ok) == JobTables.Save(lib, old(tables), job, f)
    {
      PutRecord(job, b);
      if found { return true; }
      ok := AddIndex(KeyOf(job), f);
    }

    method PutRecord(job: Job, b: Bytes)
      requires Valid() && names(Record(KeyOf(job))) && Kept(lib, KeyOf(job), job) && b == EncodeJob(job)
      modifies this
      ensures Valid() && tables == old(tables).(jobs := old(tables).jobs[KeyOf(job) := job])
    {
      ghost var m := tables.(jobs := tables.jobs[KeyOf(job) := job]);
      RecordKeepsTables(lib, tables, job);
      PutRepresents(lib, names, data, tables, Record(KeyOf(job)), b, m);
      data := data[StoreKey(lib, Record(KeyOf(job))) := b];
      tables := m;
    }

    /** Reads the index list of a table; a table without one has the empty list. */
    method ReadIndex(t: Table, f: Faults) returns (ks: Option<KeyList>)
      requires Valid()
      ensures ks == JobTables.GetIndex(lib, tables, t, f)
    {
      var key := StoreKey(lib, Index(t));
      assert Lookup(data, key) == SlotBytes(lib, tables, Index(t));
      if f.indexHas { return None; }
      if key !in data { return Some([]); }
      if f.indexGet { return None; }
      IndexKeysFit(lib, tables, t);
      IndexRoundTrip(lib, t, tables.index[t]);
      var p := Unmarshal(lib, IndexSchema(t), data[key]);
      assert DecodeIndex(lib, t, data[key]) == if KeysReadable(lib, tables.index[t]) then Done(tables.index[t], []) else Fail;
      if p.Fail? || |KeysFromStructs(t, if p.value[0].VList? then p.value[0].items else [])| >= TWO_63 { return None; }
      return Some(KeysFromStructs(t, if p.value[0].VList? then p.value[0].items else []));
    }

    method WriteIndex(t: Table, ks: KeyList, f: Faults) returns (ok: bool)
      requires Valid() && ListsStored(tables.jobs, t, ks)
      modifies this
      ensures Valid() && ok == (|ks| <= lib.maxLength && !f.indexPut)
      ensures tables == if ok then old(tables).(index := old(tables).index[t := ks]) else old(tables)
    {
      StoredKeysFit(lib, tables, ks);
      IndexLimits(lib, t, ks);
      var b := Marshal(lib, IndexSchema(t), IndexToStruct(ks));
      if b.None? || f.indexPut { return false; }
      ghost var m := tables.(index := tables.index[t := ks]);
      IndexKeepsTables(lib, tables, t, ks);
      PutRepresents(lib, names, data, tables, Index(t), b.value, m);
      data := data[StoreKey(lib, Index(t)) := b.value];
      tables := m;
      return true;
    }

    /** UpdateOrderIndex, UpdateShardIndex, UpdateMigrateIndex and AddShardExpireIndex. */
    method AddIndex(k: Key, f: Faults) returns (ok: bool)
      requires Valid() && k in tables.jobs
      modifies this
      ensures Valid() && ok == Indexes(lib, old(tables), KeyTable(k), f)
      ensures tables == if ok then old(tables).(index := old(tables).index[KeyTable(k) := IndexOf(old(tables), KeyTable(k)) + [k]])
                        else old(tables)
    {
      var ks := ReadIndex(KeyTable(k), f);
      if ks.None? { return false; }
      ok := WriteIndex(KeyTable(k), ks.value + [k], f);
    }

    method Get(k: Key, f: Faults) returns (r: Option<Job>)
      requires Valid() && names(Record(k))
      ensures r == JobTables.Get(lib, tables, k, f)
    {
      var key := StoreKey(lib, Record(k));
      assert Lookup(data, key) == SlotBytes(lib, tables, Record(k));
      if f.has { return None; }
      if key !in data { return Some(ZeroJob(KeyTable(k))); }
      if f.get { return None; }
      var t := KeyTable(k);
      assert Kept(lib, k, tables.jobs[k]);
      JobRoundTrip(lib, tables.jobs[k], []);
      assert data[key] + [] == data[key];
      var p := Unmarshal(lib, SchemaOf(t), data[key]);
      if p.Fail? { return None; }
      return Some(FromStruct(t, p.value));
    }

    method GetIndex(t: Table, f: Faults) returns (ks: Option<KeyList>)
      requires Valid()
      ensures ks == JobTables.GetIndex(lib, tables, t, f)
    {
      ks := ReadIndex(t, f);
    }

    /** RemoveShardExpireIndex. */
    method RemoveExpire(id: U64, f: Faults) returns (ok: bool)
      requires Valid()
      modifies this
      ensures Valid() && (tables, ok) == JobTables.RemoveExpire(lib, old(tables), id, f)
    {
      var ks := ReadIndex(Expires, f);
      if ks.None? { return false; }
      var alls := CutFirst(ks.value, ExpireKey(id));
      StillStored(tables.jobs, Expires, ks.value, ExpireKey(id));
      ok := WriteIndex(Expires, alls, f);
    }

    /**
     OrderList, ShardList and MigrateList: the records of the keys in the index list, or an error; `each` says what fails
     while each record is read.
     */
    method List(t: Table, f: Faults, each: nat -> Faults) returns (r: Option<seq<Job>>)
      requires Valid()
      ensures r.None? <==> JobTables.GetIndex(lib, tables, t, f).None? || SomeReadFails(lib, tables, IndexOf(tables, t), each)
      ensures r.Some? ==> RecordsOf(tables.jobs, IndexOf(tables, t), r.value)
    {
      var ks := GetIndex(t, f);
      if ks.None? { return None; }
      var jobs := [];
      for i := 0 to |ks.value|
        invariant |jobs| == i && ListsStored(tables.jobs, t, ks.value)
        invariant forall j :: 0 <= j < i ==>
          JobTables.Get(lib, tables, ks.value[j], each(j)).Some? && jobs[j] == tables.jobs[ks.value[j]]
      {
        var job := Get(ks.value[i], each(i));
        if job.None? { return None; }
        jobs := jobs + [job.value];
      }
      return Some(jobs);
    }

    /** Any sequence of operations on the bytes answers exactly as the same sequence on the typed tables. */
    method RunAll(ops: seq<Op>) returns (outs: seq<Out>)
      requires Valid() && forall i :: 0 <= i < |ops| ==> Permitted(names, ops[i])
      modifies this
      ensures Valid() && (tables, outs) == Run(lib, old(tables), ops)
    {
      outs := [];
      for i := 0 to |ops|
        invariant Valid() && (tables, outs) == Run(lib, old(tables), ops[..i])
      {
        assert ops[..i + 1][..i] == ops[..i];
        match ops[i]
        case SaveOp(job, f) => var ok := Save(job, f); outs := outs + [Saved(ok)];
        case GetOp(k, f) => var r := Get(k, f); outs := outs + [Got(r)];
        case IndexOp(t, f) => var ks := GetIndex(t, f); outs := outs + [Listed(ks)];
        case RemoveOp(id, f) => var ok := RemoveExpire(id, f); outs := outs + [Removed(ok)];
      }
      assert ops[..|ops|] == ops;
    }
  }

  lemma StoredKeysFit(lib: Lib, m: Tables, ks: seq<Key>)
    requires Sane(lib) && TablesOk(lib, m) && forall i :: 0 <= i < |ks| ==> ks[i] in m.jobs
    ensures forall i :: 0 <= i < |ks| ==> KeyFits(lib, ks[i])
  {
    forall i | 0 <= i < |ks| ensures KeyFits(lib, ks[i]) {
      assert Kept(lib, ks[i], m.jobs[ks[i]]);
      JobKeyFits(lib, m.jobs[ks[i]]);
    }
  }

  lemma IndexKeysFit(lib: Lib, m: Tables, t: Table)
    requires Sane(lib) && TablesOk(lib, m) && t in m.index
    ensures forall i :: 0 <= i < |m.index[t]| ==> KeyFits(lib, m.index[t][i])
  {
    StoredKeysFit(lib, m, m.index[t]);
  }
}
