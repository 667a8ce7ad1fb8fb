/**
 What utils/state_utils.go is meant to be: four independent typed tables, each with an index list of its keys, and the
 Save, Get, index and remove operations on them, with every datastore call allowed to fail.
 */
module JobTables {
  import opened Basics
  import opened Cbor
  import opened Records

  /** `index` has an entry for a table once its index list has been written. */
  datatype Tables = Tables(jobs: map<Key, Job>, index: map<Table, KeyList>)

  const Empty := Tables(map[], map[])

  /** Which datastore calls of one operation report an error. */
  datatype Faults = Faults(has: bool, get: bool, put: bool, indexHas: bool, indexGet: bool, indexPut: bool)

  const NoFaults := Faults(false, false, false, false, false, false)

  function IndexOf(m: Tables, t: Table): KeyList {
    if t in m.index then m.index[t] else []
  }

  /** The first half of a save: the record itself. */
  ghost predicate Stores(lib: Lib, job: Job, f: Faults) { !f.has && JobFits(lib, job) && !f.put }

  /**
   GetOrderIndex, GetShardIndex, GetMigrateIndex and GetShardExpireIndex. A list with a key that cannot be read back is
   lost.
   */
  ghost function GetIndex(lib: Lib, m: Tables, t: Table, f: Faults): Option<KeyList> {
    if f.indexHas || (t in m.index && (f.indexGet || !KeysReadable(lib, m.index[t]))) then None else Some(IndexOf(m, t))
  }

  /** The second half, for a key that is new: the entry in the index list. */
  ghost predicate Indexes(lib: Lib, m: Tables, t: Table, f: Faults) {
    GetIndex(lib, m, t, f).Some? && |IndexOf(m, t)| < lib.maxLength && !f.indexPut
  }

  /** SaveOrder, SaveShard, SaveMigrate and SaveShardExpire. */
  ghost function Save(lib: Lib, m: Tables, job: Job, f: Faults): (Tables, bool) {
    var k, t := KeyOf(job), TableOf(job);
    if !Stores(lib, job, f) then (m, false)
    else
      var m1 := m.(jobs := m.jobs[k := job]);
      if k in m.jobs then (m1, true)
      else if !Indexes(lib, m, t, f) then (m1, false)
      else (m1.(index := m.index[t := IndexOf(m, t) + [k]]), true)
  }

  /** GetOrder, GetShard, GetMigrate and GetShardExpire: a missing record is the zero record, not an error. */
  ghost function Get(lib: Lib, m: Tables, k: Key, f: Faults): Option<Job> {
    if f.has then None
    else if k !in m.jobs then Some(ZeroJob(KeyTable(k)))
    else if f.get || !JobReadable(lib, m.jobs[k]) then None
    else Some(m.jobs[k])
  }

  /** The list without the first occurrence of `k`. */
  function Without(ks: seq<Key>, k: Key): (r: seq<Key>)
    ensures |r| <= |ks|
    ensures forall i :: 0 <= i < |r| ==> r[i] in ks
  {
    if ks == [] then [] else if ks[0] == k then ks[1..] else [ks[0]] + Without(ks[1..], k)
  }

  lemma {:induction false} WithoutAbsent(ks: seq<Key>, k: Key)
    requires k !in ks
    ensures Without(ks, k) == ks
  {
    if ks != [] {
      WithoutAbsent(ks[1..], k);
      assert ks == [ks[0]] + ks[1..];
    }
  }

  lemma {:induction false} WithoutFirst(ks: seq<Key>, i: nat)
    requires i < |ks| && ks[i] !in ks[..i]
    ensures Without(ks, ks[i]) == ks[..i] + ks[i + 1..]
  {
    if i > 0 {
      assert ks[0] in ks[..i];
      assert ks[..i] == [ks[0]] + ks[1..][..i - 1];
      WithoutFirst(ks[1..], i - 1);
    }
  }

  /** RemoveShardExpireIndex: only the index entry goes, the record stays. */
  ghost function RemoveExpire(lib: Lib, m: Tables, id: U64, f: Faults): (Tables, bool) {
    if GetIndex(lib, m, Expires, f).None? || f.indexPut then (m, false)
    else (m.(index := m.index[Expires := Without(IndexOf(m, Expires), ExpireKey(id))]), true)
  }

  ghost predicate Kept(lib: Lib, k: Key, job: Job) {
    KeyOf(job) == k && JobFits(lib, job)
  }

  ghost predicate ListsStored(jobs: map<Key, Job>, t: Table, ks: seq<Key>) {
    forall i :: 0 <= i < |ks| ==> KeyTable(ks[i]) == t && ks[i] in jobs
  }

  /** What holds of the tables in every run: keys belong to their records, indexes list stored keys within the limit. */
  ghost predicate TablesOk(lib: Lib, m: Tables) {
    && (forall k {:trigger Kept(lib, k, m.jobs[k])} :: k in m.jobs ==> Kept(lib, k, m.jobs[k]))
    && (forall t :: t in m.index ==> |m.index[t]| <= lib.maxLength && ListsStored(m.jobs, t, m.index[t]))
  }

  lemma RecordKeepsTables(lib: Lib, m: Tables, job: Job)
    requires TablesOk(lib, m) && Kept(lib, KeyOf(job), job)
    ensures TablesOk(lib, m.(jobs := m.jobs[KeyOf(job) := job]))
  {
  }

  lemma IndexKeepsTables(lib: Lib, m: Tables, t: Table, ks: KeyList)
    requires TablesOk(lib, m) && ListsStored(m.jobs, t, ks) && |ks| <= lib.maxLength
    ensures TablesOk(lib, m.(index := m.index[t := ks]))
  {
  }

  // ---------------------------------------------------------------- runs

  datatype Op =
    | SaveOp(job: Job, f: Faults)
    | GetOp(key: Key, f: Faults)
    | IndexOp(table: Table, f: Faults)
    | RemoveOp(id: U64, f: Faults)

  datatype Out = Saved(ok: bool) | Got(job: Option<Job>) | Listed(keys: Option<KeyList>) | Removed(ok: bool)

  ghost function Step(lib: Lib, m: Tables, op: Op): (Tables, Out) {
    match op
    case SaveOp(job, f) => var (m', ok) := Save(lib, m, job, f); (m', Saved(ok))
    case GetOp(k, f) => (m, Got(Get(lib, m, k, f)))
    case IndexOp(t, f) => (m, Listed(GetIndex(lib, m, t, f)))
    case RemoveOp(id, f) => var (m', ok) := RemoveExpire(lib, m, id, f); (m', Removed(ok))
  }

  /** The tables and the answers after a whole sequence of operations. */
  ghost function Run(lib: Lib, m: Tables, ops: seq<Op>): (r: (Tables, seq<Out>))
    ensures |r.1| == |ops|
    decreases |ops|
  {
    if ops == [] then (m, [])
    else
      var (m1, outs) := Run(lib, m, ops[..|ops| - 1]);
      var (m2, out) := Step(lib, m1, ops[|ops| - 1]);
      (m2, outs + [out])
  }
}
