/**
 The persisted records of types/state.go, the fields under which types/cbor_gen.go stores each of them, and the round trip
 of every record through its bytes.
 */
module Records {
  import opened Basics
  import opened Cbor
  import opened Codec

  /** A CID is an opaque byte string; the undefined CID is empty. */
  type Cid = Text

  datatype OrderShardInfo = OrderShardInfo(
    shardId: U64, peer: Text, cid: Text, provider: Text, state: Text, completeHash: Text)

  type ShardMap = m: map<Text, OrderShardInfo> | |m| < TWO_63

  datatype OrderInfo = OrderInfo(
    dataId: Text, owner: Text, cid: Cid, stagePath: Text, orderId: U64, orderHash: Text, orderTxType: Text,
    orderHeight: I64, shards: ShardMap, expireHeight: U64, state: U64, tries: U64, retryAt: I64, lastErr: Text)

  datatype ShardInfo = ShardInfo(
    orderId: U64, dataId: Text, cid: Cid, owner: Text, gateway: Text, orderOperation: Text, shardOperation: Text,
    completeHash: Text, completeHeight: I64, size: U64, tries: U64, expireHeight: U64, state: U64, retryAt: I64,
    lastErr: Text)

  datatype MigrateInfo = MigrateInfo(
    dataId: Text, orderId: U64, cid: Text, fromProvider: Text, toProvider: Text, migrateTxHash: Text,
    migrateTxHeight: I64, completeTxHash: Text, completeTxHeight: I64, state: U64)

  datatype ShardExpireInfo = ShardExpireInfo(shardId: U64, cid: Text, orderId: U64)

  /** The four kinds of record, each with its own index list. */
  datatype Table = Orders | Shards | Migrates | Expires

  datatype Job =
    | OrderJob(order: OrderInfo)
    | ShardJob(shard: ShardInfo)
    | MigrateJob(migrate: MigrateInfo)
    | ExpireJob(expire: ShardExpireInfo)

  /** The entries of the index lists, which are also the logical keys of the records. */
  datatype Key =
    | OrderKey(dataId: Text)
    | ShardKey(orderId: U64, cid: Cid)
    | MigrateKey(migrateDataId: Text, fromProvider: Text)
    | ExpireKey(shardId: U64)

  function TableOf(job: Job): Table {
    match job
    case OrderJob(_) => Orders
    case ShardJob(_) => Shards
    case MigrateJob(_) => Migrates
    case ExpireJob(_) => Expires
  }

  function KeyTable(k: Key): Table {
    match k
    case OrderKey(_) => Orders
    case ShardKey(_, _) => Shards
    case MigrateKey(_, _) => Migrates
    case ExpireKey(_) => Expires
  }

  function KeyOf(job: Job): (k: Key)
    ensures KeyTable(k) == TableOf(job)
  {
    match job
    case OrderJob(o) => OrderKey(o.dataId)
    case ShardJob(s) => ShardKey(s.orderId, s.cid)
    case MigrateJob(m) => MigrateKey(m.dataId, m.fromProvider)
    case ExpireJob(e) => ExpireKey(e.shardId)
  }

  function ZeroJob(t: Table): (job: Job)
    ensures TableOf(job) == t
  {
    match t
    case Orders => OrderJob(OrderInfo([], [], [], [], 0, [], [], 0, map[], 0, 0, 0, 0, []))
    case Shards => ShardJob(ShardInfo(0, [], [], [], [], [], [], [], 0, 0, 0, 0, 0, 0, []))
    case Migrates => MigrateJob(MigrateInfo([], 0, [], [], [], [], 0, [], 0, 0))
    case Expires => ExpireJob(ShardExpireInfo(0, [], 0))
  }

  // ---------------------------------------------------------------- schemas

  const OrderShardSchema := Schema([
    Field("ShardId", KUint), Field("Peer", KText), Field("Cid", KText), Field("Provider", KText),
    Field("State", KText), Field("CompleteHash", KText)])

  const OrderSchema := Schema([
    Field("DataId", KText), Field("Owner", KText), Field("Cid", KCid), Field("StagePath", KText),
    Field("OrderId", KUint), Field("OrderHash", KText), Field("OrderTxType", KText), Field("OrderHeight", KInt),
    Field("Shards", KMap(OrderShardSchema)), Field("ExpireHeight", KUint), Field("State", KUint),
    Field("Tries", KUint), Field("RetryAt", KInt), Field("LastErr", KText)])

  const ShardSchema := Schema([
    Field("OrderId", KUint), Field("DataId", KText), Field("Cid", KCid), Field("Owner", KText),
    Field("Gateway", KText), Field("OrderOperation", KText), Field("ShardOperation", KText),
    Field("CompleteHash", KText), Field("CompleteHeight", KInt), Field("Size", KUint), Field("Tries", KUint),
    Field("ExpireHeight", KUint), Field("State", KUint), Field("RetryAt", KInt), Field("LastErr", KText)])

  const MigrateSchema := Schema([
    Field("DataId", KText), Field("OrderId", KUint), Field("Cid", KText), Field("FromProvider", KText),
    Field("ToProvider", KText), Field("MigrateTxHash", KText), Field("MigrateTxHeight", KInt),
    Field("CompleteTxHash", KText), Field("CompleteTxHeight", KInt), Field("State", KUint)])

  const ExpireSchema := Schema([Field("ShardId", KUint), Field("Cid", KText), Field("OrderId", KUint)])

  function SchemaOf(t: Table): Schema {
    match t
    case Orders => OrderSchema
    case Shards => ShardSchema
    case Migrates => MigrateSchema
    case Expires => ExpireSchema
  }

  function KeySchema(t: Table): Schema {
    match t
    case Orders => Schema([Field("DataId", KText)])
    case Shards => Schema([Field("OrderId", KUint), Field("Cid", KCid)])
    case Migrates => Schema([Field("DataId", KText), Field("FromProvider", KText)])
    case Expires => Schema([Field("ShardId", KUint)])
  }

  function IndexSchema(t: Table): Schema {
    Schema([Field(if t == Orders || t == Expires then "Alls" else "All", KList(KeySchema(t)))])
  }

  // ---------------------------------------------------------------- records as structs

  function OrderShardToStruct(s: OrderShardInfo): Struct {
    [VUint(s.shardId), VText(s.peer), VText(s.cid), VText(s.provider), VText(s.state), VText(s.completeHash)]
  }

  function ToStruct(job: Job): Struct {
    match job
    case OrderJob(o) =>
      [VText(o.dataId), VText(o.owner), VCid(o.cid), VText(o.stagePath), VUint(o.orderId), VText(o.orderHash),
       VText(o.orderTxType), VInt(o.orderHeight), VMap(ShardsToStructs(o.shards)),
       VUint(o.expireHeight), VUint(o.state), VUint(o.tries), VInt(o.retryAt), VText(o.lastErr)]
    case ShardJob(s) =>
      [VUint(s.orderId), VText(s.dataId), VCid(s.cid), VText(s.owner), VText(s.gateway), VText(s.orderOperation),
       VText(s.shardOperation), VText(s.completeHash), VInt(s.completeHeight), VUint(s.size), VUint(s.tries),
       VUint(s.expireHeight), VUint(s.state), VInt(s.retryAt), VText(s.lastErr)]
    case MigrateJob(m) =>
      [VText(m.dataId), VUint(m.orderId), VText(m.cid), VText(m.fromProvider), VText(m.toProvider),
       VText(m.migrateTxHash), VInt(m.migrateTxHeight), VText(m.completeTxHash), VInt(m.completeTxHeight),
       VUint(m.state)]
    case ExpireJob(e) => [VUint(e.shardId), VText(e.cid), VUint(e.orderId)]
  }

  function KeyToStruct(k: Key): Struct {
    match k
    case OrderKey(d) => [VText(d)]
    case ShardKey(o, c) => [VUint(o), VCid(c)]
    case MigrateKey(d, f) => [VText(d), VText(f)]
    case ExpireKey(i) => [VUint(i)]
  }

  // A decoded value always has the kind of its field; the fall-backs only make these functions total.
  function TextOf(v: Value): Text { if v.VText? && |v.text| < TWO_63 then v.text else [] }
  function CidOf(v: Value): Cid { if v.VCid? && |v.raw| < TWO_63 then v.raw else [] }
  function UintOf(v: Value): U64 { if v.VUint? && v.n < TWO_64 then v.n else 0 }
  function IntOf(v: Value): I64 { if v.VInt? && -TWO_63 <= v.i < TWO_63 then v.i else 0 }

  function OrderShardFromStruct(s: Struct): OrderShardInfo {
    if |s| != 6 then OrderShardInfo(0, [], [], [], [], [])
    else OrderShardInfo(UintOf(s[0]), TextOf(s[1]), TextOf(s[2]), TextOf(s[3]), TextOf(s[4]), TextOf(s[5]))
  }

  function ShardsOf(v: Value): (m: map<Text, OrderShardInfo>) {
    if !v.VMap? then map[]
    else map k | k in v.entries && |k| < TWO_63 :: OrderShardFromStruct(v.entries[k])
  }

  function FromStruct(t: Table, s: Struct): (job: Job)
    requires |s| == |SchemaOf(t).fields|
    ensures TableOf(job) == t
  {
    match t
    case Orders =>
      var shards := ShardsOf(s[8]);
      OrderJob(OrderInfo(TextOf(s[0]), TextOf(s[1]), CidOf(s[2]), TextOf(s[3]), UintOf(s[4]), TextOf(s[5]), TextOf(s[6]),
        IntOf(s[7]), if |shards| < TWO_63 then shards else map[], UintOf(s[9]), UintOf(s[10]), UintOf(s[11]),
        IntOf(s[12]), TextOf(s[13])))
    case Shards =>
      ShardJob(ShardInfo(UintOf(s[0]), TextOf(s[1]), CidOf(s[2]), TextOf(s[3]), TextOf(s[4]), TextOf(s[5]), TextOf(s[6]),
        TextOf(s[7]), IntOf(s[8]), UintOf(s[9]), UintOf(s[10]), UintOf(s[11]), UintOf(s[12]), IntOf(s[13]), TextOf(s[14])))
    case Migrates =>
      MigrateJob(MigrateInfo(TextOf(s[0]), UintOf(s[1]), TextOf(s[2]), TextOf(s[3]), TextOf(s[4]), TextOf(s[5]),
        IntOf(s[6]), TextOf(s[7]), IntOf(s[8]), UintOf(s[9])))
    case Expires => ExpireJob(ShardExpireInfo(UintOf(s[0]), TextOf(s[1]), UintOf(s[2])))
  }

  function KeyFromStruct(t: Table, s: Struct): (k: Key)
    ensures KeyTable(k) == t
  {
    match t
    case Orders => OrderKey(if |s| != 1 then [] else TextOf(s[0]))
    case Shards => if |s| != 2 then ShardKey(0, []) else ShardKey(UintOf(s[0]), CidOf(s[1]))
    case Migrates => if |s| != 2 then MigrateKey([], []) else MigrateKey(TextOf(s[0]), TextOf(s[1]))
    case Expires => ExpireKey(if |s| != 1 then 0 else UintOf(s[0]))
  }

  lemma OrderShardHasSchema(s: OrderShardInfo)
    ensures HasSchema(OrderShardSchema, OrderShardToStruct(s))
  {
  }

  lemma OrderNames()
    ensures DistinctNames(OrderSchema)
  {
  }

  /** No name from `low` up to `high` occurs again among the later fields of a shard. */
  ghost predicate ShardNamesFrom(low: nat, high: nat) {
    forall i, j :: low <= i < j < 15 && i < high ==> ShardSchema.fields[i].name != ShardSchema.fields[j].name
  }

  lemma FirstShardNames()
    ensures ShardNamesFrom(0, 5)
  {
  }

  lemma LastShardNames()
    ensures ShardNamesFrom(5, 15)
  {
  }

  lemma ShardNames()
    ensures DistinctNames(ShardSchema)
  {
    FirstShardNames();
    LastShardNames();
  }

  lemma MigrateNames()
    ensures DistinctNames(MigrateSchema)
  {
  }

  function ShardsToStructs(m: ShardMap): (r: map<Bytes, Struct>)
    ensures r.Keys == m.Keys && |r| == |m|
  {
    var r := map k | k in m :: OrderShardToStruct(m[k]);
    assert r.Keys == m.Keys && |r| == |r.Keys|;
    r
  }

  lemma ShardsHaveKind(m: ShardMap)
    ensures HasKind(KMap(OrderShardSchema), VMap(ShardsToStructs(m)))
  {
    forall k | k in m ensures HasSchema(OrderShardSchema, OrderShardToStruct(m[k])) { OrderShardHasSchema(m[k]); }
  }

  ghost predicate Scalar(kind: Kind, v: Value) {
    match v
    case VUint(n) => kind == KUint && n < TWO_64
    case VInt(i) => kind == KInt && -TWO_63 <= i < TWO_63
    case VText(s) => kind == KText && |s| < TWO_63
    case VCid(raw) => kind == KCid && |raw| < TWO_63
    case _ => false
  }

  /** A struct has its schema when its fields do: all are scalars, but perhaps one. */
  lemma HasSchemaByFields(s: Schema, vals: Struct, odd: int)
    requires DistinctNames(s) && |vals| == |s.fields| < TWO_63
    requires forall i :: 0 <= i < |vals| ==> |s.fields[i].name| < 100
    requires forall i :: 0 <= i < |vals| && i != odd ==> Scalar(s.fields[i].kind, vals[i])
    requires 0 <= odd < |vals| ==> HasKind(s.fields[odd].kind, vals[odd])
    ensures HasSchema(s, vals)
  {
    forall i | 0 <= i < |vals| && i != odd ensures HasKind(s.fields[i].kind, vals[i]) {
      assert Scalar(s.fields[i].kind, vals[i]);
    }
  }

  lemma OrderHasSchema(o: OrderInfo)
    ensures HasSchema(OrderSchema, ToStruct(OrderJob(o)))
  {
    OrderScalars(o);
    ShardsHaveKind(o.shards);
    HasSchemaByFields(OrderSchema, ToStruct(OrderJob(o)), 8);
  }

  lemma OrderScalars(o: OrderInfo)
    ensures var vals := ToStruct(OrderJob(o));
      && |vals| == |OrderSchema.fields| == 14
      && OrderSchema.fields[8].kind == KMap(OrderShardSchema) && vals[8] == VMap(ShardsToStructs(o.shards))
      && DistinctNames(OrderSchema)
      && forall i :: 0 <= i < 14 ==>
           |OrderSchema.fields[i].name| < 100 && (i != 8 ==> Scalar(OrderSchema.fields[i].kind, vals[i]))
  {
    OrderNames();
  }

  lemma ShardHasSchema(s: ShardInfo)
    ensures HasSchema(ShardSchema, ToStruct(ShardJob(s)))
  {
    ShardNames();
    HasSchemaByFields(ShardSchema, ToStruct(ShardJob(s)), -1);
  }

  lemma MigrateHasSchema(m: MigrateInfo)
    ensures HasSchema(MigrateSchema, ToStruct(MigrateJob(m)))
  {
    MigrateNames();
    HasSchemaByFields(MigrateSchema, ToStruct(MigrateJob(m)), -1);
  }

  lemma JobHasSchema(job: Job)
    ensures HasSchema(SchemaOf(TableOf(job)), ToStruct(job))
  {
    match job
    case OrderJob(o) => OrderHasSchema(o);
    case ShardJob(s) => ShardHasSchema(s);
    case MigrateJob(m) => MigrateHasSchema(m);
    case ExpireJob(_) =>
  }

  lemma OrderShardRoundTrip(s: OrderShardInfo)
    ensures OrderShardFromStruct(OrderShardToStruct(s)) == s
  {
  }

  lemma ShardsRoundTrip(m: ShardMap)
    ensures ShardsOf(VMap(ShardsToStructs(m))) == m
  {
    forall k | k in m ensures OrderShardFromStruct(OrderShardToStruct(m[k])) == m[k] { OrderShardRoundTrip(m[k]); }
  }

  lemma JobStructRoundTrip(job: Job)
    ensures FromStruct(TableOf(job), ToStruct(job)) == job
  {
    match job
    case OrderJob(o) => OrderStructRoundTrip(o);
    case ShardJob(_) =>
    case MigrateJob(_) =>
    case ExpireJob(_) =>
  }

  lemma OrderStructRoundTrip(o: OrderInfo)
    ensures FromStruct(Orders, ToStruct(OrderJob(o))) == OrderJob(o)
  {
    ShardsRoundTrip(o.shards);
  }

  lemma KeyHasSchema(k: Key)
    ensures HasSchema(KeySchema(KeyTable(k)), KeyToStruct(k))
    ensures KeyFromStruct(KeyTable(k), KeyToStruct(k)) == k
  {
  }

  // ---------------------------------------------------------------- records as bytes

  /** A library whose limits admit the field names of the records, the longest of which has 16 letters. */
  predicate Sane(lib: Lib) { 16 <= lib.maxLength <= lib.stringMax }

  /** The record is within the limits that MarshalCBOR checks. */
  ghost predicate JobFits(lib: Lib, job: Job) {
    JobHasSchema(job);
    StructFits(lib, SchemaOf(TableOf(job)), ToStruct(job))
  }

  /** The record is within the limits that UnmarshalCBOR checks: above all, its CID is a CID of at most 511 bytes. */
  ghost predicate JobReadable(lib: Lib, job: Job) {
    JobHasSchema(job);
    StructReadable(lib, SchemaOf(TableOf(job)), ToStruct(job))
  }

  ghost function EncodeJob(job: Job): Bytes {
    JobHasSchema(job);
    EncodeStruct(SchemaOf(TableOf(job)), ToStruct(job))
  }

  function DecodeJob(lib: Lib, t: Table, b: Bytes): Parsed<Job> {
    match DecodeStruct(lib, SchemaOf(t), b)
    case Fail => Fail
    case Done(s, rest) => Done(FromStruct(t, s), rest)
  }

  /**
   A stored record followed by anything decodes to the same record and leaves what follows, if and only if it is within
   the reader's limits.
   */
  lemma JobRoundTrip(lib: Lib, job: Job, tail: Bytes)
    requires JobFits(lib, job)
    ensures DecodeJob(lib, TableOf(job), EncodeJob(job) + tail) == if JobReadable(lib, job) then Done(job, tail) else Fail
  {
    JobHasSchema(job);
    StructRoundTrip(lib, SchemaOf(TableOf(job)), ToStruct(job), tail);
    JobStructRoundTrip(job);
  }

  /** The same holds when the fields of the record arrive in another order. */
  lemma JobFieldOrder(lib: Lib, job: Job, order: seq<int>, tail: Bytes)
    requires JobFits(lib, job) && JobReadable(lib, job)
    requires var n := |ToStruct(job)|; |order| == n && InRange(order, n) && forall i :: 0 <= i < n ==> i in order
    ensures HasSchema(SchemaOf(TableOf(job)), ToStruct(job))
    ensures DecodeJob(lib, TableOf(job),
              WriteHead(MAJ_MAP, |ToStruct(job)|) + EncodeFields(SchemaOf(TableOf(job)), ToStruct(job), order) + tail)
         == Done(job, tail)
  {
    JobHasSchema(job);
    PermutedRoundTrip(lib, SchemaOf(TableOf(job)), ToStruct(job), order, tail);
    JobStructRoundTrip(job);
  }

  /** No stored record is a proper prefix of another one of its table, and different records have different bytes. */
  lemma JobPrefixFree(lib: Lib, a: Job, b: Job, tail: Bytes)
    requires TableOf(a) == TableOf(b)
    requires JobFits(lib, a) && JobReadable(lib, a) && JobFits(lib, b) && JobReadable(lib, b)
    requires EncodeJob(a) + tail == EncodeJob(b)
    ensures a == b && tail == []
  {
    JobRoundTrip(lib, a, tail);
    JobRoundTrip(lib, b, []);
    assert EncodeJob(b) + [] == EncodeJob(b);
  }

  // ---------------------------------------------------------------- index lists as bytes

  type KeyList = ks: seq<Key> | |ks| < TWO_63

  ghost predicate KeysOfTable(t: Table, ks: seq<Key>) {
    forall i :: 0 <= i < |ks| ==> KeyTable(ks[i]) == t
  }

  function KeysToStructs(ks: seq<Key>): (r: seq<Struct>)
    ensures |r| == |ks|
  {
    seq(|ks|, i requires 0 <= i < |ks| => KeyToStruct(ks[i]))
  }

  function KeysFromStructs(t: Table, items: seq<Struct>): (r: seq<Key>)
    ensures |r| == |items|
  {
    seq(|items|, i requires 0 <= i < |items| => KeyFromStruct(t, items[i]))
  }

  function IndexToStruct(ks: KeyList): Struct { [VList(KeysToStructs(ks))] }

  /** The key can be written into an index list, and it can be read back from one. */
  ghost predicate KeyFits(lib: Lib, k: Key) {
    KeyHasSchema(k);
    StructFits(lib, KeySchema(KeyTable(k)), KeyToStruct(k))
  }

  ghost predicate KeyReadable(lib: Lib, k: Key) {
    KeyHasSchema(k);
    StructReadable(lib, KeySchema(KeyTable(k)), KeyToStruct(k))
  }

  ghost predicate KeysReadable(lib: Lib, ks: seq<Key>) {
    forall i :: 0 <= i < |ks| ==> KeyReadable(lib, ks[i])
  }

  /** A key that was written can be read back unless it is that of a shard whose CID is none or has 512 bytes or more. */
  lemma KeyReadableExactly(lib: Lib, k: Key)
    requires Sane(lib) && KeyFits(lib, k)
    ensures KeyReadable(lib, k) <==> (k.ShardKey? ==> |k.cid| < CID_MAX && lib.isCid(k.cid))
  {
    KeyHasSchema(k);
    var s, vals := KeySchema(KeyTable(k)), KeyToStruct(k);
    assert forall i :: 0 <= i < |vals| ==> |s.fields[i].name| <= 16 && Fits(lib, s.fields[i].kind, vals[i]);
    if k.ShardKey? {
      assert FieldReadable(lib, s, vals, 0);
      assert FieldReadable(lib, s, vals, 1) <==> |k.cid| < CID_MAX && lib.isCid(k.cid);
    }
  }

  lemma IndexHasSchema(t: Table, ks: KeyList)
    requires KeysOfTable(t, ks)
    ensures HasSchema(IndexSchema(t), IndexToStruct(ks))
  {
    forall i | 0 <= i < |ks| ensures HasSchema(KeySchema(t), KeyToStruct(ks[i])) { KeyHasSchema(ks[i]); }
    assert HasKind(KList(KeySchema(t)), VList(KeysToStructs(ks)));
  }

  ghost function EncodeIndex(t: Table, ks: KeyList): Bytes
    requires KeysOfTable(t, ks)
  {
    IndexHasSchema(t, ks);
    EncodeStruct(IndexSchema(t), IndexToStruct(ks))
  }

  function DecodeIndex(lib: Lib, t: Table, b: Bytes): Parsed<seq<Key>> {
    match DecodeStruct(lib, IndexSchema(t), b)
    case Fail => Fail
    case Done(s, rest) => if s[0].VList? then Done(KeysFromStructs(t, s[0].items), rest) else Done([], rest)
  }

  lemma KeyListLimits(lib: Lib, t: Table, ks: KeyList)
    requires KeysOfTable(t, ks) && forall i :: 0 <= i < |ks| ==> KeyFits(lib, ks[i])
    ensures var kind, v := KList(KeySchema(t)), VList(KeysToStructs(ks));
      HasKind(kind, v) && (Fits(lib, kind, v) <==> |ks| <= lib.maxLength) && (Readable(lib, kind, v) <==> KeysReadable(lib, ks))
  {
    IndexHasSchema(t, ks);
    assert IndexToStruct(ks)[0] == VList(KeysToStructs(ks)) && IndexSchema(t).fields[0].kind == KList(KeySchema(t));
    var v := VList(KeysToStructs(ks));
    assert forall i :: 0 <= i < |ks| ==> v.items[i] == KeyToStruct(ks[i]);
    assert forall i :: 0 <= i < |ks| ==> KeyFits(lib, ks[i]) && StructFits(lib, KeySchema(t), v.items[i]);
    assert forall i :: 0 <= i < |ks| ==> (KeyReadable(lib, ks[i]) <==> StructReadable(lib, KeySchema(t), v.items[i]));
  }

  lemma IndexLimits(lib: Lib, t: Table, ks: KeyList)
    requires Sane(lib) && KeysOfTable(t, ks) && forall i :: 0 <= i < |ks| ==> KeyFits(lib, ks[i])
    ensures HasSchema(IndexSchema(t), IndexToStruct(ks))
    ensures StructFits(lib, IndexSchema(t), IndexToStruct(ks)) <==> |ks| <= lib.maxLength
    ensures StructReadable(lib, IndexSchema(t), IndexToStruct(ks)) <==> KeysReadable(lib, ks)
  {
    IndexHasSchema(t, ks);
    KeyListLimits(lib, t, ks);
    var s, vals := IndexSchema(t), IndexToStruct(ks);
    assert |vals| == 1 && vals[0] == VList(KeysToStructs(ks)) && s.fields[0].kind == KList(KeySchema(t));
    assert |s.fields[0].name| <= 4;
    assert StructFits(lib, s, vals) <==> Fits(lib, s.fields[0].kind, vals[0]);
    assert FieldReadable(lib, s, vals, 0) <==> KeysReadable(lib, ks);
  }

  /** An index list decodes to the same keys in the same order, if and only if all of its keys are readable. */
  lemma IndexRoundTrip(lib: Lib, t: Table, ks: KeyList)
    requires Sane(lib) && KeysOfTable(t, ks) && forall i :: 0 <= i < |ks| ==> KeyFits(lib, ks[i])
    requires |ks| <= lib.maxLength
    ensures DecodeIndex(lib, t, EncodeIndex(t, ks)) == if KeysReadable(lib, ks) then Done(ks, []) else Fail
  {
    IndexLimits(lib, t, ks);
    var b := EncodeIndex(t, ks);
    StructRoundTrip(lib, IndexSchema(t), IndexToStruct(ks), []);
    assert b + [] == b;
    forall i | 0 <= i < |ks| ensures KeyFromStruct(t, KeyToStruct(ks[i])) == ks[i] { KeyHasSchema(ks[i]); }
    assert KeysFromStructs(t, KeysToStructs(ks)) == ks;
  }

  /** A record that can be written has a key that can be written. */
  lemma JobKeyFits(lib: Lib, job: Job)
    requires Sane(lib) && JobFits(lib, job)
    ensures KeyFits(lib, KeyOf(job))
  {
    match job
    case OrderJob(o) => FieldFits(lib, job, 0); KeyFitsWithin(lib, OrderKey(o.dataId));
    case ShardJob(s) => FieldFits(lib, job, 2); KeyFitsWithin(lib, ShardKey(s.orderId, s.cid));
    case MigrateJob(m) =>
      FieldFits(lib, job, 0); FieldFits(lib, job, 3); KeyFitsWithin(lib, MigrateKey(m.dataId, m.fromProvider));
    case ExpireJob(e) => KeyFitsWithin(lib, ExpireKey(e.shardId));
  }

  lemma KeyFitsWithin(lib: Lib, k: Key)
    requires Sane(lib)
    requires match k
      case OrderKey(d) => |d| <= lib.maxLength
      case ShardKey(_, c) => c != []
      case MigrateKey(d, f) => |d| <= lib.maxLength && |f| <= lib.maxLength
      case ExpireKey(_) => true
    ensures KeyFits(lib, k)
  {
    KeyHasSchema(k);
  }

  lemma FieldFits(lib: Lib, job: Job, i: nat)
    requires JobFits(lib, job) && i < |ToStruct(job)|
    ensures var s, v := SchemaOf(TableOf(job)), ToStruct(job)[i];
      i < |s.fields| && HasKind(s.fields[i].kind, v) && Fits(lib, s.fields[i].kind, v)
  {
    JobHasSchema(job);
  }

  /** An expiry record that can be written can be read back. */
  lemma ExpireReadable(lib: Lib, e: ShardExpireInfo)
    requires Sane(lib) && JobFits(lib, ExpireJob(e))
    ensures JobReadable(lib, ExpireJob(e))
  {
    JobHasSchema(ExpireJob(e));
    FieldFits(lib, ExpireJob(e), 1);
    var s, vals := ExpireSchema, ToStruct(ExpireJob(e));
    forall i | 0 <= i < |vals| ensures FieldReadable(lib, s, vals, i) {
      assert i == 0 || i == 1 || i == 2;
    }
  }

  /** An expiry record fits if the text of its CID does. */
  lemma ExpireFits(lib: Lib, e: ShardExpireInfo)
    requires Sane(lib)
    ensures JobFits(lib, ExpireJob(e)) <==> |e.cid| <= lib.maxLength
  {
    JobHasSchema(ExpireJob(e));
    var s, vals := ExpireSchema, ToStruct(ExpireJob(e));
    assert forall i :: 0 <= i < |vals| && i != 1 ==> Fits(lib, s.fields[i].kind, vals[i]);
    assert Fits(lib, s.fields[1].kind, vals[1]) <==> |e.cid| <= lib.maxLength;
    assert forall i :: 0 <= i < |vals| ==> |s.fields[i].name| <= 16;
  }
}
