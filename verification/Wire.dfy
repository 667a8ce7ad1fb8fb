/**
 The stored bytes in numbers: every head as section 3 of RFC 8949 lays it out, and every record of types/cbor_gen.go field
 by field, with its names, in its order. What the encoder writes is proved to be exactly these bytes.
 */
module Wire {
  import opened Basics
  import opened Cbor
  import opened KeyOrder
  import opened Codec
  import opened Records

  function Num(n: nat): Byte
    requires n < 0x100
  {
    n as char
  }

  /** The initial byte holds the major type in its high three bits; long arguments follow in network byte order. */
  function HeadBytes(major: nat, n: nat): Bytes
    requires major < 8 && n < TWO_64
  {
    if n < 24 then [Num(0x20 * major + n)]
    else if n < 0x100 then [Num(0x20 * major + 24), Num(n)]
    else if n < 0x1_0000 then [Num(0x20 * major + 25), Num(n / 0x100), Num(n % 0x100)]
    else if n < 0x1_0000_0000 then
      [Num(0x20 * major + 26), Num(n / 0x100_0000), Num(n / 0x1_0000 % 0x100), Num(n / 0x100 % 0x100), Num(n % 0x100)]
    else
      [Num(0x20 * major + 27), Num(n / 0x100_0000_0000_0000), Num(n / 0x1_0000_0000_0000 % 0x100),
       Num(n / 0x100_0000_0000 % 0x100), Num(n / 0x1_0000_0000 % 0x100), Num(n / 0x100_0000 % 0x100),
       Num(n / 0x1_0000 % 0x100), Num(n / 0x100 % 0x100), Num(n % 0x100)]
  }

  lemma HeadIsWritten(major: nat, n: nat)
    requires major < 8 && n < TWO_64
    ensures WriteHead(major, n) == HeadBytes(major, n)
  {
    if n < 24 {
    } else if n < 0x100 {
      BigEndian1(n);
    } else if n < 0x1_0000 {
      BigEndian2(n);
    } else if n < 0x1_0000_0000 {
      BigEndian4(n);
    } else {
      BigEndian8(n);
    }
  }

  lemma BigEndian1(n: nat)
    requires n < 0x100
    ensures BigEndian(1, n) == [Num(n)]
  {
    assert BigEndian(0, n / 256) == [];
  }

  lemma BigEndian2(n: nat)
    requires n < 0x1_0000
    ensures BigEndian(2, n) == [Num(n / 0x100), Num(n % 0x100)]
  {
    BigEndian1(n / 0x100);
  }

  lemma BigEndian4(n: nat)
    requires n < 0x1_0000_0000
    ensures BigEndian(4, n) == [Num(n / 0x100_0000), Num(n / 0x1_0000 % 0x100), Num(n / 0x100 % 0x100), Num(n % 0x100)]
  {
    BigEndian2(n / 0x1_0000);
    var a, b := n / 0x100, n / 0x1_0000;
    assert a / 0x100 == b && b / 0x100 == n / 0x100_0000;
    assert BigEndian(3, a) == BigEndian(2, b) + [ToByte(a % 256)];
    assert BigEndian(4, n) == BigEndian(3, a) + [ToByte(n % 256)];
  }

  lemma BigEndian8(n: nat)
    requires n < TWO_64
    ensures BigEndian(8, n)
         == [Num(n / 0x100_0000_0000_0000), Num(n / 0x1_0000_0000_0000 % 0x100), Num(n / 0x100_0000_0000 % 0x100),
             Num(n / 0x1_0000_0000 % 0x100), Num(n / 0x100_0000 % 0x100), Num(n / 0x1_0000 % 0x100), Num(n / 0x100 % 0x100),
             Num(n % 0x100)]
  {
    var a, b, c, d := n / 0x100, n / 0x1_0000, n / 0x100_0000, n / 0x1_0000_0000;
    assert a / 0x100 == b && b / 0x100 == c && c / 0x100 == d;
    BigEndian4(d);
    assert BigEndian(5, c) == BigEndian(4, d) + [ToByte(c % 256)];
    assert BigEndian(6, b) == BigEndian(5, c) + [ToByte(b % 256)];
    assert BigEndian(7, a) == BigEndian(6, b) + [ToByte(a % 256)];
    assert BigEndian(8, n) == BigEndian(7, a) + [ToByte(n % 256)];
    assert d / 0x100_0000 == n / 0x100_0000_0000_0000 && d / 0x1_0000 == n / 0x1_0000_0000_0000;
    assert d / 0x100 == n / 0x100_0000_0000;
  }

  // ---------------------------------------------------------------- values

  /** A text string: major type 3. */
  function TextBytes(s: Text): Bytes { HeadBytes(3, |s|) + s }

  /** An unsigned integer is of major type 0; a negative one is of major type 1, with the argument -1 - i. */
  function UintBytes(n: U64): Bytes { HeadBytes(0, n) }

  function IntBytes(i: I64): Bytes { if i >= 0 then HeadBytes(0, i) else HeadBytes(1, -1 - i) }

  /** A CID: tag 42 on a byte string (major type 2) that starts with a zero byte. */
  function CidBytes(c: Cid): Bytes { [Num(0xD8), Num(0x2A)] + HeadBytes(2, |c| + 1) + ([Num(0x00)] + c) }

  lemma TextIsWritten(s: Text)
    ensures WriteText(s) == TextBytes(s)
    ensures |s| < 24 ==> WriteText(s) == [Num(0x60 + |s|)] + s
  {
    HeadIsWritten(3, |s|);
  }

  /** A field value of a record. */
  datatype Item = Uint(n: U64) | Int(i: I64) | Txt(s: Text) | Link(c: Cid) | ShardMap(m: Records.ShardMap)

  ghost function ItemBytes(item: Item): Bytes {
    match item
    case Uint(n) => UintBytes(n)
    case Int(i) => IntBytes(i)
    case Txt(s) => TextBytes(s)
    case Link(c) => CidBytes(c)
    case ShardMap(m) => ShardMapBytes(m)
  }

  // ---------------------------------------------------------------- structs

  ghost predicate ShortNames(names: seq<Bytes>) {
    forall i :: 0 <= i < |names| ==> |names[i]| < 24
  }

  /** The bytes of short names from the i-th on, each followed by those of its value. */
  ghost function FieldBytes(names: seq<Bytes>, values: seq<Bytes>, i: nat): Bytes
    requires ShortNames(names) && i <= |names| == |values|
    decreases |names| - i
  {
    if i == |names| then [] else [Num(0x60 + |names[i]|)] + names[i] + (values[i] + FieldBytes(names, values, i + 1))
  }

  /** A map (major type 5) of fewer than 24 fields. */
  ghost function StructBytes(names: seq<Bytes>, values: seq<Bytes>): Bytes
    requires ShortNames(names) && |names| == |values| < 24
  {
    [Num(0xA0 + |names|)] + FieldBytes(names, values, 0)
  }

  ghost function RecordBytes(names: seq<Bytes>, items: seq<Item>): Bytes
    requires ShortNames(names) && |names| == |items| < 24
  {
    StructBytes(names, seq(|items|, i requires 0 <= i < |items| => ItemBytes(items[i])))
  }

  const ORDER_SHARD_NAMES: seq<Bytes> := ["ShardId", "Peer", "Cid", "Provider", "State", "CompleteHash"]

  ghost function OrderShardBytes(s: OrderShardInfo): Bytes {
    StructBytes(ORDER_SHARD_NAMES, [UintBytes(s.shardId), TextBytes(s.peer), TextBytes(s.cid), TextBytes(s.provider),
                                    TextBytes(s.state), TextBytes(s.completeHash)])
  }

  ghost predicate AreKeys(m: map<Bytes, OrderShardInfo>, ks: seq<Bytes>) {
    forall j :: 0 <= j < |ks| ==> ks[j] in m && |ks[j]| < TWO_63
  }

  /** The shards of an order from the i-th on, one after the other in the given order of their keys. */
  ghost function EntryBytes(m: map<Bytes, OrderShardInfo>, ks: seq<Bytes>, i: nat): Bytes
    requires AreKeys(m, ks) && i <= |ks|
    decreases |ks| - i
  {
    if i == |ks| then [] else TextBytes(ks[i]) + (OrderShardBytes(m[ks[i]]) + EntryBytes(m, ks, i + 1))
  }

  lemma SortedAreKeys(m: Records.ShardMap)
    ensures AreKeys(m, SortedKeys(m.Keys))
  {
    var ks := SortedKeys(m.Keys);
    assert forall j :: 0 <= j < |ks| ==> ks[j] in m.Keys;
  }

  /** The bytes of a map of shards (major type 5): its size, and its entries in the bytewise order of their keys. */
  ghost function ShardMapBytes(m: Records.ShardMap): Bytes {
    SortedAreKeys(m);
    HeadBytes(5, |m|) + EntryBytes(m, SortedKeys(m.Keys), 0)
  }

  // ---------------------------------------------------------------- what the encoder writes

  ghost predicate IsItem(kind: Kind, v: Value, item: Item) {
    match item
    case Uint(n) => kind == KUint && v == VUint(n)
    case Int(i) => kind == KInt && v == VInt(i)
    case Txt(s) => kind == KText && v == VText(s)
    case Link(c) => kind == KCid && v == VCid(c)
    case ShardMap(m) => kind == KMap(OrderShardSchema) && v == VMap(ShardsToStructs(m))
  }

  lemma ScalarIsWritten(kind: Kind, v: Value, item: Item)
    requires IsItem(kind, v, item) && !item.ShardMap?
    ensures HasKind(kind, v) && EncodeValue(kind, v) == ItemBytes(item)
  {
    match item
    case Uint(n) => HeadIsWritten(0, n);
    case Int(i) => if i >= 0 { HeadIsWritten(0, i); } else { HeadIsWritten(1, -1 - i); }
    case Txt(s) => TextIsWritten(s);
    case Link(c) => HeadIsWritten(6, 42); HeadIsWritten(2, |c| + 1);
  }

  /** Names and values are those of the struct, in the order of its schema. */
  ghost predicate IsWrittenAs(s: Schema, vals: Struct, names: seq<Bytes>, values: seq<Bytes>)
    requires HasSchema(s, vals)
  {
    && ShortNames(names) && |names| == |values| == |vals| < 24
    && forall j :: 0 <= j < |names| ==> names[j] == s.fields[j].name && EncodeValue(s.fields[j].kind, vals[j]) == values[j]
  }

  lemma {:induction false} FieldsAreWritten(s: Schema, vals: Struct, i: nat, names: seq<Bytes>, values: seq<Bytes>)
    requires HasSchema(s, vals) && IsWrittenAs(s, vals, names, values) && i <= |vals|
    ensures EncodeFields(s, vals, Upto(|vals|)[i..]) == FieldBytes(names, values, i)
    decreases |vals| - i
  {
    if i < |vals| {
      var rest := NextField(s, vals, i);
      FieldsAreWritten(s, vals, i + 1, names, values);
      TextIsWritten(names[i]);
    }
  }

  /** A struct is written as its head and its names and values, in the order of its schema. */
  lemma StructIsWritten(s: Schema, vals: Struct, names: seq<Bytes>, values: seq<Bytes>)
    requires HasSchema(s, vals) && IsWrittenAs(s, vals, names, values)
    ensures EncodeStruct(s, vals) == StructBytes(names, values)
  {
    HeadIsWritten(5, |vals|);
    FieldsAreWritten(s, vals, 0, names, values);
    assert Upto(|vals|)[0..] == Upto(|vals|);
  }

  ghost predicate AreNames(s: Schema, names: seq<Bytes>) {
    ShortNames(names) && |names| == |s.fields| && forall j :: 0 <= j < |names| ==> names[j] == s.fields[j].name
  }

  lemma OrderShardNames()
    ensures AreNames(OrderShardSchema, ORDER_SHARD_NAMES)
  {
  }

  lemma OrderShardIsWritten(s: OrderShardInfo)
    ensures HasSchema(OrderShardSchema, OrderShardToStruct(s))
    ensures EncodeStruct(OrderShardSchema, OrderShardToStruct(s)) == OrderShardBytes(s)
  {
    var vals := OrderShardToStruct(s);
    OrderShardHasSchema(s);
    OrderShardNames();
    ScalarIsWritten(KUint, vals[0], Uint(s.shardId));
    ScalarIsWritten(KText, vals[1], Txt(s.peer));
    ScalarIsWritten(KText, vals[2], Txt(s.cid));
    ScalarIsWritten(KText, vals[3], Txt(s.provider));
    ScalarIsWritten(KText, vals[4], Txt(s.state));
    ScalarIsWritten(KText, vals[5], Txt(s.completeHash));
    StructIsWritten(OrderShardSchema, vals, ORDER_SHARD_NAMES,
      [UintBytes(s.shardId), TextBytes(s.peer), TextBytes(s.cid), TextBytes(s.provider), TextBytes(s.state),
       TextBytes(s.completeHash)]);
  }

  /** A map of shards goes one entry further. */
  lemma EntryIsWritten(m: map<Bytes, OrderShardInfo>, structs: map<Bytes, Struct>, k: Bytes)
    requires k in m && |k| < TWO_63 && k in structs && structs[k] == OrderShardToStruct(m[k])
    ensures HasSchema(OrderShardSchema, structs[k])
    ensures WriteText(k) == TextBytes(k) && EncodeStruct(OrderShardSchema, structs[k]) == OrderShardBytes(m[k])
  {
    TextIsWritten(k);
    OrderShardIsWritten(m[k]);
  }

  ghost predicate AreStructs(m: map<Bytes, OrderShardInfo>, structs: map<Bytes, Struct>, ks: seq<Bytes>) {
    forall j :: 0 <= j < |ks| ==> ks[j] in m && ks[j] in structs && structs[ks[j]] == OrderShardToStruct(m[ks[j]])
  }

  lemma {:induction false} EntriesAreWritten(
    m: map<Bytes, OrderShardInfo>, structs: map<Bytes, Struct>, ks: seq<Bytes>, i: nat)
    requires AreKeys(m, ks) && AreStructs(m, structs, ks) && AllEntries(OrderShardSchema, structs, ks) && i <= |ks|
    ensures EncodeEntries(OrderShardSchema, structs, ks[i..]) == EntryBytes(m, ks, i)
    decreases |ks| - i
  {
    if i < |ks| {
      var rest := NextEntry(OrderShardSchema, structs, ks, i);
      EntryIsWritten(m, structs, ks[i]);
      EntriesAreWritten(m, structs, ks, i + 1);
    }
  }

  lemma ShardMapEntries(m: Records.ShardMap)
    ensures var ks := SortedKeys(m.Keys);
      AreKeys(m, ks) && AreStructs(m, ShardsToStructs(m), ks) && AllEntries(OrderShardSchema, ShardsToStructs(m), ks)
  {
    var ks := SortedKeys(m.Keys);
    var shards: map<Bytes, OrderShardInfo> := m;
    forall j | 0 <= j < |ks|
      ensures ks[j] in m && |ks[j]| < TWO_63 && ShardsToStructs(m)[ks[j]] == OrderShardToStruct(shards[ks[j]])
      ensures HasSchema(OrderShardSchema, ShardsToStructs(m)[ks[j]])
    {
      assert ks[j] in m.Keys;
      OrderShardHasSchema(shards[ks[j]]);
    }
  }

  lemma ShardMapIsWritten(m: Records.ShardMap)
    ensures HasKind(KMap(OrderShardSchema), VMap(ShardsToStructs(m)))
    ensures EncodeValue(KMap(OrderShardSchema), VMap(ShardsToStructs(m))) == ShardMapBytes(m)
  {
    var ks := SortedKeys(m.Keys);
    ShardsHaveKind(m);
    HeadIsWritten(5, |m|);
    ShardMapEntries(m);
    EntriesAreWritten(m, ShardsToStructs(m), ks, 0);
    assert ks[0..] == ks;
  }

  lemma ItemIsWritten(kind: Kind, v: Value, item: Item)
    requires IsItem(kind, v, item)
    ensures HasKind(kind, v) && EncodeValue(kind, v) == ItemBytes(item)
  {
    if item.ShardMap? { ShardMapIsWritten(item.m); } else { ScalarIsWritten(kind, v, item); }
  }

  ghost predicate AreItems(s: Schema, vals: Struct, items: seq<Item>) {
    |s.fields| == |vals| == |items| && forall j :: 0 <= j < |vals| ==> IsItem(s.fields[j].kind, vals[j], items[j])
  }

  lemma RecordIsWritten(s: Schema, vals: Struct, names: seq<Bytes>, items: seq<Item>)
    requires HasSchema(s, vals) && AreNames(s, names) && AreItems(s, vals, items) && |vals| < 24
    ensures EncodeStruct(s, vals) == RecordBytes(names, items)
  {
    var values := seq(|items|, i requires 0 <= i < |items| => ItemBytes(items[i]));
    forall j | 0 <= j < |vals| ensures EncodeValue(s.fields[j].kind, vals[j]) == values[j] {
      ItemIsWritten(s.fields[j].kind, vals[j], items[j]);
    }
    StructIsWritten(s, vals, names, values);
  }

  // ---------------------------------------------------------------- records

  lemma JobIsWritten(job: Job, names: seq<Bytes>, items: seq<Item>)
    requires AreNames(SchemaOf(TableOf(job)), names) && AreItems(SchemaOf(TableOf(job)), ToStruct(job), items) && |names| < 24
    ensures EncodeJob(job) == RecordBytes(names, items)
  {
    JobHasSchema(job);
    RecordIsWritten(SchemaOf(TableOf(job)), ToStruct(job), names, items);
  }

  const EXPIRE_NAMES: seq<Bytes> := ["ShardId", "Cid", "OrderId"]

  const MIGRATE_NAMES: seq<Bytes> := [
    "DataId", "OrderId", "Cid", "FromProvider", "ToProvider", "MigrateTxHash", "MigrateTxHeight", "CompleteTxHash",
    "CompleteTxHeight", "State"]

  const SHARD_NAMES: seq<Bytes> := [
    "OrderId", "DataId", "Cid", "Owner", "Gateway", "OrderOperation", "ShardOperation", "CompleteHash", "CompleteHeight",
    "Size", "Tries", "ExpireHeight", "State", "RetryAt", "LastErr"]

  const ORDER_NAMES: seq<Bytes> := [
    "DataId", "Owner", "Cid", "StagePath", "OrderId", "OrderHash", "OrderTxType", "OrderHeight", "Shards", "ExpireHeight",
    "State", "Tries", "RetryAt", "LastErr"]

  lemma ExpireSchemaNames()
    ensures AreNames(ExpireSchema, EXPIRE_NAMES)
  {
  }

  lemma MigrateSchemaNames()
    ensures AreNames(MigrateSchema, MIGRATE_NAMES)
  {
  }

  lemma ShardSchemaNames()
    ensures AreNames(ShardSchema, SHARD_NAMES)
  {
  }

  lemma OrderSchemaNames()
    ensures AreNames(OrderSchema, ORDER_NAMES)
  {
  }

  function ExpireItems(e: ShardExpireInfo): seq<Item> { [Uint(e.shardId), Txt(e.cid), Uint(e.orderId)] }

  function MigrateItems(m: MigrateInfo): seq<Item> {
    [Txt(m.dataId), Uint(m.orderId), Txt(m.cid), Txt(m.fromProvider), Txt(m.toProvider), Txt(m.migrateTxHash),
     Int(m.migrateTxHeight), Txt(m.completeTxHash), Int(m.completeTxHeight), Uint(m.state)]
  }

  function ShardItems(s: ShardInfo): seq<Item> {
    [Uint(s.orderId), Txt(s.dataId), Link(s.cid), Txt(s.owner), Txt(s.gateway), Txt(s.orderOperation), Txt(s.shardOperation),
     Txt(s.completeHash), Int(s.completeHeight), Uint(s.size), Uint(s.tries), Uint(s.expireHeight), Uint(s.state),
     Int(s.retryAt), Txt(s.lastErr)]
  }

  function OrderItems(o: OrderInfo): seq<Item> {
    [Txt(o.dataId), Txt(o.owner), Link(o.cid), Txt(o.stagePath), Uint(o.orderId), Txt(o.orderHash), Txt(o.orderTxType),
     Int(o.orderHeight), ShardMap(o.shards), Uint(o.expireHeight), Uint(o.state), Uint(o.tries), Int(o.retryAt),
     Txt(o.lastErr)]
  }

  lemma ExpireHasItems(e: ShardExpireInfo)
    ensures AreItems(ExpireSchema, ToStruct(ExpireJob(e)), ExpireItems(e))
  {
  }

  lemma MigrateHasItems(m: MigrateInfo)
    ensures AreItems(MigrateSchema, ToStruct(MigrateJob(m)), MigrateItems(m))
  {
  }

  lemma ShardHasItems(s: ShardInfo)
    ensures AreItems(ShardSchema, ToStruct(ShardJob(s)), ShardItems(s))
  {
  }

  lemma OrderHasItems(o: OrderInfo)
    ensures AreItems(OrderSchema, ToStruct(OrderJob(o)), OrderItems(o))
  {
  }

  /** An expiry record is written as these three fields. */
  lemma ExpireIsWritten(e: ShardExpireInfo)
    ensures ShortNames(EXPIRE_NAMES) && EncodeJob(ExpireJob(e)) == RecordBytes(EXPIRE_NAMES, ExpireItems(e))
  {
    ExpireSchemaNames();
    ExpireHasItems(e);
    JobIsWritten(ExpireJob(e), EXPIRE_NAMES, ExpireItems(e));
  }

  /** A migration is written as these ten fields. */
  lemma MigrateIsWritten(m: MigrateInfo)
    ensures ShortNames(MIGRATE_NAMES) && EncodeJob(MigrateJob(m)) == RecordBytes(MIGRATE_NAMES, MigrateItems(m))
  {
    MigrateSchemaNames();
    MigrateHasItems(m);
    JobIsWritten(MigrateJob(m), MIGRATE_NAMES, MigrateItems(m));
  }

  /** A shard is written as these fifteen fields. */
  lemma ShardIsWritten(s: ShardInfo)
    ensures ShortNames(SHARD_NAMES) && EncodeJob(ShardJob(s)) == RecordBytes(SHARD_NAMES, ShardItems(s))
  {
    ShardSchemaNames();
    ShardHasItems(s);
    JobIsWritten(ShardJob(s), SHARD_NAMES, ShardItems(s));
  }

  /** An order is written as these fourteen fields. */
  lemma OrderIsWritten(o: OrderInfo)
    ensures ShortNames(ORDER_NAMES) && EncodeJob(OrderJob(o)) == RecordBytes(ORDER_NAMES, OrderItems(o))
  {
    OrderSchemaNames();
    OrderHasItems(o);
    JobIsWritten(OrderJob(o), ORDER_NAMES, OrderItems(o));
  }

  /** The first byte of a record, and one whole record in numbers. */
  lemma FirstBytes(job: Job)
    ensures EncodeJob(job) != [] && EncodeJob(job)[0] as int
      == match job case OrderJob(_) => 174 case ShardJob(_) => 175 case MigrateJob(_) => 170 case ExpireJob(_) => 163
  {
    match job
    case OrderJob(o) => OrderIsWritten(o);
    case ShardJob(s) => ShardIsWritten(s);
    case MigrateJob(m) => MigrateIsWritten(m);
    case ExpireJob(e) => ExpireIsWritten(e);
  }

  ghost function NameBytes(name: Bytes): Bytes
    requires |name| < 24
  {
    [Num(0x60 + |name|)] + name
  }

  lemma ThreeFields(names: seq<Bytes>, values: seq<Bytes>)
    requires ShortNames(names) && |names| == |values| == 3
    ensures FieldBytes(names, values, 0)
         == NameBytes(names[0]) + (values[0] + (NameBytes(names[1]) + (values[1] + (NameBytes(names[2]) + (values[2] + [])))))
  {
    assert FieldBytes(names, values, 3) == [];
    assert FieldBytes(names, values, 2) == NameBytes(names[2]) + (values[2] + FieldBytes(names, values, 3));
    assert FieldBytes(names, values, 1) == NameBytes(names[1]) + (values[1] + FieldBytes(names, values, 2));
  }

  lemma WholeRecordValues()
    ensures var items := ExpireItems(ShardExpireInfo(1, "c", 7));
      seq(|items|, i requires 0 <= i < |items| => ItemBytes(items[i])) == [[Num(0x01)], [Num(0x61), 'c'], [Num(0x07)]]
  {
    assert UintBytes(1) == [Num(0x01)] && TextBytes("c") == [Num(0x61), 'c'] && UintBytes(7) == [Num(0x07)];
  }

  lemma WholeRecord()
    ensures EncodeJob(ExpireJob(ShardExpireInfo(1, "c", 7)))
         == [Num(0xA3)] + ([Num(0x67)] + "ShardId") + [Num(0x01)] + ([Num(0x63)] + "Cid") + [Num(0x61), 'c']
            + ([Num(0x67)] + "OrderId") + [Num(0x07)]
  {
    ExpireIsWritten(ShardExpireInfo(1, "c", 7));
    WholeRecordValues();
    WholeRecordNames();
    ThreeFields(EXPIRE_NAMES, [[Num(0x01)], [Num(0x61), 'c'], [Num(0x07)]]);
    JoinFields([Num(0x67)] + "ShardId", [Num(0x63)] + "Cid", [Num(0x67)] + "OrderId");
  }

  lemma WholeRecordNames()
    ensures ShortNames(EXPIRE_NAMES)
    ensures NameBytes(EXPIRE_NAMES[0]) == [Num(0x67)] + "ShardId" && NameBytes(EXPIRE_NAMES[1]) == [Num(0x63)] + "Cid"
    ensures NameBytes(EXPIRE_NAMES[2]) == [Num(0x67)] + "OrderId"
  {
  }

  lemma JoinFields(a: Bytes, b: Bytes, c: Bytes)
    ensures [Num(0xA3)] + (a + ([Num(0x01)] + (b + ([Num(0x61), 'c'] + (c + ([Num(0x07)] + []))))))
         == [Num(0xA3)] + a + [Num(0x01)] + b + [Num(0x61), 'c'] + c + [Num(0x07)]
  {
  }

  // ---------------------------------------------------------------- index lists

  const ORDER_KEY_NAMES: seq<Bytes> := ["DataId"]
  const SHARD_KEY_NAMES: seq<Bytes> := ["OrderId", "Cid"]
  const MIGRATE_KEY_NAMES: seq<Bytes> := ["DataId", "FromProvider"]
  const EXPIRE_KEY_NAMES: seq<Bytes> := ["ShardId"]

  ghost function KeyBytes(k: Key): Bytes {
    match k
    case OrderKey(d) => RecordBytes(ORDER_KEY_NAMES, [Txt(d)])
    case ShardKey(o, c) => RecordBytes(SHARD_KEY_NAMES, [Uint(o), Link(c)])
    case MigrateKey(d, f) => RecordBytes(MIGRATE_KEY_NAMES, [Txt(d), Txt(f)])
    case ExpireKey(i) => RecordBytes(EXPIRE_KEY_NAMES, [Uint(i)])
  }

  /** The keys of a list from the i-th on. */
  ghost function KeyListBytes(ks: seq<Key>, i: nat): Bytes
    requires i <= |ks|
    decreases |ks| - i
  {
    if i == |ks| then [] else KeyBytes(ks[i]) + KeyListBytes(ks, i + 1)
  }

  /** An index list: a map with one field, which is a list (major type 4) of keys. */
  ghost function IndexBytes(t: Table, ks: KeyList): Bytes {
    [Num(0xA1)] + (IndexNameBytes(t) + (HeadBytes(4, |ks|) + KeyListBytes(ks, 0)))
  }

  function IndexNameBytes(t: Table): Bytes {
    if t == Orders || t == Expires then [Num(0x64), 'A', 'l', 'l', 's'] else [Num(0x63), 'A', 'l', 'l']
  }

  lemma KeyIsWritten(k: Key)
    ensures HasSchema(KeySchema(KeyTable(k)), KeyToStruct(k))
    ensures EncodeStruct(KeySchema(KeyTable(k)), KeyToStruct(k)) == KeyBytes(k)
  {
    KeyHasSchema(k);
    var s, vals := KeySchema(KeyTable(k)), KeyToStruct(k);
    match k
    case OrderKey(d) => RecordIsWritten(s, vals, ORDER_KEY_NAMES, [Txt(d)]);
    case ShardKey(o, c) => RecordIsWritten(s, vals, SHARD_KEY_NAMES, [Uint(o), Link(c)]);
    case MigrateKey(d, f) => RecordIsWritten(s, vals, MIGRATE_KEY_NAMES, [Txt(d), Txt(f)]);
    case ExpireKey(i) => RecordIsWritten(s, vals, EXPIRE_KEY_NAMES, [Uint(i)]);
  }

  lemma {:induction false} KeysAreWritten(t: Table, ks: KeyList, i: nat)
    requires KeysOfTable(t, ks) && i <= |ks| && forall j :: 0 <= j < |ks| ==> HasSchema(KeySchema(t), KeysToStructs(ks)[j])
    ensures EncodeItems(KeySchema(t), KeysToStructs(ks)[i..]) == KeyListBytes(ks, i)
    decreases |ks| - i
  {
    if i < |ks| {
      assert KeysToStructs(ks)[i..][1..] == KeysToStructs(ks)[i + 1..];
      KeyIsWritten(ks[i]);
      KeysAreWritten(t, ks, i + 1);
    }
  }

  lemma ListIsWritten(elem: Schema, items: seq<Struct>)
    requires HasKind(KList(elem), VList(items))
    ensures EncodeValue(KList(elem), VList(items)) == HeadBytes(4, |items|) + EncodeItems(elem, items)
  {
    HeadIsWritten(4, |items|);
  }

  lemma KeyListHasKind(t: Table, ks: KeyList)
    requires KeysOfTable(t, ks)
    ensures HasKind(KList(KeySchema(t)), VList(KeysToStructs(ks)))
  {
    forall i | 0 <= i < |ks| ensures HasSchema(KeySchema(t), KeysToStructs(ks)[i]) { KeyHasSchema(ks[i]); }
  }

  lemma KeyListIsWritten(t: Table, ks: KeyList)
    requires KeysOfTable(t, ks)
    ensures HasKind(KList(KeySchema(t)), VList(KeysToStructs(ks)))
    ensures EncodeValue(KList(KeySchema(t)), VList(KeysToStructs(ks))) == HeadBytes(4, |ks|) + KeyListBytes(ks, 0)
  {
    KeyListHasKind(t, ks);
    ListIsWritten(KeySchema(t), KeysToStructs(ks));
    KeysAreWritten(t, ks, 0);
    assert KeysToStructs(ks)[0..] == KeysToStructs(ks);
  }

  lemma OneField(name: Bytes, value: Bytes)
    requires |name| < 24
    ensures StructBytes([name], [value]) == [Num(0xA1)] + ([Num(0x60 + |name|)] + name + value)
  {
    assert FieldBytes([name], [value], 1) == [];
    assert value + [] == value;
  }

  lemma IndexField(t: Table, ks: KeyList, name: Bytes, value: Bytes)
    requires KeysOfTable(t, ks) && HasSchema(IndexSchema(t), IndexToStruct(ks)) && |name| < 24
    requires name == (if t == Orders || t == Expires then "Alls" else "All")
    requires HasKind(KList(KeySchema(t)), VList(KeysToStructs(ks)))
    requires EncodeValue(KList(KeySchema(t)), VList(KeysToStructs(ks))) == value
    ensures EncodeStruct(IndexSchema(t), IndexToStruct(ks)) == StructBytes([name], [value])
  {
    var s, vals := IndexSchema(t), IndexToStruct(ks);
    assert |vals| == 1 && vals[0] == VList(KeysToStructs(ks)) && s.fields[0].kind == KList(KeySchema(t));
    StructIsWritten(s, vals, [name], [value]);
  }

  /** An index list is written as these bytes. */
  lemma IndexIsWritten(t: Table, ks: KeyList)
    requires KeysOfTable(t, ks)
    ensures EncodeIndex(t, ks) == IndexBytes(t, ks)
  {
    var name: Bytes := if t == Orders || t == Expires then "Alls" else "All";
    var value := HeadBytes(4, |ks|) + KeyListBytes(ks, 0);
    IndexHasSchema(t, ks);
    KeyListIsWritten(t, ks);
    IndexField(t, ks, name, value);
    OneField(name, value);
    IndexNameIs(t, name);
  }

  lemma IndexNameIs(t: Table, name: Bytes)
    requires name == (if t == Orders || t == Expires then "Alls" else "All")
    ensures |name| < 24 && [Num(0x60 + |name|)] + name == IndexNameBytes(t)
  {
  }

  // ---------------------------------------------------------------- what the decoder accepts

  /** A reader that insists on shortest heads accepts for a scalar field only what the writer writes, within the limits. */
  lemma ScalarCanonical(lib: Lib, kind: Kind, b: Bytes) returns (item: Item)
    requires lib.canonicalOnly && (kind.KUint? || kind.KInt? || kind.KText? || kind.KCid?)
    requires DecodeValue(lib, kind, b).Done?
    ensures var v, rest := DecodeValue(lib, kind, b).value, DecodeValue(lib, kind, b).rest;
      && IsItem(kind, v, item) && b == ItemBytes(item) + rest
      && (item.Txt? ==> |item.s| <= lib.stringMax) && (item.Link? ==> 0 < |item.c| < 512 && lib.isCid(item.c))
  {
    HeadCanonical(lib, b);
    var h, rest := ReadHead(lib, b).value, ReadHead(lib, b).rest;
    HeadIsWritten(h.major, h.arg);
    match kind
    case KUint => item := Uint(h.arg);
    case KInt => item := Int(if h.major == 0 then h.arg else -1 - h.arg);
    case KText =>
      item := Txt(rest[..h.arg]);
      assert rest == rest[..h.arg] + rest[h.arg..];
    case KCid => item := CidCanonical(lib, b);
  }

  lemma CidCanonical(lib: Lib, b: Bytes) returns (item: Item)
    requires lib.canonicalOnly && ReadCid(lib, b).Done?
    ensures item.Link? && ReadCid(lib, b).value == item.c && b == CidBytes(item.c) + ReadCid(lib, b).rest
    ensures 0 < |item.c| < 512 && lib.isCid(item.c)
  {
    var b1 := ReadHead(lib, b).rest;
    var h, b2 := ReadHead(lib, b1).value, ReadHead(lib, b1).rest;
    HeadCanonical(lib, b);
    HeadIsWritten(6, 42);
    assert b == [Num(0xD8), Num(0x2A)] + b1;
    HeadCanonical(lib, b1);
    HeadIsWritten(2, h.arg);
    assert b1 == HeadBytes(2, h.arg) + b2;
    item := Link(b2[1..h.arg]);
    CutBody(b2, h.arg);
    JoinTail([Num(0xD8), Num(0x2A)], HeadBytes(2, h.arg), [Num(0x00)] + item.c, b2[h.arg..]);
  }

  lemma CutBody(b: Bytes, n: nat)
    requires 1 <= n <= |b| && b[0] == Num(0x00)
    ensures b == ([Num(0x00)] + b[1..n]) + b[n..]
  {
  }

  lemma JoinTail(a: Bytes, b: Bytes, c: Bytes, tail: Bytes)
    ensures a + (b + (c + tail)) == (a + b + c) + tail
  {
  }
}
