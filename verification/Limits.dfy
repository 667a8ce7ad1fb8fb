/**
 The limits of types/cbor_gen.go field by field: which records MarshalCBOR refuses to write and which UnmarshalCBOR refuses
 to read back.
 */
module Limits {
  import opened Basics
  import opened Cbor
  import opened Codec
  import opened Records
  import opened Wire

  /** All texts of a record of an order's map of shards are within a length. */
  predicate ShardTextsWithin(s: OrderShardInfo, n: nat) {
    |s.peer| <= n && |s.cid| <= n && |s.provider| <= n && |s.state| <= n && |s.completeHash| <= n
  }

  /** What MarshalCBOR writes: texts within the limit, a defined CID, and at most 4096 shards. */
  ghost predicate ItemFits(lib: Lib, item: Item) {
    match item
    case Uint(_) => true
    case Int(_) => true
    case Txt(s) => |s| <= lib.maxLength
    case Link(c) => c != []
    case ShardMap(m) => |m| <= 4096 && forall k :: k in m ==> |k| <= lib.maxLength && ShardTextsWithin(m[k], lib.maxLength)
  }

  /** What UnmarshalCBOR reads: texts within the reader's limit, and a CID of at most 511 bytes. */
  ghost predicate ItemReadable(lib: Lib, item: Item) {
    match item
    case Uint(_) => true
    case Int(_) => true
    case Txt(s) => |s| <= lib.stringMax
    case Link(c) => |c| < 512 && lib.isCid(c)
    case ShardMap(m) => forall k :: k in m ==> |k| <= lib.stringMax && ShardTextsWithin(m[k], lib.stringMax)
  }

  ghost predicate AllFit(lib: Lib, items: seq<Item>) {
    forall i :: 0 <= i < |items| ==> ItemFits(lib, items[i])
  }

  ghost predicate AllReadable(lib: Lib, items: seq<Item>) {
    forall i :: 0 <= i < |items| ==> ItemReadable(lib, items[i])
  }

  function Items(job: Job): seq<Item> {
    match job
    case OrderJob(o) => OrderItems(o)
    case ShardJob(s) => ShardItems(s)
    case MigrateJob(m) => MigrateItems(m)
    case ExpireJob(e) => ExpireItems(e)
  }

  /** The limits of a struct follow from those of its values. */
  lemma StructByItems(lib: Lib, s: Schema, vals: Struct, items: seq<Item>)
    requires Sane(lib) && HasSchema(s, vals) && |vals| == |items| <= 16
    requires forall i :: 0 <= i < |vals| ==> |s.fields[i].name| <= 16
    requires forall i :: 0 <= i < |vals| ==>
      && (Fits(lib, s.fields[i].kind, vals[i]) <==> ItemFits(lib, items[i]))
      && (Readable(lib, s.fields[i].kind, vals[i]) <==> ItemReadable(lib, items[i]))
    ensures StructFits(lib, s, vals) <==> forall i :: 0 <= i < |items| ==> ItemFits(lib, items[i])
    ensures StructReadable(lib, s, vals) <==> forall i :: 0 <= i < |items| ==> ItemReadable(lib, items[i])
  {
    assert forall i :: 0 <= i < |vals| ==> (FieldReadable(lib, s, vals, i) <==> ItemReadable(lib, items[i]));
  }

  function OrderShardItems(s: OrderShardInfo): seq<Item> {
    [Uint(s.shardId), Txt(s.peer), Txt(s.cid), Txt(s.provider), Txt(s.state), Txt(s.completeHash)]
  }

  lemma OrderShardHasItems(s: OrderShardInfo)
    ensures AreItems(OrderShardSchema, OrderShardToStruct(s), OrderShardItems(s))
    ensures forall i :: 0 <= i < 6 ==> |OrderShardSchema.fields[i].name| <= 16
  {
  }

  lemma OrderShardItemLimits(lib: Lib, s: OrderShardInfo)
    ensures (forall i :: 0 <= i < 6 ==> ItemFits(lib, OrderShardItems(s)[i])) <==> ShardTextsWithin(s, lib.maxLength)
    ensures (forall i :: 0 <= i < 6 ==> ItemReadable(lib, OrderShardItems(s)[i])) <==> ShardTextsWithin(s, lib.stringMax)
  {
    var items := OrderShardItems(s);
    assert items[1] == Txt(s.peer) && items[2] == Txt(s.cid) && items[3] == Txt(s.provider) && items[4] == Txt(s.state);
    assert items[5] == Txt(s.completeHash);
  }

  lemma OrderShardLimits(lib: Lib, s: OrderShardInfo)
    requires Sane(lib)
    ensures HasSchema(OrderShardSchema, OrderShardToStruct(s))
    ensures StructFits(lib, OrderShardSchema, OrderShardToStruct(s)) <==> ShardTextsWithin(s, lib.maxLength)
    ensures StructReadable(lib, OrderShardSchema, OrderShardToStruct(s)) <==> ShardTextsWithin(s, lib.stringMax)
  {
    var vals, items := OrderShardToStruct(s), OrderShardItems(s);
    OrderShardHasSchema(s);
    OrderShardHasItems(s);
    forall i | 0 <= i < 6
      ensures Fits(lib, OrderShardSchema.fields[i].kind, vals[i]) <==> ItemFits(lib, items[i])
      ensures Readable(lib, OrderShardSchema.fields[i].kind, vals[i]) <==> ItemReadable(lib, items[i])
    {
      ScalarLimits(lib, OrderShardSchema.fields[i].kind, vals[i], items[i]);
    }
    StructByItems(lib, OrderShardSchema, vals, items);
    OrderShardItemLimits(lib, s);
  }

  lemma ScalarLimits(lib: Lib, kind: Kind, v: Value, item: Item)
    requires IsItem(kind, v, item) && !item.ShardMap?
    ensures HasKind(kind, v) && (Fits(lib, kind, v) <==> ItemFits(lib, item)) && (Readable(lib, kind, v) <==> ItemReadable(lib, item))
  {
  }

  lemma ShardMapEntry(lib: Lib, shards: map<Bytes, OrderShardInfo>, structs: map<Bytes, Struct>, k: Bytes)
    requires Sane(lib) && k in shards && k in structs && structs[k] == OrderShardToStruct(shards[k])
    ensures HasSchema(OrderShardSchema, structs[k])
    ensures StructFits(lib, OrderShardSchema, structs[k]) <==> ShardTextsWithin(shards[k], lib.maxLength)
    ensures StructReadable(lib, OrderShardSchema, structs[k]) <==> ShardTextsWithin(shards[k], lib.stringMax)
  {
    OrderShardLimits(lib, shards[k]);
  }

  /** The limits of a map follow from those of its entries; `fit` and `readable` are the keys whose values are within them. */
  lemma MapByEntries(lib: Lib, elem: Schema, m: map<Bytes, Struct>, fit: set<Bytes>, readable: set<Bytes>)
    requires HasKind(KMap(elem), VMap(m))
    requires forall k :: k in m ==> (k in fit <==> StructFits(lib, elem, m[k]))
    requires forall k :: k in m ==> (k in readable <==> StructReadable(lib, elem, m[k]))
    ensures Fits(lib, KMap(elem), VMap(m)) <==> |m| <= 4096 && forall k :: k in m ==> |k| <= lib.maxLength && k in fit
    ensures Readable(lib, KMap(elem), VMap(m)) <==> forall k :: k in m ==> |k| <= lib.stringMax && k in readable
  {
  }

  lemma EntrySets(lib: Lib, shards: map<Bytes, OrderShardInfo>, structs: map<Bytes, Struct>, elem: Schema)
    returns (fit: set<Bytes>, readable: set<Bytes>)
    requires Sane(lib) && elem == OrderShardSchema && structs.Keys == shards.Keys
    requires forall k :: k in structs ==> HasSchema(elem, structs[k]) && structs[k] == OrderShardToStruct(shards[k])
    ensures forall k :: k in shards ==> (k in fit <==> ShardTextsWithin(shards[k], lib.maxLength))
    ensures forall k :: k in shards ==> (k in readable <==> ShardTextsWithin(shards[k], lib.stringMax))
    ensures forall k :: k in structs ==> (k in fit <==> StructFits(lib, elem, structs[k]))
    ensures forall k :: k in structs ==> (k in readable <==> StructReadable(lib, elem, structs[k]))
  {
    fit := set k | k in shards && ShardTextsWithin(shards[k], lib.maxLength);
    readable := set k | k in shards && ShardTextsWithin(shards[k], lib.stringMax);
    forall k | k in structs
      ensures k in fit <==> StructFits(lib, elem, structs[k])
      ensures k in readable <==> StructReadable(lib, elem, structs[k])
    {
      ShardMapEntry(lib, shards, structs, k);
    }
  }

  lemma ShardMapLimits(lib: Lib, m: Records.ShardMap, elem: Schema)
    requires Sane(lib) && elem == OrderShardSchema
    ensures HasKind(KMap(elem), VMap(ShardsToStructs(m)))
    ensures Fits(lib, KMap(elem), VMap(ShardsToStructs(m))) <==> ItemFits(lib, ShardMap(m))
    ensures Readable(lib, KMap(elem), VMap(ShardsToStructs(m))) <==> ItemReadable(lib, ShardMap(m))
  {
    ShardsHaveKind(m);
    var fit, readable := EntrySets(lib, m, ShardsToStructs(m), elem);
    MapByEntries(lib, elem, ShardsToStructs(m), fit, readable);
    ItemByEntries(lib, m, fit, readable);
  }

  lemma ItemByEntries(lib: Lib, m: Records.ShardMap, fit: set<Bytes>, readable: set<Bytes>)
    requires forall k :: k in m ==> (k in fit <==> ShardTextsWithin(m[k], lib.maxLength))
    requires forall k :: k in m ==> (k in readable <==> ShardTextsWithin(m[k], lib.stringMax))
    ensures ItemFits(lib, ShardMap(m)) <==> |m| <= 4096 && forall k :: k in m ==> |k| <= lib.maxLength && k in fit
    ensures ItemReadable(lib, ShardMap(m)) <==> forall k :: k in m ==> |k| <= lib.stringMax && k in readable
  {
  }

  lemma ItemLimits(lib: Lib, kind: Kind, v: Value, item: Item)
    requires Sane(lib) && IsItem(kind, v, item)
    ensures HasKind(kind, v) && (Fits(lib, kind, v) <==> ItemFits(lib, item)) && (Readable(lib, kind, v) <==> ItemReadable(lib, item))
  {
    if item.ShardMap? {
      ShardMapLimits(lib, item.m, OrderShardSchema);
    } else {
      ScalarLimits(lib, kind, v, item);
    }
  }

  lemma StructLimits(lib: Lib, s: Schema, vals: Struct, items: seq<Item>)
    requires Sane(lib) && HasSchema(s, vals) && AreItems(s, vals, items) && |vals| <= 16
    requires forall i :: 0 <= i < |vals| ==> |s.fields[i].name| <= 16
    ensures StructFits(lib, s, vals) <==> forall i :: 0 <= i < |items| ==> ItemFits(lib, items[i])
    ensures StructReadable(lib, s, vals) <==> forall i :: 0 <= i < |items| ==> ItemReadable(lib, items[i])
  {
    forall i | 0 <= i < |vals|
      ensures Fits(lib, s.fields[i].kind, vals[i]) <==> ItemFits(lib, items[i])
      ensures Readable(lib, s.fields[i].kind, vals[i]) <==> ItemReadable(lib, items[i])
    {
      ItemLimits(lib, s.fields[i].kind, vals[i], items[i]);
    }
    StructByItems(lib, s, vals, items);
  }

  lemma NameLengths(t: Table)
    ensures |SchemaOf(t).fields| <= 16 && forall i :: 0 <= i < |SchemaOf(t).fields| ==> |SchemaOf(t).fields[i].name| <= 16
  {
  }

  lemma JobHasItems(job: Job)
    ensures AreItems(SchemaOf(TableOf(job)), ToStruct(job), Items(job))
  {
    match job
    case OrderJob(o) => OrderHasItems(o);
    case ShardJob(s) => ShardHasItems(s);
    case MigrateJob(m) => MigrateHasItems(m);
    case ExpireJob(e) => ExpireHasItems(e);
  }

  /** A record is written exactly if every field fits, and read back exactly if every field is readable. */
  lemma LimitsExactly(lib: Lib, job: Job)
    requires Sane(lib)
    ensures JobFits(lib, job) <==> AllFit(lib, Items(job))
    ensures JobReadable(lib, job) <==> AllReadable(lib, Items(job))
  {
    JobHasSchema(job);
    JobHasItems(job);
    NameLengths(TableOf(job));
    StructLimits(lib, SchemaOf(TableOf(job)), ToStruct(job), Items(job));
  }

  /** The zero record of a table is what the empty map decodes to. */
  lemma ZeroIsEmptyMap(lib: Lib, t: Table)
    ensures DecodeJob(lib, t, [Num(0xA0)]) == Done(ZeroJob(t), [])
  {
    var b: Bytes := [Num(0xA0)];
    assert b[1..] == [];
    assert ReadHead(lib, b) == Done(Head(5, 0), []);
    assert DecodeStruct(lib, SchemaOf(t), b) == Done(ZeroStruct(SchemaOf(t)), []);
    match t
    case Orders => ZeroOrderFields();
    case Shards => ZeroShardFields();
    case Migrates =>
    case Expires =>
  }

  lemma ZeroOrderFields()
    ensures FromStruct(Orders, ZeroStruct(OrderSchema)) == ZeroJob(Orders)
  {
    assert ZeroStruct(OrderSchema)
        == [VText([]), VText([]), VCid([]), VText([]), VUint(0), VText([]), VText([]), VInt(0), VMap(map[]), VUint(0),
            VUint(0), VUint(0), VInt(0), VText([])];
  }

  lemma ZeroShardFields()
    ensures FromStruct(Shards, ZeroStruct(ShardSchema)) == ZeroJob(Shards)
  {
    assert ZeroStruct(ShardSchema)
        == [VUint(0), VText([]), VCid([]), VText([]), VText([]), VText([]), VText([]), VText([]), VInt(0), VUint(0), VUint(0),
            VUint(0), VUint(0), VInt(0), VText([])];
  }
}
