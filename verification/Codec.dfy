/**
 The struct codec of types/cbor_gen.go. Every MarshalCBOR there writes a map of its fields in declaration order and every
 UnmarshalCBOR loops over the fields it finds, whatever their order; the struct types differ only in their list of named,
 typed fields. That list is a Schema, and the generated code is modelled once, as a function of it.
 */
module Codec {
  import opened Basics
  import opened Cbor
  import opened KeyOrder

  datatype Kind = KUint | KInt | KText | KCid | KList(elem: Schema) | KMap(elem: Schema)
  datatype Field = Field(name: Bytes, kind: Kind)
  datatype Schema = Schema(fields: seq<Field>)

  /** A struct value is the sequence of its field values, in the order of its schema. */
  type Struct = seq<Value>
  datatype Value =
    | VUint(n: nat)
    | VInt(i: int)
    | VText(text: Bytes)
    | VCid(raw: Bytes)
    | VList(items: seq<seq<Value>>)
    | VMap(entries: map<Bytes, seq<Value>>)

  const MAP_MAX := 4096

  // ---------------------------------------------------------------- typing and limits

  ghost predicate DistinctNames(s: Schema) {
    forall i, j :: 0 <= i < j < |s.fields| ==> s.fields[i].name != s.fields[j].name
  }

  ghost predicate InRange(order: seq<int>, n: nat) {
    forall j :: 0 <= j < |order| ==> 0 <= order[j] < n
  }

  /** What Go's types and lengths guarantee of a value: integers are 64 bits wide, lengths are machine integers. */
  ghost predicate HasKind(kind: Kind, v: Value)
    decreases kind
  {
    match kind
    case KUint => v.VUint? && v.n < TWO_64
    case KInt => v.VInt? && -TWO_63 <= v.i < TWO_63
    case KText => v.VText? && |v.text| < TWO_63
    case KCid => v.VCid? && |v.raw| < TWO_63
    case KList(elem) => v.VList? && |v.items| < TWO_63 && forall i :: 0 <= i < |v.items| ==> HasSchema(elem, v.items[i])
    case KMap(elem) =>
      v.VMap? && |v.entries| < TWO_63
      && forall k :: k in v.entries ==> |k| < TWO_63 && HasSchema(elem, v.entries[k])
  }

  ghost predicate HasSchema(s: Schema, vals: Struct)
    decreases s, 1
  {
    && DistinctNames(s)
    && |vals| == |s.fields| < TWO_63
    && forall i :: 0 <= i < |vals| ==> |s.fields[i].name| < TWO_63 && HasKind(s.fields[i].kind, vals[i])
  }

  /** The limits that MarshalCBOR checks before it writes. */
  ghost predicate Fits(lib: Lib, kind: Kind, v: Value)
    requires HasKind(kind, v)
    decreases kind
  {
    match kind
    case KUint => true
    case KInt => true
    case KText => |v.text| <= lib.maxLength
    case KCid => v.raw != []
    case KList(elem) => |v.items| <= lib.maxLength && forall i :: 0 <= i < |v.items| ==> StructFits(lib, elem, v.items[i])
    case KMap(elem) =>
      |v.entries| <= MAP_MAX
      && forall k :: k in v.entries ==> |k| <= lib.maxLength && StructFits(lib, elem, v.entries[k])
  }

  ghost predicate StructFits(lib: Lib, s: Schema, vals: Struct)
    requires HasSchema(s, vals)
    decreases s, 1
  {
    forall i :: 0 <= i < |vals| ==> |s.fields[i].name| <= lib.maxLength && Fits(lib, s.fields[i].kind, vals[i])
  }

  /** The limits that UnmarshalCBOR checks while it reads. */
  ghost predicate Readable(lib: Lib, kind: Kind, v: Value)
    requires HasKind(kind, v)
    decreases kind
  {
    match kind
    case KUint => true
    case KInt => true
    case KText => |v.text| <= lib.stringMax
    case KCid => |v.raw| < CID_MAX && lib.isCid(v.raw)
    case KList(elem) => forall i :: 0 <= i < |v.items| ==> StructReadable(lib, elem, v.items[i])
    case KMap(elem) => forall k :: k in v.entries ==> |k| <= lib.stringMax && StructReadable(lib, elem, v.entries[k])
  }

  ghost predicate FieldReadable(lib: Lib, s: Schema, vals: Struct, i: nat)
    requires HasSchema(s, vals) && i < |vals|
    decreases s, 0
  {
    |s.fields[i].name| <= lib.stringMax && Readable(lib, s.fields[i].kind, vals[i])
  }

  ghost predicate FieldsReadable(lib: Lib, s: Schema, vals: Struct, order: seq<int>)
    requires HasSchema(s, vals) && InRange(order, |vals|)
    decreases s, 1
  {
    forall j :: 0 <= j < |order| ==> FieldReadable(lib, s, vals, order[j])
  }

  ghost predicate StructReadable(lib: Lib, s: Schema, vals: Struct)
    requires HasSchema(s, vals)
    decreases s, 1
  {
    |s.fields| <= lib.maxLength && forall i :: 0 <= i < |vals| ==> FieldReadable(lib, s, vals, i)
  }

  ghost predicate EntriesReadable(lib: Lib, s: Schema, m: map<Bytes, Struct>, ks: seq<Bytes>)
    requires AllEntries(s, m, ks)
  {
    forall j :: 0 <= j < |ks| ==> |ks[j]| <= lib.stringMax && StructReadable(lib, s, m[ks[j]])
  }

  // ---------------------------------------------------------------- encoding

  function Upto(n: nat): (p: seq<int>)
    ensures |p| == n && forall i :: 0 <= i < n ==> p[i] == i
  {
    seq(n, i requires 0 <= i < n => i)
  }

  function EncodeInt(i: int): Bytes
    requires -TWO_63 <= i < TWO_63
  {
    if i >= 0 then WriteHead(MAJ_UINT, i) else WriteHead(MAJ_NEGATIVE, -i - 1)
  }

  ghost function EncodeValue(kind: Kind, v: Value): Bytes
    requires HasKind(kind, v)
    decreases kind, 0
  {
    match kind
    case KUint => WriteHead(MAJ_UINT, v.n)
    case KInt => EncodeInt(v.i)
    case KText => WriteText(v.text)
    case KCid => WriteCid(v.raw)
    case KList(elem) => WriteHead(MAJ_ARRAY, |v.items|) + EncodeItems(elem, v.items)
    case KMap(elem) => WriteHead(MAJ_MAP, |v.entries|) + EncodeEntries(elem, v.entries, SortedKeys(v.entries.Keys))
  }

  ghost function EncodeItems(s: Schema, items: seq<Struct>): Bytes
    requires forall i :: 0 <= i < |items| ==> HasSchema(s, items[i])
    decreases s, 3, |items|
  {
    if items == [] then [] else EncodeStruct(s, items[0]) + EncodeItems(s, items[1..])
  }

  ghost predicate AllEntries(s: Schema, m: map<Bytes, Struct>, ks: seq<Bytes>) {
    forall j :: 0 <= j < |ks| ==> ks[j] in m && |ks[j]| < TWO_63 && HasSchema(s, m[ks[j]])
  }

  /** The entries of a map in the given order of keys. */
  ghost function EncodeEntries(s: Schema, m: map<Bytes, Struct>, ks: seq<Bytes>): Bytes
    requires AllEntries(s, m, ks)
    decreases s, 3, |ks|
  {
    if ks == [] then []
    else WriteText(ks[0]) + (EncodeStruct(s, m[ks[0]]) + EncodeEntries(s, m, ks[1..]))
  }

  /** The fields of a struct in the given order of field numbers. */
  ghost function EncodeFields(s: Schema, vals: Struct, order: seq<int>): Bytes
    requires HasSchema(s, vals) && InRange(order, |vals|)
    decreases s, 1, |order|
  {
    if order == [] then []
    else
      var i := order[0];
      WriteText(s.fields[i].name) + (EncodeValue(s.fields[i].kind, vals[i]) + EncodeFields(s, vals, order[1..]))
  }

  /** The bytes that MarshalCBOR writes: fields in declaration order. */
  ghost function EncodeStruct(s: Schema, vals: Struct): Bytes
    requires HasSchema(s, vals)
    decreases s, 2
  {
    WriteHead(MAJ_MAP, |vals|) + EncodeFields(s, vals, Upto(|vals|))
  }

  // ---------------------------------------------------------------- decoding

  /** The zero value of a field and of a struct. */
  function ZeroValue(kind: Kind): Value {
    match kind
    case KUint => VUint(0)
    case KInt => VInt(0)
    case KText => VText([])
    case KCid => VCid([])
    case KList(_) => VList([])
    case KMap(_) => VMap(map[])
  }

  function ZeroStruct(s: Schema): (vals: Struct)
    ensures |vals| == |s.fields|
  {
    seq(|s.fields|, i requires 0 <= i < |s.fields| => ZeroValue(s.fields[i].kind))
  }

  /** The number of the field with the given name, or the number of fields if there is none (the `switch name`). */
  function FieldNumber(fields: seq<Field>, name: Bytes): (i: nat)
    ensures i <= |fields|
    ensures i < |fields| ==> fields[i].name == name
    ensures i == |fields| ==> forall j :: 0 <= j < |fields| ==> fields[j].name != name
  {
    if fields == [] then 0
    else if fields[0].name == name then 0
    else 1 + FieldNumber(fields[1..], name)
  }

  function DecodeInt(lib: Lib, b: Bytes): Parsed<int> {
    match ReadHead(lib, b)
    case Fail => Fail
    case Done(h, rest) =>
      if h.major == MAJ_UINT && h.arg < TWO_63 then Done(h.arg, rest)
      else if h.major == MAJ_NEGATIVE && h.arg < TWO_63 then Done(-1 - h.arg, rest)
      else Fail
  }

  function DecodeValue(lib: Lib, kind: Kind, b: Bytes): Parsed<Value>
    decreases kind, 0
  {
    match kind
    case KUint =>
      (match ReadHead(lib, b)
       case Fail => Fail
       case Done(h, rest) => if h.major == MAJ_UINT then Done(VUint(h.arg), rest) else Fail)
    case KInt =>
      (match DecodeInt(lib, b)
       case Fail => Fail
       case Done(i, rest) => Done(VInt(i), rest))
    case KText =>
      (match ReadText(lib, b)
       case Fail => Fail
       case Done(s, rest) => Done(VText(s), rest))
    case KCid =>
      (match ReadCid(lib, b)
       case Fail => Fail
       case Done(raw, rest) => Done(VCid(raw), rest))
    case KList(elem) =>
      (match ReadHead(lib, b)
       case Fail => Fail
       case Done(h, rest) =>
         if h.arg > lib.maxLength || h.major != MAJ_ARRAY then Fail
         else
           match DecodeItems(lib, elem, h.arg, rest)
           case Fail => Fail
           case Done(items, rest') => Done(VList(items), rest'))
    case KMap(elem) =>
      (match ReadHead(lib, b)
       case Fail => Fail
       case Done(h, rest) =>
         if h.major != MAJ_MAP || h.arg > MAP_MAX then Fail
         else
           match DecodeEntries(lib, elem, h.arg, rest, map[])
           case Fail => Fail
           case Done(m, rest') => Done(VMap(m), rest'))
  }

  function DecodeItems(lib: Lib, s: Schema, n: nat, b: Bytes): (r: Parsed<seq<Struct>>)
    decreases s, 3, n
  {
    if n == 0 then Done([], b)
    else
      match DecodeStruct(lib, s, b)
      case Fail => Fail
      case Done(item, rest) =>
        match DecodeItems(lib, s, n - 1, rest)
        case Fail => Fail
        case Done(items, rest') => Done([item] + items, rest')
  }

  function DecodeEntries(lib: Lib, s: Schema, n: nat, b: Bytes, acc: map<Bytes, Struct>): Parsed<map<Bytes, Struct>>
    decreases s, 3, n
  {
    if n == 0 then Done(acc, b)
    else
      match ReadText(lib, b)
      case Fail => Fail
      case Done(k, rest) =>
        match DecodeStruct(lib, s, rest)
        case Fail => Fail
        case Done(v, rest') => DecodeEntries(lib, s, n - 1, rest', acc[k := v])
  }

  /** What is left of the input after ScanForLinks passed over an unknown field; its error is dropped. */
  function Skipped(lib: Lib, b: Bytes): Bytes {
    if lib.skip(b) <= |b| then b[lib.skip(b)..] else []
  }

  /** The assignment of a value to a field; a list of length zero leaves the field as it was. */
  function Assign(acc: Struct, i: nat, v: Value): (r: Struct)
    requires i < |acc|
    ensures |r| == |acc|
  {
    if v == VList([]) then acc else acc[i := v]
  }

  /** One turn of the loop: a name and its value, assigned to the field of that name. */
  function DecodeField(lib: Lib, s: Schema, b: Bytes, acc: Struct): (r: Parsed<Struct>)
    requires |acc| == |s.fields|
    ensures r.Done? ==> |r.value| == |s.fields|
    decreases s, 0
  {
    match ReadText(lib, b)
    case Fail => Fail
    case Done(name, rest) =>
      var i := FieldNumber(s.fields, name);
      if i == |s.fields| then Done(acc, Skipped(lib, rest))
      else
        match DecodeValue(lib, s.fields[i].kind, rest)
        case Fail => Fail
        case Done(v, rest') => Done(Assign(acc, i, v), rest')
  }

  function DecodeFields(lib: Lib, s: Schema, n: nat, b: Bytes, acc: Struct): (r: Parsed<Struct>)
    requires |acc| == |s.fields|
    ensures r.Done? ==> |r.value| == |s.fields|
    decreases s, 1, n
  {
    if n == 0 then Done(acc, b)
    else
      match DecodeField(lib, s, b, acc)
      case Fail => Fail
      case Done(acc', rest) => DecodeFields(lib, s, n - 1, rest, acc')
  }

  function DecodeStruct(lib: Lib, s: Schema, b: Bytes): (r: Parsed<Struct>)
    ensures r.Done? ==> |r.value| == |s.fields|
    decreases s, 2
  {
    match ReadHead(lib, b)
    case Fail => Fail
    case Done(h, rest) =>
      if h.major != MAJ_MAP || h.arg > lib.maxLength then Fail
      else DecodeFields(lib, s, h.arg, rest, ZeroStruct(s))
  }

  // ---------------------------------------------------------------- round trip

  /** `acc` with the listed fields taken from `vals`. */
  ghost function Overlay(acc: Struct, vals: Struct, order: seq<int>): (r: Struct)
    requires |acc| == |vals| && InRange(order, |vals|)
    ensures |r| == |vals|
    ensures forall i :: 0 <= i < |vals| ==> r[i] == if i in order then vals[i] else acc[i]
    decreases |order|
  {
    if order == [] then acc else Overlay(acc[order[0] := vals[order[0]]], vals, order[1..])
  }

  /** Where a list is empty, nothing was decoded before; so nothing is lost if it is not assigned. */
  ghost predicate EmptyListsFree(acc: Struct, vals: Struct)
    requires |acc| == |vals|
  {
    forall i :: 0 <= i < |vals| && vals[i] == VList([]) ==> acc[i] == VList([])
  }

  ghost function OverlayMap(acc: map<Bytes, Struct>, m: map<Bytes, Struct>, ks: seq<Bytes>): (r: map<Bytes, Struct>)
    requires forall k :: k in ks ==> k in m
    ensures r.Keys == acc.Keys + Elems(ks)
    ensures forall k :: k in r ==> r[k] == if k in ks then m[k] else acc[k]
    decreases |ks|
  {
    if ks == [] then acc else OverlayMap(acc[ks[0] := m[ks[0]]], m, ks[1..])
  }

  lemma {:induction false} ValueRoundTrip(lib: Lib, kind: Kind, v: Value, tail: Bytes)
    requires HasKind(kind, v) && Fits(lib, kind, v)
    ensures DecodeValue(lib, kind, EncodeValue(kind, v) + tail)
         == if Readable(lib, kind, v) then Done(v, tail) else Fail
    decreases kind, 0
  {
    match kind
    case KUint => HeadRoundTrip(lib, MAJ_UINT, v.n, tail);
    case KInt =>
      if v.i >= 0 { HeadRoundTrip(lib, MAJ_UINT, v.i, tail); } else { HeadRoundTrip(lib, MAJ_NEGATIVE, -v.i - 1, tail); }
    case KText => TextRoundTrip(lib, v.text, tail);
    case KCid => CidRoundTrip(lib, v.raw, tail);
    case KList(elem) => ListRoundTrip(lib, elem, v.items, tail);
    case KMap(elem) => MapRoundTrip(lib, elem, v.entries, tail);
  }

  lemma {:induction false} ListRoundTrip(lib: Lib, elem: Schema, items: seq<Struct>, tail: Bytes)
    requires HasKind(KList(elem), VList(items)) && Fits(lib, KList(elem), VList(items))
    ensures DecodeValue(lib, KList(elem), EncodeValue(KList(elem), VList(items)) + tail)
         == if Readable(lib, KList(elem), VList(items)) then Done(VList(items), tail) else Fail
    decreases elem, 4
  {
    var body := EncodeItems(elem, items);
    var head := WriteHead(MAJ_ARRAY, |items|);
    HeadRoundTrip(lib, MAJ_ARRAY, |items|, body + tail);
    assert head + body + tail == head + (body + tail);
    ItemsRoundTrip(lib, elem, items, tail);
  }

  lemma SortedEntriesReadable(lib: Lib, elem: Schema, m: map<Bytes, Struct>)
    requires HasKind(KMap(elem), VMap(m))
    ensures AllEntries(elem, m, SortedKeys(m.Keys))
    ensures EntriesReadable(lib, elem, m, SortedKeys(m.Keys)) <==> Readable(lib, KMap(elem), VMap(m))
  {
    var ks := SortedKeys(m.Keys);
    if EntriesReadable(lib, elem, m, ks) {
      forall k | k in m ensures |k| <= lib.stringMax && StructReadable(lib, elem, m[k]) {
        var j :| 0 <= j < |ks| && ks[j] == k;
      }
    }
  }

  lemma OverlayAll(m: map<Bytes, Struct>)
    ensures OverlayMap(map[], m, SortedKeys(m.Keys)) == m
  {
    var r := OverlayMap(map[], m, SortedKeys(m.Keys));
    assert r.Keys == m.Keys;
  }

  lemma DecodeMapAfterHead(lib: Lib, elem: Schema, n: nat, b: Bytes, rest: Bytes)
    requires ReadHead(lib, b) == Done(Head(MAJ_MAP, n), rest) && n <= MAP_MAX
    ensures DecodeValue(lib, KMap(elem), b)
         == match DecodeEntries(lib, elem, n, rest, map[])
            case Fail => Fail
            case Done(m, rest') => Done(VMap(m), rest')
  {
  }

  lemma {:induction false} MapRoundTrip(lib: Lib, elem: Schema, m: map<Bytes, Struct>, tail: Bytes)
    requires HasKind(KMap(elem), VMap(m)) && Fits(lib, KMap(elem), VMap(m))
    ensures DecodeValue(lib, KMap(elem), EncodeValue(KMap(elem), VMap(m)) + tail)
         == if Readable(lib, KMap(elem), VMap(m)) then Done(VMap(m), tail) else Fail
    decreases elem, 4
  {
    var ks := SortedKeys(m.Keys);
    SortedEntriesReadable(lib, elem, m);
    SortedKeysLength(m.Keys);
    var head, body := WriteHead(MAJ_MAP, |m|), EncodeEntries(elem, m, ks);
    assert EncodeValue(KMap(elem), VMap(m)) + tail == head + (body + tail);
    HeadRoundTrip(lib, MAJ_MAP, |m|, body + tail);
    DecodeMapAfterHead(lib, elem, |m|, head + (body + tail), body + tail);
    EntriesRoundTrip(lib, elem, m, ks, map[], tail);
    OverlayAll(m);
  }

  lemma {:induction false} ItemsRoundTrip(lib: Lib, s: Schema, items: seq<Struct>, tail: Bytes)
    requires forall i :: 0 <= i < |items| ==> HasSchema(s, items[i]) && StructFits(lib, s, items[i])
    ensures DecodeItems(lib, s, |items|, EncodeItems(s, items) + tail)
         == if forall i :: 0 <= i < |items| ==> StructReadable(lib, s, items[i]) then Done(items, tail) else Fail
    decreases s, 3, |items|
  {
    if items == [] {
      assert EncodeItems(s, items) + tail == tail;
    } else {
      var more := EncodeItems(s, items[1..]);
      assert EncodeItems(s, items) + tail == EncodeStruct(s, items[0]) + (more + tail);
      StructRoundTrip(lib, s, items[0], more + tail);
      ItemsRoundTrip(lib, s, items[1..], tail);
      assert items == [items[0]] + items[1..];
      assert forall i :: 0 <= i < |items| - 1 ==> items[1..][i] == items[i + 1];
    }
  }

  /** Whatever the order of the keys, the decoder collects the same entries. */
  lemma {:induction false} EntriesRoundTrip(
    lib: Lib, s: Schema, m: map<Bytes, Struct>, ks: seq<Bytes>, acc: map<Bytes, Struct>, tail: Bytes)
    requires AllEntries(s, m, ks) && forall j :: 0 <= j < |ks| ==> StructFits(lib, s, m[ks[j]])
    ensures DecodeEntries(lib, s, |ks|, EncodeEntries(s, m, ks) + tail, acc)
         == if EntriesReadable(lib, s, m, ks) then Done(OverlayMap(acc, m, ks), tail) else Fail
    decreases s, 3, |ks|
  {
    if ks == [] {
      assert EncodeEntries(s, m, ks) + tail == tail;
    } else {
      var k := ks[0];
      var more := EncodeEntries(s, m, ks[1..]);
      TailInside(WriteText(k), EncodeStruct(s, m[k]), more, tail);
      EntryStep(lib, s, k, m[k], |ks|, acc, more + tail);
      EntriesReadableStep(lib, s, m, ks);
      if |k| <= lib.stringMax && StructReadable(lib, s, m[k]) {
        EntriesRoundTrip(lib, s, m, ks[1..], acc[k := m[k]], tail);
      }
    }
  }

  lemma EntriesReadableStep(lib: Lib, s: Schema, m: map<Bytes, Struct>, ks: seq<Bytes>)
    requires AllEntries(s, m, ks) && ks != []
    ensures EntriesReadable(lib, s, m, ks)
       <==> |ks[0]| <= lib.stringMax && StructReadable(lib, s, m[ks[0]]) && EntriesReadable(lib, s, m, ks[1..])
  {
    assert forall j :: 0 < j < |ks| ==> ks[j] == ks[1..][j - 1];
  }

  lemma {:induction false} EntryStep(
    lib: Lib, s: Schema, k: Bytes, v: Struct, n: nat, acc: map<Bytes, Struct>, tail: Bytes)
    requires n > 0 && |k| < TWO_63 && HasSchema(s, v) && StructFits(lib, s, v)
    ensures DecodeEntries(lib, s, n, WriteText(k) + (EncodeStruct(s, v) + tail), acc)
         == if |k| <= lib.stringMax && StructReadable(lib, s, v)
            then DecodeEntries(lib, s, n - 1, tail, acc[k := v]) else Fail
    decreases s, 3, 0
  {
    TextRoundTrip(lib, k, EncodeStruct(s, v) + tail);
    StructRoundTrip(lib, s, v, tail);
  }

  lemma FieldNumberOf(s: Schema, i: nat)
    requires DistinctNames(s) && i < |s.fields|
    ensures FieldNumber(s.fields, s.fields[i].name) == i
  {
  }

  lemma FieldsReadableStep(lib: Lib, s: Schema, vals: Struct, order: seq<int>)
    requires HasSchema(s, vals) && InRange(order, |vals|) && order != []
    ensures FieldsReadable(lib, s, vals, order)
       <==> FieldReadable(lib, s, vals, order[0]) && FieldsReadable(lib, s, vals, order[1..])
  {
    assert forall j :: 0 < j < |order| ==> order[j] == order[1..][j - 1];
  }

  /** Whatever the order of the fields, and whatever was decoded before, each listed field is set to its value. */
  lemma {:induction false} FieldsRoundTrip(lib: Lib, s: Schema, vals: Struct, order: seq<int>, acc: Struct, tail: Bytes)
    requires HasSchema(s, vals) && StructFits(lib, s, vals) && |acc| == |vals| && EmptyListsFree(acc, vals)
    requires InRange(order, |vals|) && FieldsReadable(lib, s, vals, order)
    ensures DecodeFields(lib, s, |order|, EncodeFields(s, vals, order) + tail, acc) == Done(Overlay(acc, vals, order), tail)
    decreases s, 1, |order|
  {
    if order == [] {
      assert EncodeFields(s, vals, order) + tail == tail;
    } else {
      FieldsReadableStep(lib, s, vals, order);
      FieldsStep(lib, s, vals, order, acc, tail);
      FieldsRoundTrip(lib, s, vals, order[1..], acc[order[0] := vals[order[0]]], tail);
    }
  }

  /** One field that cannot be read makes the decoder fail. */
  lemma {:induction false} FieldsFail(lib: Lib, s: Schema, vals: Struct, order: seq<int>, acc: Struct, tail: Bytes)
    requires HasSchema(s, vals) && StructFits(lib, s, vals) && |acc| == |vals| && EmptyListsFree(acc, vals)
    requires InRange(order, |vals|) && !FieldsReadable(lib, s, vals, order)
    ensures DecodeFields(lib, s, |order|, EncodeFields(s, vals, order) + tail, acc) == Fail
    decreases s, 1, |order|
  {
    FieldsReadableStep(lib, s, vals, order);
    FieldsStep(lib, s, vals, order, acc, tail);
    if FieldReadable(lib, s, vals, order[0]) {
      FieldsFail(lib, s, vals, order[1..], acc[order[0] := vals[order[0]]], tail);
    }
  }

  lemma {:induction false} FieldsStep(lib: Lib, s: Schema, vals: Struct, order: seq<int>, acc: Struct, tail: Bytes)
    requires HasSchema(s, vals) && StructFits(lib, s, vals) && |acc| == |vals| && EmptyListsFree(acc, vals)
    requires InRange(order, |vals|) && order != []
    ensures FieldReadable(lib, s, vals, order[0]) ==>
      DecodeFields(lib, s, |order|, EncodeFields(s, vals, order) + tail, acc)
      == DecodeFields(lib, s, |order[1..]|, EncodeFields(s, vals, order[1..]) + tail, acc[order[0] := vals[order[0]]])
    ensures !FieldReadable(lib, s, vals, order[0]) ==>
      DecodeFields(lib, s, |order|, EncodeFields(s, vals, order) + tail, acc) == Fail
    decreases s, 0, 1
  {
    var i := order[0];
    var more := EncodeFields(s, vals, order[1..]);
    TailInside(WriteText(s.fields[i].name), EncodeValue(s.fields[i].kind, vals[i]), more, tail);
    FieldStep(lib, s, vals, i, acc, more + tail);
  }

  lemma TailInside(a: Bytes, b: Bytes, c: Bytes, tail: Bytes)
    ensures a + (b + c) + tail == a + (b + (c + tail))
  {
  }

  lemma {:induction false} FieldStep(lib: Lib, s: Schema, vals: Struct, i: nat, acc: Struct, tail: Bytes)
    requires HasSchema(s, vals) && StructFits(lib, s, vals) && |acc| == |vals| && i < |vals| && EmptyListsFree(acc, vals)
    ensures DecodeField(lib, s, WriteText(s.fields[i].name) + (EncodeValue(s.fields[i].kind, vals[i]) + tail), acc)
         == if FieldReadable(lib, s, vals, i) then Done(acc[i := vals[i]], tail) else Fail
    decreases s, 0, 0
  {
    var field := s.fields[i];
    TextRoundTrip(lib, field.name, EncodeValue(field.kind, vals[i]) + tail);
    FieldNumberOf(s, i);
    ValueRoundTrip(lib, field.kind, vals[i], tail);
    assert Assign(acc, i, vals[i]) == acc[i := vals[i]];
  }

  /**
   Decoding any reordering of a struct's fields, followed by anything, gives back the struct and consumes exactly the
   encoding, and it does so if and only if the struct is within the reader's limits.
   */
  lemma {:induction false} PermutedRoundTrip(lib: Lib, s: Schema, vals: Struct, order: seq<int>, tail: Bytes)
    requires HasSchema(s, vals) && StructFits(lib, s, vals)
    requires |order| == |vals| && InRange(order, |vals|)
    requires forall i :: 0 <= i < |vals| ==> i in order
    ensures DecodeStruct(lib, s, WriteHead(MAJ_MAP, |vals|) + EncodeFields(s, vals, order) + tail)
         == if StructReadable(lib, s, vals) then Done(vals, tail) else Fail
    decreases s, 2, 0
  {
    if FieldsReadable(lib, s, vals, order) {
      forall i | 0 <= i < |vals| ensures FieldReadable(lib, s, vals, i) {
        assert i in order;
        var j :| 0 <= j < |order| && order[j] == i;
      }
    }
    var body := EncodeFields(s, vals, order);
    HeadRoundTrip(lib, MAJ_MAP, |vals|, body + tail);
    assert WriteHead(MAJ_MAP, |vals|) + body + tail == WriteHead(MAJ_MAP, |vals|) + (body + tail);
    if FieldsReadable(lib, s, vals, order) {
      FieldsRoundTrip(lib, s, vals, order, ZeroStruct(s), tail);
      assert Overlay(ZeroStruct(s), vals, order) == vals;
    } else {
      FieldsFail(lib, s, vals, order, ZeroStruct(s), tail);
    }
  }

  lemma {:induction false} StructRoundTrip(lib: Lib, s: Schema, vals: Struct, tail: Bytes)
    requires HasSchema(s, vals) && StructFits(lib, s, vals)
    ensures DecodeStruct(lib, s, EncodeStruct(s, vals) + tail)
         == if StructReadable(lib, s, vals) then Done(vals, tail) else Fail
    decreases s, 2, 1
  {
    forall i | 0 <= i < |vals| ensures i in Upto(|vals|) { assert Upto(|vals|)[i] == i; }
    PermutedRoundTrip(lib, s, vals, Upto(|vals|), tail);
  }

  /** A field of an unknown name is passed over, if the library passes over its value. */
  lemma UnknownFieldIgnored(lib: Lib, s: Schema, name: Bytes, value: Bytes, tail: Bytes, acc: Struct)
    requires |acc| == |s.fields| && |name| < TWO_63 && |name| <= lib.stringMax
    requires forall i :: 0 <= i < |s.fields| ==> s.fields[i].name != name
    requires lib.skip(value + tail) == |value|
    ensures DecodeField(lib, s, WriteText(name) + (value + tail), acc) == Done(acc, tail)
  {
    TextRoundTrip(lib, name, value + tail);
    assert (value + tail)[|value|..] == tail;
  }

  /** A list field that arrives with length zero leaves what was decoded before. */
  lemma EmptyListKeepsField(lib: Lib, s: Schema, i: nat, tail: Bytes, acc: Struct)
    requires |acc| == |s.fields| && i < |s.fields| && s.fields[i].kind.KList? && DistinctNames(s)
    requires |s.fields[i].name| < TWO_63 && |s.fields[i].name| <= lib.stringMax
    ensures DecodeField(lib, s, WriteText(s.fields[i].name) + (WriteHead(4, 0) + tail), acc) == Done(acc, tail)
  {
    TextRoundTrip(lib, s.fields[i].name, WriteHead(4, 0) + tail);
    FieldNumberOf(s, i);
    HeadRoundTrip(lib, 4, 0, tail);
    assert DecodeItems(lib, s.fields[i].kind.elem, 0, tail) == Done([], tail);
    assert DecodeValue(lib, s.fields[i].kind, WriteHead(4, 0) + tail) == Done(VList([]), tail);
  }

  /** Of two values for one field, the later one counts. */
  lemma LaterFieldWins(lib: Lib, s: Schema, u: Struct, v: Struct, i: nat, acc: Struct, tail: Bytes)
    requires HasSchema(s, u) && StructFits(lib, s, u) && HasSchema(s, v) && StructFits(lib, s, v) && i < |u|
    requires FieldReadable(lib, s, u, i) && FieldReadable(lib, s, v, i) && |acc| == |u| && !s.fields[i].kind.KList?
    ensures var name := WriteText(s.fields[i].name); var kind := s.fields[i].kind;
      DecodeFields(lib, s, 2, name + (EncodeValue(kind, u[i]) + (name + (EncodeValue(kind, v[i]) + tail))), acc)
      == Done(acc[i := v[i]], tail)
  {
    var name, kind := WriteText(s.fields[i].name), s.fields[i].kind;
    var rest := name + (EncodeValue(kind, v[i]) + tail);
    FieldAssigned(lib, s, u, i, acc, rest);
    FieldAssigned(lib, s, v, i, acc[i := u[i]], tail);
    assert acc[i := u[i]][i := v[i]] == acc[i := v[i]];
    assert DecodeFields(lib, s, 1, rest, acc[i := u[i]]) == DecodeFields(lib, s, 0, tail, acc[i := v[i]]);
  }

  lemma FieldAssigned(lib: Lib, s: Schema, vals: Struct, i: nat, acc: Struct, tail: Bytes)
    requires HasSchema(s, vals) && StructFits(lib, s, vals) && i < |vals| && FieldReadable(lib, s, vals, i)
    requires |acc| == |vals| && !s.fields[i].kind.KList?
    ensures DecodeField(lib, s, WriteText(s.fields[i].name) + (EncodeValue(s.fields[i].kind, vals[i]) + tail), acc)
         == Done(acc[i := vals[i]], tail)
  {
    var field := s.fields[i];
    TextRoundTrip(lib, field.name, EncodeValue(field.kind, vals[i]) + tail);
    FieldNumberOf(s, i);
    ValueRoundTrip(lib, field.kind, vals[i], tail);
  }

  /** Of two entries of a map under one key, the later one counts. */
  lemma LaterEntryWins(lib: Lib, s: Schema, k: Bytes, u: Struct, v: Struct, acc: map<Bytes, Struct>, tail: Bytes)
    requires HasSchema(s, u) && StructFits(lib, s, u) && StructReadable(lib, s, u)
    requires HasSchema(s, v) && StructFits(lib, s, v) && StructReadable(lib, s, v)
    requires |k| < TWO_63 && |k| <= lib.stringMax
    ensures DecodeEntries(lib, s, 2, WriteText(k) + (EncodeStruct(s, u) + (WriteText(k) + (EncodeStruct(s, v) + tail))), acc)
         == Done(acc[k := v], tail)
  {
    var rest := WriteText(k) + (EncodeStruct(s, v) + tail);
    EntryStep(lib, s, k, u, 2, acc, rest);
    EntryStep(lib, s, k, v, 1, acc[k := u], tail);
    assert acc[k := u][k := v] == acc[k := v];
  }

  /** Encodings of readable structs are prefix-free and injective. */
  lemma PrefixFree(lib: Lib, s: Schema, u: Struct, v: Struct, tail: Bytes)
    requires HasSchema(s, u) && StructFits(lib, s, u) && StructReadable(lib, s, u)
    requires HasSchema(s, v) && StructFits(lib, s, v) && StructReadable(lib, s, v)
    requires EncodeStruct(s, u) + tail == EncodeStruct(s, v)
    ensures u == v && tail == []
  {
    StructRoundTrip(lib, s, u, tail);
    StructRoundTrip(lib, s, v, []);
    assert EncodeStruct(s, v) + [] == EncodeStruct(s, v);
  }

  // ---------------------------------------------------------------- the generated code

  /** The keys of a map are collected in whatever order the map yields them, then sorted. */
  method CollectSortedKeys(m: map<Bytes, Struct>) returns (ks: seq<Bytes>)
    ensures ks == SortedKeys(m.Keys)
  {
    ks := [];
    var left := m.Keys;
    while left != {}
      invariant left <= m.Keys
      invariant StrictlySorted(ks) && Elems(ks) == m.Keys - left
    {
      var k :| k in left;
      assert k !in Elems(ks);
      InsertSorts(ks, k);
      ks := Insert(ks, k);
      left := left - {k};
    }
    SortedUnique(ks, SortedKeys(m.Keys));
  }

  lemma Regroup(w: Bytes, a: Bytes, b: Bytes, c: Bytes)
    ensures w + (a + (b + c)) == w + a + b + c
  {
  }

  lemma NextField(s: Schema, vals: Struct, i: nat) returns (rest: Bytes)
    requires HasSchema(s, vals) && i < |vals|
    ensures rest == EncodeFields(s, vals, Upto(|vals|)[i + 1..])
    ensures EncodeFields(s, vals, Upto(|vals|)[i..])
         == WriteText(s.fields[i].name) + (EncodeValue(s.fields[i].kind, vals[i]) + rest)
  {
    rest := EncodeFields(s, vals, Upto(|vals|)[i + 1..]);
    assert Upto(|vals|)[i..][1..] == Upto(|vals|)[i + 1..];
  }

  /** MarshalCBOR: writes the head of the map, then one name and one value for each field, or reports an error. */
  method Marshal(lib: Lib, s: Schema, vals: Struct) returns (r: Option<Bytes>)
    requires HasSchema(s, vals)
    ensures r == if StructFits(lib, s, vals) then Some(EncodeStruct(s, vals)) else None
    decreases s, 2
  {
    var w := WriteHead(MAJ_MAP, |vals|);
    for i := 0 to |vals|
      invariant forall j :: 0 <= j < i ==> |s.fields[j].name| <= lib.maxLength && Fits(lib, s.fields[j].kind, vals[j])
      invariant w + EncodeFields(s, vals, Upto(|vals|)[i..]) == EncodeStruct(s, vals)
    {
      if |s.fields[i].name| > lib.maxLength { return None; }
      var v := MarshalValue(lib, s.fields[i].kind, vals[i]);
      if v.None? { return None; }
      ghost var rest := NextField(s, vals, i);
      Regroup(w, WriteText(s.fields[i].name), v.value, rest);
      w := w + WriteText(s.fields[i].name) + v.value;
    }
    assert w + [] == w;
    return Some(w);
  }

  method MarshalValue(lib: Lib, kind: Kind, v: Value) returns (r: Option<Bytes>)
    requires HasKind(kind, v)
    ensures r == if Fits(lib, kind, v) then Some(EncodeValue(kind, v)) else None
    decreases kind, 0
  {
    match kind
    case KUint => r := Some(WriteHead(MAJ_UINT, v.n));
    case KInt => r := Some(if v.i >= 0 then WriteHead(MAJ_UINT, v.i) else WriteHead(MAJ_NEGATIVE, -v.i - 1));
    case KText => r := if |v.text| > lib.maxLength then None else Some(WriteText(v.text));
    case KCid => r := if v.raw == [] then None else Some(WriteCid(v.raw));
    case KList(elem) => r := MarshalItems(lib, elem, v.items);
    case KMap(elem) => r := MarshalEntries(lib, elem, v.entries);
  }

  method MarshalItems(lib: Lib, elem: Schema, items: seq<Struct>) returns (r: Option<Bytes>)
    requires HasKind(KList(elem), VList(items))
    ensures r == if Fits(lib, KList(elem), VList(items)) then Some(EncodeValue(KList(elem), VList(items))) else None
    decreases elem, 3
  {
    if |items| > lib.maxLength { return None; }
    var w := WriteHead(MAJ_ARRAY, |items|);
    for i := 0 to |items|
      invariant forall j :: 0 <= j < i ==> StructFits(lib, elem, items[j])
      invariant w + EncodeItems(elem, items[i..]) == EncodeValue(KList(elem), VList(items))
    {
      var v := Marshal(lib, elem, items[i]);
      if v.None? { return None; }
      assert items[i..][1..] == items[i + 1..];
      w := w + v.value;
    }
    assert w + [] == w;
    return Some(w);
  }

  method MarshalEntries(lib: Lib, elem: Schema, m: map<Bytes, Struct>) returns (r: Option<Bytes>)
    requires HasKind(KMap(elem), VMap(m))
    ensures r == if Fits(lib, KMap(elem), VMap(m)) then Some(EncodeValue(KMap(elem), VMap(m))) else None
    decreases elem, 4
  {
    if |m| > MAP_MAX { return None; }
    var ks := CollectSortedKeys(m);
    assert forall k :: k in m ==> k in ks;
    var body := MarshalKeys(lib, elem, m, ks);
    if body.None? { return None; }
    return Some(WriteHead(MAJ_MAP, |m|) + body.value);
  }

  lemma NextEntry(s: Schema, m: map<Bytes, Struct>, ks: seq<Bytes>, i: nat) returns (rest: Bytes)
    requires AllEntries(s, m, ks) && i < |ks|
    ensures rest == EncodeEntries(s, m, ks[i + 1..])
    ensures EncodeEntries(s, m, ks[i..]) == WriteText(ks[i]) + (EncodeStruct(s, m[ks[i]]) + rest)
  {
    rest := EncodeEntries(s, m, ks[i + 1..]);
    assert ks[i..][1..] == ks[i + 1..];
  }

  method MarshalKeys(lib: Lib, elem: Schema, m: map<Bytes, Struct>, ks: seq<Bytes>) returns (r: Option<Bytes>)
    requires AllEntries(elem, m, ks)
    ensures r == if forall j :: 0 <= j < |ks| ==> |ks[j]| <= lib.maxLength && StructFits(lib, elem, m[ks[j]])
                 then Some(EncodeEntries(elem, m, ks)) else None
    decreases elem, 3
  {
    var w: Bytes := [];
    for i := 0 to |ks|
      invariant forall j :: 0 <= j < i ==> |ks[j]| <= lib.maxLength && StructFits(lib, elem, m[ks[j]])
      invariant w + EncodeEntries(elem, m, ks[i..]) == EncodeEntries(elem, m, ks)
    {
      if |ks[i]| > lib.maxLength { return None; }
      var v := Marshal(lib, elem, m[ks[i]]);
      if v.None? { return None; }
      ghost var rest := NextEntry(elem, m, ks, i);
      Regroup(w, WriteText(ks[i]), v.value, rest);
      w := w + WriteText(ks[i]) + v.value;
    }
    assert w + [] == w;
    return Some(w);
  }

  /** UnmarshalCBOR: starts from the zero struct and assigns the fields in the order in which they arrive. */
  method Unmarshal(lib: Lib, s: Schema, b: Bytes) returns (r: Parsed<Struct>)
    ensures r == DecodeStruct(lib, s, b)
    decreases s, 2
  {
    var t := ZeroStruct(s);
    var h := ReadHead(lib, b);
    if h.Fail? || h.value.major != MAJ_MAP || h.value.arg > lib.maxLength { return Fail; }
    var n, rest := h.value.arg, h.rest;
    ghost var whole := DecodeFields(lib, s, n, rest, t);
    for i := 0 to n
      invariant |t| == |s.fields|
      invariant DecodeFields(lib, s, n - i, rest, t) == whole
    {
      var field := UnmarshalField(lib, s, rest, t);
      if field.Fail? { return Fail; }
      t, rest := field.value, field.rest;
    }
    return Done(t, rest);
  }

  method UnmarshalField(lib: Lib, s: Schema, b: Bytes, t: Struct) returns (r: Parsed<Struct>)
    requires |t| == |s.fields|
    ensures r == DecodeField(lib, s, b, t)
    decreases s, 1
  {
    var name := ReadText(lib, b);
    if name.Fail? { return Fail; }
    var field := FieldNumber(s.fields, name.value);
    if field == |s.fields| { return Done(t, Skipped(lib, name.rest)); }
    var v := UnmarshalValue(lib, s.fields[field].kind, name.rest);
    if v.Fail? { return Fail; }
    return Done(Assign(t, field, v.value), v.rest);
  }

  method UnmarshalValue(lib: Lib, kind: Kind, b: Bytes) returns (r: Parsed<Value>)
    ensures r == DecodeValue(lib, kind, b)
    decreases kind, 0
  {
    match kind
    case KList(elem) => r := UnmarshalItems(lib, elem, b);
    case KMap(elem) => r := UnmarshalEntries(lib, elem, b);
    case _ => r := DecodeValue(lib, kind, b);
  }

  method UnmarshalItems(lib: Lib, elem: Schema, b: Bytes) returns (r: Parsed<Value>)
    ensures r == DecodeValue(lib, KList(elem), b)
    decreases elem, 3
  {
    var h := ReadHead(lib, b);
    if h.Fail? || h.value.arg > lib.maxLength || h.value.major != MAJ_ARRAY { return Fail; }
    var n, rest, items := h.value.arg, h.rest, [];
    ghost var whole := DecodeItems(lib, elem, n, rest);
    assert forall more: seq<Struct> :: [] + more == more;
    for i := 0 to n
      invariant whole == match DecodeItems(lib, elem, n - i, rest)
                         case Fail => Fail
                         case Done(more, rest') => Done(items + more, rest')
    {
      var v := Unmarshal(lib, elem, rest);
      if v.Fail? { return Fail; }
      items, rest := items + [v.value], v.rest;
      assert forall more: seq<Struct> :: items[..|items| - 1] + ([v.value] + more) == items + more;
    }
    assert items + [] == items;
    return Done(VList(items), rest);
  }

  method UnmarshalEntries(lib: Lib, elem: Schema, b: Bytes) returns (r: Parsed<Value>)
    ensures r == DecodeValue(lib, KMap(elem), b)
    decreases elem, 3
  {
    var h := ReadHead(lib, b);
    if h.Fail? || h.value.major != MAJ_MAP || h.value.arg > MAP_MAX { return Fail; }
    var n, rest := h.value.arg, h.rest;
    var m: map<Bytes, Struct> := map[];
    ghost var whole := DecodeEntries(lib, elem, n, rest, m);
    for i := 0 to n
      invariant DecodeEntries(lib, elem, n - i, rest, m) == whole
    {
      var k := ReadText(lib, rest);
      if k.Fail? { return Fail; }
      var v := Unmarshal(lib, elem, k.rest);
      if v.Fail? { return Fail; }
      m, rest := m[k.value := v.value], v.rest;
    }
    return Done(VMap(m), rest);
  }
}
