/**
 The datastore keys of utils/state_utils.go: printf strings, cleaned as a path by datastore.NewKey. All records and index
 lists live in one datastore, so two of them stay apart exactly when their keys differ.
 */
module Keys {
  import opened Basics
  import opened Cbor
  import opened Records

  /** One place in the datastore: a record or the index list of a table. */
  datatype Slot = Record(key: Key) | Index(table: Table)

  // ---------------------------------------------------------------- decimal numbers

  function Digit(n: nat): Byte
    requires n < 10
  {
    ('0' as int + n) as char
  }

  predicate IsDigit(c: char) { '0' <= c <= '9' }

  /** The `%d` of a non-negative number. */
  function Decimal(n: nat): (s: Bytes)
    ensures |s| > 0 && forall i :: 0 <= i < |s| ==> IsDigit(s[i])
  {
    if n < 10 then [Digit(n)] else Decimal(n / 10) + [Digit(n % 10)]
  }

  function FromDecimal(s: Bytes): int {
    if s == [] then 0 else FromDecimal(s[..|s| - 1]) * 10 + (s[|s| - 1] as int - '0' as int)
  }

  lemma {:induction false} DecimalRoundTrip(n: nat)
    ensures FromDecimal(Decimal(n)) == n
  {
    var s := Decimal(n);
    if n < 10 {
      assert s[..|s| - 1] == [];
    } else {
      DecimalRoundTrip(n / 10);
      assert s[..|s| - 1] == Decimal(n / 10);
    }
  }

  /** A number followed by a dash can be read back, whatever comes next. */
  lemma DecimalDelimited(m: nat, x: Bytes, n: nat, y: Bytes)
    requires Decimal(m) + ['-'] + x == Decimal(n) + ['-'] + y
    ensures m == n && x == y
  {
    var a, b := Decimal(m), Decimal(n);
    var s := a + ['-'] + x;
    assert forall i :: 0 <= i < |a| ==> s[i] == a[i];
    assert forall i :: 0 <= i < |b| ==> s[i] == b[i];
    assert s[|a|] == '-' && s[|b|] == '-';
    assert |a| == |b|;
    assert a == s[..|a|] == b;
    assert x == s[|a| + 1..] == y;
    DecimalRoundTrip(m);
    DecimalRoundTrip(n);
  }

  // ---------------------------------------------------------------- printf strings

  function IndexString(t: Table): Bytes {
    match t
    case Orders => "order-index"
    case Shards => "shard-index"
    case Migrates => "migrate-index"
    case Expires => "shard-expire"
  }

  function SlotString(lib: Lib, slot: Slot): Bytes {
    match slot
    case Index(t) => IndexString(t)
    case Record(OrderKey(d)) => "order-" + d
    case Record(ShardKey(o, c)) => "order-" + ShardSuffix(lib, o, c)
    case Record(MigrateKey(d, f)) => "migrate-dataid-" + MigrateSuffix(d, f)
    case Record(ExpireKey(i)) => "shard-expire-" + Decimal(i)
  }

  function ShardSuffix(lib: Lib, o: U64, c: Cid): Bytes { Decimal(o) + "-shard-" + lib.cidText(c) }

  function MigrateSuffix(d: Text, f: Text): Bytes { d + "-from-" + f }

  /** Different CIDs print differently, and never with a slash. */
  ghost predicate CidNames(lib: Lib) {
    && (forall c, d :: lib.cidText(c) == lib.cidText(d) ==> c == d)
    && (forall c :: '/' !in lib.cidText(c))
  }

  /**
   The pairs of different slots that share a printf string: an order whose data id is "index" and the order index, an
   order whose data id looks like a shard's number and CID and that shard, and two migrations whose data id and provider
   can be cut at different places.
   */
  predicate Clash(lib: Lib, a: Slot, b: Slot) {
    match (a, b)
    case (Record(OrderKey(d)), Index(Orders)) => d == "index"
    case (Record(OrderKey(d)), Record(ShardKey(o, c))) => d == ShardSuffix(lib, o, c)
    case (Record(MigrateKey(d, f)), Record(MigrateKey(e, g))) => |d| < |e| && MigrateSuffix(d, f) == MigrateSuffix(e, g)
    case _ => false
  }

  lemma PrefixCancels(p: Bytes, x: Bytes, y: Bytes)
    ensures p + x == p + y <==> x == y
  {
    if p + x == p + y {
      assert x == (p + x)[|p|..] == (p + y)[|p|..] == y;
    }
  }

  lemma Shape(lib: Lib, slot: Slot)
    ensures var s := SlotString(lib, slot);
      |s| >= 6 &&
      match slot
      case Record(OrderKey(_)) => s[0] == 'o'
      case Record(ShardKey(_, _)) => s[0] == 'o' && |s| > 6 && IsDigit(s[6])
      case Record(MigrateKey(_, _)) => s[0] == 'm' && |s| > 8 && s[8] == 'd'
      case Record(ExpireKey(_)) => s[0] == 's' && |s| > 12 && s[6] == 'e'
      case Index(_) => s == IndexString(slot.table)
  {
    if slot.Record? && slot.key.ShardKey? {
      assert SlotString(lib, slot)[6] == Decimal(slot.key.orderId)[0];
    }
  }

  /** The first letters tell the tables apart, except that shards are filed under orders. */
  lemma FamiliesDiffer(lib: Lib, a: Slot, b: Slot)
    requires SlotString(lib, a) == SlotString(lib, b)
    ensures a.Index? && b.Index? ==> a == b
    ensures a.Index? && b.Record? ==> a.table == Orders && b.key.OrderKey?
    ensures a.Record? && b.Record? ==>
      a.key.MigrateKey? == b.key.MigrateKey? && a.key.ExpireKey? == b.key.ExpireKey?
  {
    Shape(lib, a);
    Shape(lib, b);
  }

  lemma SameShard(lib: Lib, o: U64, c: Cid, o': U64, c': Cid)
    requires CidNames(lib) && "order-" + ShardSuffix(lib, o, c) == "order-" + ShardSuffix(lib, o', c')
    ensures o == o' && c == c'
  {
    PrefixCancels("order-", ShardSuffix(lib, o, c), ShardSuffix(lib, o', c'));
    var x, y := "shard-" + lib.cidText(c), "shard-" + lib.cidText(c');
    assert ShardSuffix(lib, o, c) == Decimal(o) + ['-'] + x;
    assert ShardSuffix(lib, o', c') == Decimal(o') + ['-'] + y;
    DecimalDelimited(o, x, o', y);
    PrefixCancels("shard-", lib.cidText(c), lib.cidText(c'));
  }

  lemma SameTable(lib: Lib, a: Key, b: Key)
    requires CidNames(lib) && KeyTable(a) == KeyTable(b) && !a.MigrateKey?
    requires SlotString(lib, Record(a)) == SlotString(lib, Record(b))
    ensures a == b
  {
    match a
    case OrderKey(d) => PrefixCancels("order-", d, b.dataId);
    case ShardKey(o, c) => SameShard(lib, o, c, b.orderId, b.cid);
    case ExpireKey(i) =>
      PrefixCancels("shard-expire-", Decimal(i), Decimal(b.shardId));
      DecimalRoundTrip(i);
      DecimalRoundTrip(b.shardId);
  }

  lemma MigrateStrings(lib: Lib, a: Key, b: Key)
    requires a.MigrateKey? && b.MigrateKey?
    ensures SlotString(lib, Record(a)) == SlotString(lib, Record(b))
       <==> a == b || Clash(lib, Record(a), Record(b)) || Clash(lib, Record(b), Record(a))
  {
    var x, y := MigrateSuffix(a.migrateDataId, a.fromProvider), MigrateSuffix(b.migrateDataId, b.fromProvider);
    PrefixCancels("migrate-dataid-", x, y);
    if x == y && |a.migrateDataId| == |b.migrateDataId| {
      var n := |a.migrateDataId|;
      assert a.migrateDataId == x[..n] == y[..n] == b.migrateDataId;
      assert a.fromProvider == x[n + 6..] == y[n + 6..] == b.fromProvider;
    }
  }

  /** Two slots share a printf string exactly when they are the same slot or one of the clashing pairs. */
  lemma StringsCollideExactly(lib: Lib, a: Slot, b: Slot)
    requires CidNames(lib)
    ensures SlotString(lib, a) == SlotString(lib, b) <==> a == b || Clash(lib, a, b) || Clash(lib, b, a)
  {
    if SlotString(lib, a) == SlotString(lib, b) {
      FamiliesDiffer(lib, a, b);
      FamiliesDiffer(lib, b, a);
    }
    match (a, b)
    case (Record(x), Record(y)) =>
      if x.MigrateKey? && y.MigrateKey? {
        MigrateStrings(lib, x, y);
      } else if SlotString(lib, a) == SlotString(lib, b) && KeyTable(x) == KeyTable(y) {
        SameTable(lib, x, y);
      } else if x.OrderKey? && y.ShardKey? {
        PrefixCancels("order-", x.dataId, ShardSuffix(lib, y.orderId, y.cid));
      } else if x.ShardKey? && y.OrderKey? {
        PrefixCancels("order-", y.dataId, ShardSuffix(lib, x.orderId, x.cid));
      }
    case (Record(x), Index(t)) => if x.OrderKey? { PrefixCancels("order-", x.dataId, "index"); }
    case (Index(t), Record(x)) => if x.OrderKey? { PrefixCancels("order-", x.dataId, "index"); }
    case (Index(_), Index(_)) =>
  }

  // ---------------------------------------------------------------- UUID data ids

  predicate IsHex(c: char) { '0' <= c <= '9' || 'a' <= c <= 'f' || 'A' <= c <= 'F' }

  /** The text form of section 3 of RFC 4122. */
  predicate IsUuid(d: Bytes) {
    && |d| == 36
    && forall i :: 0 <= i < 36 ==> if i == 8 || i == 13 || i == 18 || i == 23 then d[i] == '-' else IsHex(d[i])
  }

  /** Data ids are UUIDs and provider addresses hold no slash. */
  predicate WellNamed(slot: Slot) {
    match slot
    case Record(OrderKey(d)) => IsUuid(d)
    case Record(MigrateKey(d, f)) => IsUuid(d) && '/' !in f
    case _ => true
  }

  lemma ShardSuffixIsNoUuid(lib: Lib, o: U64, c: Cid)
    ensures !IsUuid(ShardSuffix(lib, o, c))
  {
    var d, n := ShardSuffix(lib, o, c), |Decimal(o)|;
    assert d[n + 1] == 's';
  }

  lemma WellNamedNeverClash(lib: Lib, a: Slot, b: Slot)
    requires WellNamed(a) && WellNamed(b)
    ensures !Clash(lib, a, b)
  {
    if b.Record? && b.key.ShardKey? { ShardSuffixIsNoUuid(lib, b.key.orderId, b.key.cid); }
  }

  // ---------------------------------------------------------------- datastore.NewKey

  /** The parts of a string between its slashes. */
  function Parts(s: Bytes): (ps: seq<Bytes>)
    ensures |ps| > 0
  {
    if s == [] then [[]]
    else
      var ps := Parts(s[1..]);
      if s[0] == '/' then [[]] + ps else [[s[0]] + ps[0]] + ps[1..]
  }

  /** path.Clean of a rooted path: empty parts and "." vanish, ".." takes the part before it away. */
  function CleanParts(ps: seq<Bytes>, kept: seq<Bytes>): seq<Bytes> {
    if ps == [] then kept
    else if ps[0] == [] || ps[0] == "." then CleanParts(ps[1..], kept)
    else if ps[0] == ".." then CleanParts(ps[1..], if kept == [] then [] else kept[..|kept| - 1])
    else CleanParts(ps[1..], kept + [ps[0]])
  }

  function JoinParts(ps: seq<Bytes>): Bytes {
    if ps == [] then [] else "/" + ps[0] + JoinParts(ps[1..])
  }

  /** datastore.NewKey. */
  function NewKey(s: Bytes): Bytes {
    var ps := CleanParts(Parts(s), []);
    if ps == [] then "/" else JoinParts(ps)
  }

  lemma {:induction false} NoSlashOnePart(s: Bytes)
    requires '/' !in s
    ensures Parts(s) == [s]
  {
    if s != [] {
      assert s[0] in s && s == [s[0]] + s[1..];
      NoSlashOnePart(s[1..]);
    }
  }

  lemma NewKeyPlain(s: Bytes)
    requires '/' !in s && s != [] && s != "." && s != ".."
    ensures NewKey(s) == "/" + s
  {
    NoSlashOnePart(s);
    assert CleanParts([s], []) == CleanParts([], [s]) == [s];
    assert JoinParts([s]) == "/" + s + JoinParts([]);
  }

  function StoreKey(lib: Lib, slot: Slot): Bytes { NewKey(SlotString(lib, slot)) }

  /** The data id and the address in a slot hold no slash. */
  predicate SlashFree(slot: Slot) {
    match slot
    case Record(OrderKey(d)) => '/' !in d
    case Record(MigrateKey(d, f)) => '/' !in d && '/' !in f
    case _ => true
  }

  lemma SlotStringPlain(lib: Lib, slot: Slot)
    requires CidNames(lib) && SlashFree(slot)
    ensures '/' !in SlotString(lib, slot) && |SlotString(lib, slot)| > 2
  {
    match slot
    case Index(_) =>
    case Record(OrderKey(d)) =>
    case Record(ShardKey(o, c)) => assert '/' !in Decimal(o) && '/' !in lib.cidText(c);
    case Record(MigrateKey(d, f)) =>
    case Record(ExpireKey(i)) => assert '/' !in Decimal(i);
  }

  /** Without slashes, two slots share a datastore key exactly when they are the same slot or one of the clashing pairs. */
  lemma StoreKeysCollideExactly(lib: Lib, a: Slot, b: Slot)
    requires CidNames(lib) && SlashFree(a) && SlashFree(b)
    ensures StoreKey(lib, a) == StoreKey(lib, b) <==> a == b || Clash(lib, a, b) || Clash(lib, b, a)
  {
    SlotStringPlain(lib, a);
    SlotStringPlain(lib, b);
    NewKeyPlain(SlotString(lib, a));
    NewKeyPlain(SlotString(lib, b));
    PrefixCancels("/", SlotString(lib, a), SlotString(lib, b));
    StringsCollideExactly(lib, a, b);
  }

  /** With UUID data ids and slash-free addresses, every record and every index list has a key of its own. */
  lemma StoreKeysInjective(lib: Lib, a: Slot, b: Slot)
    requires CidNames(lib) && WellNamed(a) && WellNamed(b)
    ensures StoreKey(lib, a) == StoreKey(lib, b) <==> a == b
  {
    StoreKeysCollideExactly(lib, a, b);
    WellNamedNeverClash(lib, a, b);
    WellNamedNeverClash(lib, b, a);
  }

  // ---------------------------------------------------------------- slashes

  predicate PlainParts(ps: seq<Bytes>) {
    forall i :: 0 <= i < |ps| ==> ps[i] != [] && '/' !in ps[i]
  }

  lemma {:induction false} PartsHoldNoSlash(s: Bytes)
    ensures forall i :: 0 <= i < |Parts(s)| ==> '/' !in Parts(s)[i]
  {
    if s != [] { PartsHoldNoSlash(s[1..]); }
  }

  lemma {:induction false} CleanPartsPlain(ps: seq<Bytes>, kept: seq<Bytes>)
    requires PlainParts(kept) && forall i :: 0 <= i < |ps| ==> '/' !in ps[i]
    ensures PlainParts(CleanParts(ps, kept))
    decreases |ps|
  {
    if ps == [] {
    } else if ps[0] == [] || ps[0] == "." {
      CleanPartsPlain(ps[1..], kept);
    } else if ps[0] == ".." {
      CleanPartsPlain(ps[1..], if kept == [] then [] else kept[..|kept| - 1]);
    } else {
      CleanPartsPlain(ps[1..], kept + [ps[0]]);
    }
  }

  /** A joined path can be cut again at its slashes. */
  lemma {:induction false} PartsOfJoined(p: Bytes, ps: seq<Bytes>)
    requires '/' !in p && PlainParts(ps)
    ensures Parts(p + JoinParts(ps)) == [p] + ps
    decreases |ps|, |p|
  {
    var s := p + JoinParts(ps);
    if p != [] {
      assert s[0] == p[0] && s[1..] == p[1..] + JoinParts(ps);
      assert p[0] in p && p == [p[0]] + p[1..];
      PartsOfJoined(p[1..], ps);
    } else if ps != [] {
      assert s == "/" + ps[0] + JoinParts(ps[1..]);
      assert s[1..] == ps[0] + JoinParts(ps[1..]);
      PartsOfJoined(ps[0], ps[1..]);
      assert ps == [ps[0]] + ps[1..];
    } else {
      assert s == [];
    }
  }

  /** What path.Clean leaves of a string: its parts without the empty ones and the dots. */
  function Cleaned(s: Bytes): seq<Bytes> { CleanParts(Parts(s), []) }

  lemma CleanedFromKey(s: Bytes)
    ensures var parts := Parts(NewKey(s)); Cleaned(s) == if parts == [[], []] then [] else parts[1..]
    ensures PlainParts(Cleaned(s))
  {
    PartsHoldNoSlash(s);
    CleanPartsPlain(Parts(s), []);
    var ps := Cleaned(s);
    if ps == [] {
      assert "/"[1..] == [] && Parts([]) == [[]];
      assert Parts("/") == [[]] + Parts([]);
    } else {
      PartsOfJoined([], ps);
      assert [] + JoinParts(ps) == JoinParts(ps);
      assert ([[]] + ps)[1..] == ps;
      assert ps[0] != [];
    }
  }

  /** In general, two strings have the same datastore key exactly when cleaning leaves the same parts of both. */
  lemma NewKeyCollidesExactly(s: Bytes, t: Bytes)
    ensures NewKey(s) == NewKey(t) <==> Cleaned(s) == Cleaned(t)
  {
    CleanedFromKey(s);
    CleanedFromKey(t);
  }

  lemma {:induction false} ThreeParts(p: Bytes, x: Bytes, q: Bytes)
    requires '/' !in p && '/' !in x && '/' !in q
    ensures Parts(p + ("/" + (x + ("/" + q)))) == [p, x, q]
    decreases |p| + |x|
  {
    var s := p + ("/" + (x + ("/" + q)));
    if p != [] {
      assert s[0] == p[0] && s[1..] == p[1..] + ("/" + (x + ("/" + q)));
      assert p[0] in p && p == [p[0]] + p[1..];
      ThreeParts(p[1..], x, q);
    } else {
      assert s[0] == '/' && s[1..] == x + ("/" + q);
      TwoParts(x, q);
    }
  }

  lemma {:induction false} TwoParts(x: Bytes, q: Bytes)
    requires '/' !in x && '/' !in q
    ensures Parts(x + ("/" + q)) == [x, q]
    decreases |x|
  {
    var s := x + ("/" + q);
    if x != [] {
      assert s[0] == x[0] && s[1..] == x[1..] + ("/" + q);
      assert x[0] in x && x == [x[0]] + x[1..];
      TwoParts(x[1..], q);
    } else {
      assert s[0] == '/' && s[1..] == q;
      NoSlashOnePart(q);
    }
  }

  lemma LastPart(q: Bytes, kept: seq<Bytes>)
    requires q != [] && q != "." && q != ".."
    ensures CleanParts([q], kept) == kept + [q]
  {
    assert CleanParts([], kept + [q]) == kept + [q];
  }

  /** A part between two others: a dot vanishes, two dots take the part before them away, anything else stays. */
  lemma DotsVanish(p: Bytes, x: Bytes, q: Bytes)
    requires '/' !in p && '/' !in x && '/' !in q
    requires p != [] && p != "." && p != ".." && q != [] && q != "." && q != ".."
    ensures Cleaned(p + ("/" + (x + ("/" + q))))
         == if x == [] || x == "." then [p, q] else if x == ".." then [q] else [p, x, q]
  {
    ThreeParts(p, x, q);
    assert [p, x, q][1..] == [x, q] && [x, q][1..] == [q] && [q][1..] == [] && [] + [p] == [p];
    assert CleanParts([p, x, q], []) == CleanParts([x, q], [p]);
    LastPart(q, [p]);
    LastPart(q, [p, x]);
    LastPart(q, []);
    assert [p] + [x] == [p, x] && [p][..0] == [];
  }

  /** So a slash more makes no difference to a key. */
  lemma DoubledSlash(p: Bytes, q: Bytes)
    requires '/' !in p && '/' !in q && p != [] && p != "." && p != ".." && q != [] && q != "." && q != ".."
    ensures NewKey(p + ("/" + q)) == NewKey(p + ("/" + ([] + ("/" + q))))
  {
    DotsVanish(p, [], q);
    TwoParts(p, q);
    assert [p, q][1..] == [q] && [] + [p] == [p];
    LastPart(q, [p]);
    assert Cleaned(p + ("/" + q)) == [p, q];
    NewKeyCollidesExactly(p + ("/" + q), p + ("/" + ([] + ("/" + q))));
  }

  /** Two orders share a key though their printf strings differ and do not clash. */
  lemma SlashClash(lib: Lib, a: Text, b: Text)
    requires '/' !in a && '/' !in b && b != [] && b != "." && b != ".." && |a| + |b| + 2 < TWO_63
    ensures var x, y := Record(OrderKey(a + ("/" + b))), Record(OrderKey(a + ("//" + b)));
      StoreKey(lib, x) == StoreKey(lib, y) && x != y && !Clash(lib, x, y) && !Clash(lib, y, x)
      && SlotString(lib, x) != SlotString(lib, y)
  {
    var p := "order-" + a;
    var s, t := SlotString(lib, Record(OrderKey(a + ("/" + b)))), SlotString(lib, Record(OrderKey(a + ("//" + b))));
    assert s == p + ("/" + b) && t == p + ("/" + ([] + ("/" + b)));
    assert |s| + 1 == |t|;
    DoubledSlash(p, b);
  }

  /** An order saved under the data id "index" takes the place of the order index. */
  lemma IndexOrderClash(lib: Lib)
    ensures StoreKey(lib, Record(OrderKey("index"))) == StoreKey(lib, Index(Orders))
  {
    assert "order-" + "index" == "order-index";
  }

  /** The datastore keys of the index lists as they are spelt. */
  lemma IndexKeysSpelt(lib: Lib, t: Table, s: Bytes)
    requires CidNames(lib)
    requires s == match t
      case Orders => "order-index"
      case Shards => "shard-index"
      case Migrates => "migrate-index"
      case Expires => "shard-expire"
    ensures StoreKey(lib, Index(t)) == "/" + s
  {
    SpeltPlain(lib, Index(t), s);
  }

  /** The datastore keys of the records as they are spelt. */
  lemma RecordKeysSpelt(lib: Lib, d: Text, p: Text, n: U64, c: Cid)
    requires CidNames(lib) && '/' !in d && '/' !in p
    ensures StoreKey(lib, Record(OrderKey(d))) == "/" + ("order-" + d)
    ensures StoreKey(lib, Record(ShardKey(n, c))) == "/" + ("order-" + (Decimal(n) + "-shard-" + lib.cidText(c)))
    ensures StoreKey(lib, Record(MigrateKey(d, p))) == "/" + ("migrate-dataid-" + (d + "-from-" + p))
    ensures StoreKey(lib, Record(ExpireKey(n))) == "/" + ("shard-expire-" + Decimal(n))
  {
    SpeltPlain(lib, Record(OrderKey(d)), "order-" + d);
    SpeltPlain(lib, Record(ShardKey(n, c)), "order-" + (Decimal(n) + "-shard-" + lib.cidText(c)));
    SpeltPlain(lib, Record(MigrateKey(d, p)), "migrate-dataid-" + (d + "-from-" + p));
    SpeltPlain(lib, Record(ExpireKey(n)), "shard-expire-" + Decimal(n));
  }

  lemma SpeltPlain(lib: Lib, slot: Slot, s: Bytes)
    requires CidNames(lib) && SlashFree(slot) && SlotString(lib, slot) == s
    ensures StoreKey(lib, slot) == "/" + s
  {
    SlotStringPlain(lib, slot);
    NewKeyPlain(s);
  }

  lemma NumbersSpelt()
    ensures Decimal(12) == "12" && Decimal(340) == "340"
  {
    assert Decimal(1) == "1" && Decimal(3) == "3";
    assert Decimal(34) == Decimal(3) + "4" == "34";
  }
}
