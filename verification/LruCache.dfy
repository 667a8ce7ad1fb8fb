/**
 The LRU cache of node/cache/lru_cache.go: a doubly linked list of nodes, least recently used first, and a map from keys
 to nodes. It is proved to behave as a plain recency list, up to and excluding the operation that unlinks its only node.
 */
module LruCache {
  import opened Basics

  // ---------------------------------------------------------------- the recency list

  /** Keys and values, least recently used first. */
  type Recency<V> = seq<(string, V)>

  /** The position of a key, or the length of the list. */
  function Find<V>(s: Recency<V>, k: string): (i: nat)
    ensures i <= |s|
    ensures i < |s| ==> s[i].0 == k
    ensures forall j :: 0 <= j < i ==> s[j].0 != k
  {
    if s == [] then 0 else if s[0].0 == k then 0 else 1 + Find(s[1..], k)
  }

  function Cut<T>(s: seq<T>, i: nat): seq<T>
    requires i < |s|
  {
    s[..i] + s[i + 1..]
  }

  /** The list after a key was used: its entry moves to the recent end. */
  function Used<V>(s: Recency<V>, k: string): Recency<V> {
    var i := Find(s, k);
    if i < |s| then Cut(s, i) + [s[i]] else s
  }

  /** The list after a value was put: the key becomes the most recent, and a full list loses its least recent entry. */
  function Put<V>(capacity: int, s: Recency<V>, k: string, v: V): Recency<V> {
    var i := Find(s, k);
    if i < |s| then Cut(s, i) + [(k, v)]
    else if 0 < capacity <= |s| then s[1..] + [(k, v)]
    else s + [(k, v)]
  }

  function Evict<V>(s: Recency<V>, k: string): Recency<V> {
    var i := Find(s, k);
    if i < |s| then Cut(s, i) else s
  }

  // ---------------------------------------------------------------- runs on the recency list

  datatype CacheOp<V> = GetOp(key: string) | PutOp(key: string, value: V) | EvictOp(key: string)

  function Apply<V>(capacity: int, s: Recency<V>, op: CacheOp<V>): Recency<V> {
    match op
    case GetOp(k) => Used(s, k)
    case PutOp(k, v) => Put(capacity, s, k, v)
    case EvictOp(k) => Evict(s, k)
  }

  /** The operation does not unlink the only node. */
  predicate SafeOp<V>(capacity: int, s: Recency<V>, op: CacheOp<V>) {
    match op
    case GetOp(_) => true
    case PutOp(k, _) => capacity != 1 || s == [] || Find(s, k) < |s|
    case EvictOp(k) => |s| != 1 || Find(s, k) == |s|
  }

  function Run<V>(capacity: int, ops: seq<CacheOp<V>>): Recency<V> {
    if ops == [] then [] else Apply(capacity, Run(capacity, ops[..|ops| - 1]), ops[|ops| - 1])
  }

  /** The time of the last get or put of a key, or -1. */
  function LastTouch<V>(ops: seq<CacheOp<V>>, k: string): (t: int)
    ensures -1 <= t < |ops|
  {
    if ops == [] then -1
    else
      var op := ops[|ops| - 1];
      if !op.EvictOp? && op.key == k then |ops| - 1 else LastTouch(ops[..|ops| - 1], k)
  }

  /**
   After every run the list is ordered by the time of the last get or put, so the entry that a full put drops is the
   least recently used one; no key occurs twice, and the list never outgrows a positive capacity.
   */
  lemma {:induction false} OldestFirst<V>(capacity: int, ops: seq<CacheOp<V>>)
    ensures var s := Run(capacity, ops);
      && (forall i, j :: 0 <= i < j < |s| ==> LastTouch(ops, s[i].0) < LastTouch(ops, s[j].0))
      && (capacity > 0 ==> |s| <= capacity)
    decreases |ops|
  {
    if ops != [] {
      var init, op := ops[..|ops| - 1], ops[|ops| - 1];
      OldestFirst(capacity, init);
      var s, s' := Run(capacity, init), Run(capacity, ops);
      var f := Find(s, op.key);
      assert forall k :: k != op.key ==> LastTouch(ops, k) == LastTouch(init, k);
      assert forall j :: 0 <= j < |s| && s[j].0 == op.key ==> j == f;
    }
  }

  // ---------------------------------------------------------------- what the gets of a run must answer

  /** A use is a put or a get that finds its key. */
  datatype Event = Use(key: string) | Gone(key: string)

  /** The other keys that were used since the last use of a key, and not evicted since. */
  function OthersSince(tr: seq<Event>, k: string): set<string> {
    if tr == [] then {}
    else
      var before := OthersSince(tr[..|tr| - 1], k);
      match tr[|tr| - 1]
      case Use(j) => if j == k then {} else before + {j}
      case Gone(j) => before - {j}
  }

  /** The key was used and not evicted since, and never were as many other keys used since as the cache holds. */
  predicate Survives(capacity: int, tr: seq<Event>, k: string) {
    tr != [] &&
    var before := Survives(capacity, tr[..|tr| - 1], k);
    match tr[|tr| - 1]
    case Use(j) => j == k || (before && (capacity > 0 ==> |OthersSince(tr, k)| < capacity))
    case Gone(j) => j != k && before
  }

  /** The uses and evictions after one more operation; a get that misses leaves no trace. */
  function Traced<V>(capacity: int, tr: seq<Event>, op: CacheOp<V>): seq<Event> {
    match op
    case GetOp(k) => if Survives(capacity, tr, k) then tr + [Use(k)] else tr
    case PutOp(k, _) => tr + [Use(k)]
    case EvictOp(k) => tr + [Gone(k)]
  }

  function Trace<V>(capacity: int, ops: seq<CacheOp<V>>): seq<Event> {
    if ops == [] then [] else Traced(capacity, Trace(capacity, ops[..|ops| - 1]), ops[|ops| - 1])
  }

  /** The value of the last put of a key. */
  function LastPut<V>(ops: seq<CacheOp<V>>, k: string): Option<V> {
    if ops == [] then None
    else
      var op := ops[|ops| - 1];
      if op.PutOp? && op.key == k then Some(op.value) else LastPut(ops[..|ops| - 1], k)
  }

  /** What a get must answer after the given operations: the value last put, as long as the key survives. */
  function MustAnswer<V>(capacity: int, ops: seq<CacheOp<V>>, k: string): Option<V> {
    if Survives(capacity, Trace(capacity, ops), k) then LastPut(ops, k) else None
  }

  ghost predicate DistinctKeys<V>(s: Recency<V>) {
    forall i, j :: 0 <= i < j < |s| ==> s[i].0 != s[j].0
  }

  ghost function KeysAfter<V>(s: Recency<V>, p: int): set<string>
    requires -1 <= p
  {
    set i | p < i < |s| :: s[i].0
  }

  lemma {:induction false} KeysAfterSize<V>(s: Recency<V>, p: int)
    requires DistinctKeys(s) && -1 <= p < |s|
    ensures |KeysAfter(s, p)| == |s| - 1 - p
    decreases |s| - p
  {
    if p == |s| - 1 {
      assert KeysAfter(s, p) == {};
    } else {
      KeysAfterSize(s, p + 1);
      assert KeysAfter(s, p) == KeysAfter(s, p + 1) + {s[p + 1].0};
      assert s[p + 1].0 !in KeysAfter(s, p + 1);
    }
  }

  lemma FindAt<V>(s: Recency<V>, i: nat)
    requires DistinctKeys(s) && i < |s|
    ensures Find(s, s[i].0) == i
  {
  }

  /** The list holds exactly the surviving keys, behind each of them the keys used since. */
  ghost predicate Follows<V>(capacity: int, s: Recency<V>, tr: seq<Event>) {
    && DistinctKeys(s) && (capacity > 0 ==> |s| <= capacity)
    && (forall k :: Find(s, k) < |s| <==> Survives(capacity, tr, k))
    && (forall i :: 0 <= i < |s| ==> OthersSince(tr, s[i].0) == KeysAfter(s, i))
  }

  lemma EventStep(capacity: int, tr: seq<Event>, e: Event, k: string)
    ensures var tr' := tr + [e]; var others := OthersSince(tr, k);
      && OthersSince(tr', k) == (match e case Use(j) => if j == k then {} else others + {j} case Gone(j) => others - {j})
      && (Survives(capacity, tr', k) <==>
            match e
            case Use(j) => j == k || (Survives(capacity, tr, k) && (capacity > 0 ==> |others + {j}| < capacity))
            case Gone(j) => j != k && Survives(capacity, tr, k))
  {
    assert (tr + [e])[..|tr|] == tr;
  }

  /** A list whose entries were kept in order, but for one that is gone or at the recent end: what stands behind an entry. */
  lemma CutKeys<V>(s: Recency<V>, f: nat, i: nat)
    requires DistinctKeys(s) && f < |s| && i < |s| - 1
    ensures var p := if i < f then i else i + 1;
      DistinctKeys(Cut(s, f)) && Cut(s, f)[i] == s[p] && KeysAfter(Cut(s, f), i) == KeysAfter(s, p) - {s[f].0}
  {
    var c, p := Cut(s, f), if i < f then i else i + 1;
    forall x | x in KeysAfter(s, p) && x != s[f].0 ensures x in KeysAfter(c, i) {
      var q :| p < q < |s| && s[q].0 == x;
      var r := if q < f then q else q - 1;
      assert i < r < |c| && c[r].0 == x;
    }
    forall x | x in KeysAfter(c, i) ensures x in KeysAfter(s, p) && x != s[f].0 {
      var r :| i < r < |c| && c[r].0 == x;
      var q := if r < f then r else r + 1;
      assert p < q < |s| && s[q].0 == x;
    }
  }

  lemma AppendKeys<V>(s: Recency<V>, e: (string, V), i: nat)
    requires i < |s|
    ensures KeysAfter(s + [e], i) == KeysAfter(s, i) + {e.0} && KeysAfter(s + [e], |s|) == {}
  {
    var s' := s + [e];
    assert s'[|s|] == e;
    forall x | x in KeysAfter(s, i) + {e.0} ensures x in KeysAfter(s', i) {
      if x != e.0 {
        var q :| i < q < |s| && s[q].0 == x;
        assert s'[q].0 == x;
      }
    }
  }

  lemma FindCut<V>(s: Recency<V>, f: nat, k: string)
    requires DistinctKeys(s) && f < |s|
    ensures Find(Cut(s, f), k) < |Cut(s, f)| <==> k != s[f].0 && Find(s, k) < |s|
  {
    var c := Cut(s, f);
    var q := Find(s, k);
    if k != s[f].0 && q < |s| { assert c[if q < f then q else q - 1].0 == k; }
    var r := Find(c, k);
    if r < |c| { assert s[if r < f then r else r + 1].0 == k; }
  }

  lemma FindAppend<V>(s: Recency<V>, e: (string, V), k: string)
    ensures Find(s + [e], k) < |s| + 1 <==> k == e.0 || Find(s, k) < |s|
  {
    var s' := s + [e];
    assert s'[|s|] == e;
    if Find(s, k) < |s| { assert s'[Find(s, k)].0 == k; }
    if Find(s', k) < |s| { assert s[Find(s', k)].0 == k; }
  }

  lemma GoneFollows<V>(capacity: int, s: Recency<V>, tr: seq<Event>, j: string)
    requires Follows(capacity, s, tr)
    ensures Follows(capacity, Evict(s, j), tr + [Gone(j)])
  {
    var f, s', tr' := Find(s, j), Evict(s, j), tr + [Gone(j)];
    forall k ensures Find(s', k) < |s'| <==> Survives(capacity, tr', k) {
      EventStep(capacity, tr, Gone(j), k);
      if f < |s| { FindCut(s, f, k); }
    }
    forall i | 0 <= i < |s'| ensures OthersSince(tr', s'[i].0) == KeysAfter(s', i) {
      EventStep(capacity, tr, Gone(j), s'[i].0);
      if f < |s| { CutKeys(s, f, i); }
    }
    if f < |s| && |s| > 1 { CutKeys(s, f, 0); }
  }

  /** The rest of a list before a key is put at its recent end: what stands behind each entry was used since, but for it. */
  ghost predicate FollowsBut<V>(capacity: int, c: Recency<V>, tr: seq<Event>, j: string) {
    && DistinctKeys(c) && Find(c, j) == |c| && (capacity > 0 ==> |c| < capacity)
    && (forall i :: 0 <= i < |c| ==>
          Survives(capacity, tr, c[i].0) && OthersSince(tr, c[i].0) + {j} == KeysAfter(c, i) + {j})
    && (forall k :: k != j && Find(c, k) == |c| ==> !Survives(capacity, tr + [Use(j)], k))
  }

  lemma EntryFollows<V>(capacity: int, c: Recency<V>, tr: seq<Event>, j: string, v: V, i: nat)
    requires FollowsBut(capacity, c, tr, j) && i <= |c| && DistinctKeys(c + [(j, v)])
    ensures var s', tr' := c + [(j, v)], tr + [Use(j)];
      Survives(capacity, tr', s'[i].0) && OthersSince(tr', s'[i].0) == KeysAfter(s', i)
  {
    var s' := c + [(j, v)];
    EventStep(capacity, tr, Use(j), s'[i].0);
    if i < |c| {
      AppendKeys(c, (j, v), i);
      KeysAfterSize(s', i);
    }
  }

  lemma AppendFollows<V>(capacity: int, c: Recency<V>, tr: seq<Event>, j: string, v: V)
    requires FollowsBut(capacity, c, tr, j)
    ensures Follows(capacity, c + [(j, v)], tr + [Use(j)])
  {
    var s', tr' := c + [(j, v)], tr + [Use(j)];
    forall i | 0 <= i < |s'| ensures Survives(capacity, tr', s'[i].0) && OthersSince(tr', s'[i].0) == KeysAfter(s', i) {
      EntryFollows(capacity, c, tr, j, v, i);
    }
    forall k ensures Find(s', k) < |s'| <==> Survives(capacity, tr', k) { FindAppend(c, (j, v), k); }
  }

  lemma NotLonger(capacity: int, tr: seq<Event>, j: string, k: string)
    requires !Survives(capacity, tr, k) && k != j
    ensures !Survives(capacity, tr + [Use(j)], k)
  {
    EventStep(capacity, tr, Use(j), k);
  }

  /** A key that was found, or put again, moves to the recent end. */
  lemma UseOldFollows<V>(capacity: int, s: Recency<V>, tr: seq<Event>, f: nat, v: V)
    requires Follows(capacity, s, tr) && f < |s|
    ensures Follows(capacity, Cut(s, f) + [(s[f].0, v)], tr + [Use(s[f].0)])
  {
    var j, c := s[f].0, Cut(s, f);
    if |s| > 1 { CutKeys(s, f, 0); }
    forall i | 0 <= i < |c|
      ensures Survives(capacity, tr, c[i].0) && OthersSince(tr, c[i].0) + {j} == KeysAfter(c, i) + {j}
    {
      CutKeys(s, f, i);
      FindAt(s, if i < f then i else i + 1);
    }
    FindCut(s, f, j);
    forall k | k != j && Find(c, k) == |c| ensures !Survives(capacity, tr + [Use(j)], k) {
      FindCut(s, f, k);
      NotLonger(capacity, tr, j, k);
    }
    AppendFollows(capacity, c, tr, j, v);
  }

  /** A new key goes to the recent end; a full list loses its oldest entry. */
  lemma UseNewFollows<V>(capacity: int, s: Recency<V>, tr: seq<Event>, j: string, v: V)
    requires Follows(capacity, s, tr) && Find(s, j) == |s|
    ensures Follows(capacity, Put(capacity, s, j, v), tr + [Use(j)])
  {
    if 0 < capacity <= |s| {
      FullButOldest(capacity, s, tr, j);
      assert s[1..] == Cut(s, 0);
      AppendFollows(capacity, s[1..], tr, j, v);
    } else {
      forall i | 0 <= i < |s| ensures Survives(capacity, tr, s[i].0) { FindAt(s, i); }
      forall k | k != j && Find(s, k) == |s| ensures !Survives(capacity, tr + [Use(j)], k) { NotLonger(capacity, tr, j, k); }
      AppendFollows(capacity, s, tr, j, v);
    }
  }

  lemma FullButOldest<V>(capacity: int, s: Recency<V>, tr: seq<Event>, j: string)
    requires Follows(capacity, s, tr) && Find(s, j) == |s| && 0 < capacity <= |s|
    ensures FollowsBut(capacity, Cut(s, 0), tr, j)
  {
    var c := Cut(s, 0);
    if |s| > 1 { CutKeys(s, 0, 0); }
    forall i | 0 <= i < |c|
      ensures Survives(capacity, tr, c[i].0) && OthersSince(tr, c[i].0) + {j} == KeysAfter(c, i) + {j}
    {
      CutKeys(s, 0, i);
      NotAfter(s, i + 1);
      FindAt(s, i + 1);
    }
    FindCut(s, 0, j);
    forall k | k != j && Find(c, k) == |c| ensures !Survives(capacity, tr + [Use(j)], k) {
      FindCut(s, 0, k);
      if k == s[0].0 { OldestDropped(capacity, s, tr, j); } else { NotLonger(capacity, tr, j, k); }
    }
  }

  lemma NotAfter<V>(s: Recency<V>, p: nat)
    requires DistinctKeys(s) && p < |s|
    ensures s[0].0 !in KeysAfter(s, p)
  {
  }

  lemma OldestDropped<V>(capacity: int, s: Recency<V>, tr: seq<Event>, j: string)
    requires Follows(capacity, s, tr) && Find(s, j) == |s| && 0 < capacity <= |s|
    ensures !Survives(capacity, tr + [Use(j)], s[0].0)
  {
    EventStep(capacity, tr, Use(j), s[0].0);
    KeysAfterSize(s, 0);
    assert j !in KeysAfter(s, 0);
  }

  lemma ApplyFollows<V>(capacity: int, s: Recency<V>, tr: seq<Event>, op: CacheOp<V>)
    requires Follows(capacity, s, tr)
    ensures Follows(capacity, Apply(capacity, s, op), Traced(capacity, tr, op))
  {
    var f := Find(s, op.key);
    match op
    case GetOp(k) => if f < |s| { UseOldFollows(capacity, s, tr, f, s[f].1); assert (s[f].0, s[f].1) == s[f]; }
    case PutOp(k, v) => if f < |s| { UseOldFollows(capacity, s, tr, f, v); } else { UseNewFollows(capacity, s, tr, k, v); }
    case EvictOp(k) => GoneFollows(capacity, s, tr, k);
  }

  /** In every run on the recency list, the list follows the uses, and holds the values last put. */
  lemma {:induction false} RunFollows<V>(capacity: int, ops: seq<CacheOp<V>>)
    ensures var s := Run(capacity, ops);
      Follows(capacity, s, Trace(capacity, ops)) && forall i :: 0 <= i < |s| ==> LastPut(ops, s[i].0) == Some(s[i].1)
    decreases |ops|
  {
    if ops != [] {
      var init, op := ops[..|ops| - 1], ops[|ops| - 1];
      RunFollows(capacity, init);
      ApplyFollows(capacity, Run(capacity, init), Trace(capacity, init), op);
      StepValues(capacity, Run(capacity, init), ops);
    }
  }

  lemma StepValues<V>(capacity: int, s: Recency<V>, ops: seq<CacheOp<V>>)
    requires ops != [] && DistinctKeys(s)
    requires forall i :: 0 <= i < |s| ==> LastPut(ops[..|ops| - 1], s[i].0) == Some(s[i].1)
    ensures var s' := Apply(capacity, s, ops[|ops| - 1]); forall i :: 0 <= i < |s'| ==> LastPut(ops, s'[i].0) == Some(s'[i].1)
  {
    var op := ops[|ops| - 1];
    var f := Find(s, op.key);
    var s' := Apply(capacity, s, op);
    assert forall i :: 0 <= i < |s| && s[i].0 == op.key ==> i == f;
  }

  lemma CutElems<T>(s: seq<T>, i: nat)
    requires i < |s| && NoDup(s)
    ensures forall x :: x in Cut(s, i) <==> x in s && x != s[i]
    ensures forall x :: x in Cut(s, i) + [s[i]] <==> x in s
  {
    forall x | x in s && x != s[i] ensures x in Cut(s, i) {
      var j :| 0 <= j < |s| && s[j] == x;
      assert if j < i then Cut(s, i)[j] == x else Cut(s, i)[j - 1] == x;
    }
  }

  // ---------------------------------------------------------------- the linked list

  class Node<V> {
    const key: string
    var value: V
    var pre: Node?<V>
    var next: Node?<V>

    constructor (key: string, value: V)
      ensures this.key == key && this.value == value && pre == null && next == null
    {
      this.key, this.value := key, value;
      pre, next := null, null;
    }
  }

  /** Different nodes, each linked to its neighbours. */
  ghost predicate Chain<V>(ns: seq<Node<V>>)
    reads ns
  {
    && NoDup(ns)
    && (forall i, j :: 0 <= i < j < |ns| && j == i + 1 ==> ns[i].next == ns[j] && ns[j].pre == ns[i])
  }

  ghost predicate WellLinked<V>(nodes: seq<Node<V>>, head: Node?<V>, end: Node?<V>)
    reads nodes
  {
    && Chain(nodes)
    && (nodes == [] ==> head == null && end == null)
    && (nodes != [] ==> head == nodes[0] && end == nodes[|nodes| - 1])
  }

  /** Pointers stay within the nodes of one cache. */
  ghost predicate WithinNodes<V>(nodes: seq<Node<V>>, head: Node?<V>, end: Node?<V>, repr: set<Node<V>>)
    reads repr
  {
    && (forall i :: 0 <= i < |nodes| ==> nodes[i] in repr)
    && (head != null ==> head in repr)
    && (end != null ==> end in repr)
    && (forall n {:trigger n.pre} :: n in repr && n.pre != null ==> n.pre in repr)
    && (forall n {:trigger n.next} :: n in repr && n.next != null ==> n.next in repr)
  }

  lemma CutEnds<T>(s: seq<T>)
    requires s != []
    ensures Cut(s, |s| - 1) + [s[|s| - 1]] == s && Cut(s, 0) == s[1..]
  {
  }

  lemma CutUpdate<T>(s: seq<T>, i: nat, x: T)
    requires i < |s|
    ensures Cut(s[i := x], i) == Cut(s, i)
  {
  }

  lemma NoDupPlace<T>(s: seq<T>, i: nat, j: nat)
    requires NoDup(s) && i < |s| && j < |s| && s[i] == s[j]
    ensures i == j
  {
  }

  lemma NoDupCut<T>(s: seq<T>, i: nat)
    requires NoDup(s) && i < |s|
    ensures NoDup(Cut(s, i))
  {
  }

  /** The map holds exactly the linked nodes, under their keys. */
  ghost predicate Mapped<V>(table: map<string, Node<V>>, nodes: seq<Node<V>>) {
    && |table| == |nodes|
    && (forall i :: 0 <= i < |nodes| ==> nodes[i].key in table && table[nodes[i].key] == nodes[i])
    && (forall k :: k in table ==> table[k].key == k && table[k] in nodes)
  }

  lemma MappedMove<V>(table: map<string, Node<V>>, nodes: seq<Node<V>>, i: nat)
    requires Mapped(table, nodes) && NoDup(nodes) && i < |nodes|
    ensures Mapped(table, Cut(nodes, i) + [nodes[i]])
  {
    CutElems(nodes, i);
  }

  lemma MappedCut<V>(table: map<string, Node<V>>, nodes: seq<Node<V>>, i: nat)
    requires Mapped(table, nodes) && NoDup(nodes) && i < |nodes|
    ensures Mapped(table - {nodes[i].key}, Cut(nodes, i))
  {
    CutElems(nodes, i);
    MapRemoveSize(table, nodes[i].key);
    var table', nodes' := table - {nodes[i].key}, Cut(nodes, i);
    forall j | 0 <= j < |nodes'| ensures nodes'[j].key in table' && table'[nodes'[j].key] == nodes'[j] {
      assert nodes'[j] in Cut(nodes, i);
    }
  }

  lemma MapRemoveSize<T>(m: map<string, T>, k: string)
    ensures |m - {k}| == if k in m then |m| - 1 else |m|
  {
    assert (m - {k}).Keys == m.Keys - {k};
    assert |m - {k}| == |(m - {k}).Keys|;
  }

  lemma MapAddSize<T>(m: map<string, T>, k: string, v: T)
    requires k !in m
    ensures |m[k := v]| == |m| + 1
  {
    assert m[k := v].Keys == m.Keys + {k};
    assert |m[k := v]| == |m[k := v].Keys|;
  }

  lemma MappedAdd<V>(table: map<string, Node<V>>, nodes: seq<Node<V>>, node: Node<V>)
    requires Mapped(table, nodes) && node.key !in table
    ensures Mapped(table[node.key := node], nodes + [node])
  {
    MapAddSize(table, node.key, node);
  }

  class LruCache<V> {
    const capacity: int
    var size: nat
    var head: Node?<V>
    var end: Node?<V>
    var table: map<string, Node<V>>
    /** The linked nodes from head to end, and all nodes that pointers may lead to. */
    ghost var nodes: seq<Node<V>>
    ghost var repr: set<Node<V>>

    ghost predicate Closed()
      reads this, repr
    {
      WithinNodes(nodes, head, end, repr)
    }

    /** The list is linked in both directions; `head.pre` and `end.next` may be stale. */
    ghost predicate Linked()
      reads this, repr
    {
      WithinNodes(nodes, head, end, repr) && WellLinked(nodes, head, end)
    }

    ghost predicate Valid()
      reads this, repr
    {
      Linked() && Mapped(table, nodes) && size == |table| && (capacity > 0 ==> size <= capacity)
    }

    ghost function Contents(): (s: Recency<V>)
      reads this, nodes
      ensures |s| == |nodes|
    {
      seq(|nodes|, i requires 0 <= i < |nodes| reads this, nodes => (nodes[i].key, nodes[i].value))
    }

    /** The state after the only node was unlinked: `head` still points to a node whose key is gone from the map. */
    ghost predicate StaleHead()
      reads this, repr
    {
      Closed() && head != null && head.key !in table && size == |table|
    }

    constructor (capacity: int)
      ensures Valid() && this.capacity == capacity && Contents() == [] && repr == {} && fresh(this)
    {
      this.capacity := capacity;
      size, head, end, table := 0, null, null, map[];
      nodes, repr := [], {};
    }

    method AddNode(node: Node<V>)
      requires Closed() && (node.pre != null ==> node.pre in repr) && (node.next != null ==> node.next in repr)
      modifies this`head, this`end, this`nodes, this`repr, end, node
      ensures Closed() && repr == old(repr) + {node} && end == node
      ensures head == if old(head) == null then node else old(head)
      ensures nodes == old(nodes) + [node]
      ensures old(Linked()) && node !in old(nodes) ==> Linked()
      ensures forall n :: n in repr ==> n.value == old(n.value)
    {
      if end != null {
        end.next := node;
        node.pre := end;
        node.next := null;
      }
      end := node;
      if head == null {
        head := node;
      }
      nodes, repr := nodes + [node], repr + {node};
    }

    /**
     Unlinks a node; `i` is its place in the list, if it has one. Pointers other than its neighbours' are left alone, so
     unlinking the only node leaves `head` where it was.
     */
    method RemoveNode(node: Node<V>, ghost i: nat) returns (key: string)
      requires Closed() && node in repr && (i < |nodes| ==> nodes[i] == node)
      requires node == end || node == head || (Linked() && i < |nodes|)
      modifies this`head, this`end, this`nodes, repr
      ensures Closed() && repr == old(repr) && key == node.key
      ensures forall n :: n in repr ==> n.value == old(n.value)
      ensures nodes == if i < |old(nodes)| then Cut(old(nodes), i) else old(nodes)
      ensures node == old(end) ==> head == old(head) && end == old(node.pre)
      ensures node != old(end) && node == old(head) ==> head == old(node.next) && end == old(end)
      ensures old(Linked()) && i < |old(nodes)| && |old(nodes)| > 1 ==> Linked()
    {
      key := node.key;
      if node == end {
        StepBack(i);
      } else if node == head {
        StepForward(i);
      } else {
        Unlink(node, i);
      }
    }

    /** The case of the last node. */
    method StepBack(ghost i: nat)
      requires Closed() && end != null && (i < |nodes| ==> nodes[i] == end)
      modifies this`end, this`nodes
      ensures Closed() && end == old(end.pre)
      ensures nodes == if i < |old(nodes)| then Cut(old(nodes), i) else old(nodes)
      ensures old(Linked()) && i < |old(nodes)| && |old(nodes)| > 1 ==> Linked()
    {
      if Linked() && i < |nodes| && |nodes| > 1 {
        assert nodes[|nodes| - 1].pre == nodes[|nodes| - 2];
        NoDupPlace(nodes, i, |nodes| - 1);
      }
      end := end.pre;
      nodes := if i < |nodes| then Cut(nodes, i) else nodes;
    }

    /** The case of the first node. */
    method StepForward(ghost i: nat)
      requires Closed() && head != null && (i < |nodes| ==> nodes[i] == head)
      modifies this`head, this`nodes
      ensures Closed() && head == old(head.next)
      ensures nodes == if i < |old(nodes)| then Cut(old(nodes), i) else old(nodes)
      ensures old(Linked()) && i < |old(nodes)| && |old(nodes)| > 1 ==> Linked()
    {
      if Linked() && i < |nodes| && |nodes| > 1 {
        assert nodes[0].next == nodes[1];
        NoDupPlace(nodes, i, 0);
      }
      head := head.next;
      nodes := if i < |nodes| then Cut(nodes, i) else nodes;
    }

    /** The case of a node between two others. */
    method Unlink(node: Node<V>, ghost i: nat)
      requires Linked() && i < |nodes| && nodes[i] == node && node != head && node != end
      modifies this`nodes, repr
      ensures Linked() && nodes == Cut(old(nodes), i)
      ensures forall n :: n in repr ==> n.value == old(n.value)
    {
      ghost var ns := nodes;
      ghost var p, q := ns[i - 1], ns[i + 1];
      assert ns[i].pre == p && ns[i].next == q;
      node.pre.next := node.next;
      node.next.pre := node.pre;
      nodes := Cut(ns, i);
      NoDupCut(ns, i);
      forall j, m | 0 <= j < m < |nodes| && m == j + 1
        ensures nodes[j].next == nodes[m] && nodes[m].pre == nodes[j]
      {
        ghost var x, y := if j < i then j else j + 1, if m < i then m else m + 1;
        assert nodes[j] == ns[x] && nodes[m] == ns[y];
        if j != i - 1 { assert ns[x] != p && ns[y] != q && old(ns[x].next) == ns[y] && old(ns[y].pre) == ns[x]; }
      }
      assert Chain(nodes);
    }

    /** As long as values stay, the contents follow the list. */
    twostate lemma ContentsFollow(i: nat)
      requires i < |old(nodes)| && nodes == Cut(old(nodes), i)
      requires forall j :: 0 <= j < |old(nodes)| ==> old(nodes)[j].value == old(nodes[j].value)
      ensures Contents() == Cut(old(Contents()), i)
    {
    }

    method RefreshNode(node: Node<V>, ghost i: nat)
      requires Linked() && i < |nodes| && nodes[i] == node
      modifies this`head, this`end, this`nodes, this`repr, repr
      ensures Linked() && repr == old(repr) && nodes == Cut(old(nodes), i) + [node]
      ensures Contents() == Cut(old(Contents()), i) + [old(Contents())[i]]
      ensures node.value == old(node.value)
    {
      if node == end {
        NoDupPlace(nodes, i, |nodes| - 1);
        CutEnds(nodes);
        CutEnds(Contents());
        return;
      }
      MoveToEnd(node, i);
    }

    method MoveToEnd(node: Node<V>, ghost i: nat)
      requires Linked() && i < |nodes| && nodes[i] == node && node != end
      modifies this`head, this`end, this`nodes, this`repr, repr
      ensures Linked() && repr == old(repr) && nodes == Cut(old(nodes), i) + [node]
      ensures Contents() == Cut(old(Contents()), i) + [old(Contents())[i]]
      ensures node.value == old(node.value)
    {
      CutElems(nodes, i);
      var key := RemoveNode(node, i);
      ContentsFollow(i);
      AddNode(node);
    }

    /** Where the node of a key stands in the list. */
    ghost function Place(k: string): (i: nat)
      requires Valid()
      reads this, repr
      ensures i == Find(Contents(), k) <= |nodes|
      ensures i < |nodes| <==> k in table
      ensures i < |nodes| ==> nodes[i] == table[k]
    {
      var i := Find(Contents(), k);
      assert i < |nodes| ==> Contents()[i].0 == nodes[i].key;
      assert forall j :: 0 <= j < i ==> Contents()[j].0 == nodes[j].key;
      i
    }

    method Get(k: string) returns (r: Option<V>)
      requires Valid()
      modifies this`head, this`end, this`nodes, this`repr, repr
      ensures Valid() && repr == old(repr) && Contents() == Used(old(Contents()), k)
      ensures var s := old(Contents()); var i := Find(s, k); r == if i < |s| then Some(s[i].1) else None
    {
      ghost var i := Place(k);
      if k !in table { return None; }
      var node := table[k];
      MappedMove(table, nodes, i);
      RefreshNode(node, i);
      r := Some(node.value);
    }

    /** Replaces the map; the list does not notice. */
    method SetTable(t: map<string, Node<V>>)
      modifies this`table, this`size
      ensures table == t && size == |t|
      ensures Closed() == old(Closed()) && Linked() == old(Linked()) && Contents() == old(Contents())
    {
      table, size := t, |t|;
    }

    /** Unlinks a node that is not alone and forgets its key. */
    method Forget(node: Node<V>, ghost i: nat)
      requires Linked() && i < |nodes| && nodes[i] == node && |nodes| > 1
      modifies this`size, this`head, this`end, this`table, this`nodes, repr
      ensures Linked() && repr == old(repr) && nodes == Cut(old(nodes), i) && Contents() == Cut(old(Contents()), i)
      ensures table == old(table) - {node.key} && size == |table|
    {
      var oldKey := RemoveNode(node, i);
      ContentsFollow(i);
      SetTable(table - {oldKey});
    }

    method MakeRoom()
      requires Valid() && |nodes| > 1
      modifies this`size, this`head, this`end, this`table, this`nodes, repr
      ensures Linked() && repr == old(repr) && Mapped(table, nodes) && size == |table|
      ensures table.Keys <= old(table.Keys) && Contents() == old(Contents())[1..]
    {
      MappedCut(table, nodes, 0);
      CutEnds(Contents());
      Forget(head, 0);
    }

    /** The same statements when they meet the only node, or a head that is stale already. */
    method DropStaleHead()
      requires Closed() && head != null && (nodes == [head] || head.key !in table)
      modifies this`size, this`head, this`end, this`table, this`nodes, repr
      ensures Closed() && repr == old(repr) && table == old(table) - {old(head).key} && size == |table|
      ensures head == if old(head) == old(end) then old(head) else old(head.next)
    {
      var oldKey := RemoveNode(head, if nodes == [head] then 0 else |nodes|);
      SetTable(table - {oldKey});
    }

    /** Links a new node at the recent end and files it under its key. */
    method Append(k: string, v: V)
      requires Closed() && k !in table
      modifies this`size, this`head, this`end, this`table, this`nodes, this`repr, repr
      ensures Closed() && fresh(repr - old(repr)) && old(repr) <= repr
      ensures end != null && fresh(end) && table == old(table)[k := end] && size == |table| == |old(table)| + 1
      ensures old(head) != null ==> head == old(head)
      ensures old(Linked()) ==> Linked()
      ensures nodes == old(nodes) + [end] && end.key == k && Contents() == old(Contents()) + [(k, v)]
    {
      var node := new Node(k, v);
      MapAddSize(table, k, node);
      AddNode(node);
      assert Contents() == old(Contents()) + [(k, v)];
      SetTable(table[k := node]);
    }

    /** `put` of a key that the map does not hold, up to the point where it would unlink the only node. */
    method PutNew(k: string, v: V)
      requires Valid() && k !in table && (capacity == 1 ==> nodes == [])
      modifies this`size, this`head, this`end, this`table, this`nodes, this`repr, repr
      ensures fresh(repr - old(repr)) && old(repr) <= repr
      ensures Valid() && Contents() == Put(capacity, old(Contents()), k, v)
    {
      ghost var i := Place(k);
      if 0 < capacity <= |table| {
        MakeRoom();
        assert Contents() == old(Contents())[1..];
      } else {
        assert Contents() == old(Contents());
      }
      File(k, v);
    }

    method File(k: string, v: V)
      requires Linked() && Mapped(table, nodes) && k !in table
      modifies this`size, this`head, this`end, this`table, this`nodes, this`repr, repr
      ensures fresh(repr - old(repr)) && old(repr) <= repr
      ensures Linked() && Mapped(table, nodes) && size == |table| == |old(table)| + 1
      ensures Contents() == old(Contents()) + [(k, v)]
    {
      ghost var t, ns := table, nodes;
      Append(k, v);
      MappedAdd(t, ns, end);
    }

    /** The same statements when they unlink the only node: the head is left behind. */
    method PutAlone(k: string, v: V)
      requires Valid() && |nodes| == 1 && k !in table && capacity == 1
      modifies this`size, this`head, this`end, this`table, this`nodes, this`repr, repr
      ensures fresh(repr - old(repr)) && old(repr) <= repr
      ensures StaleHead() && head == old(head) && table.Keys == {k}
    {
      SoleKey(table, nodes);
      DropStaleHead();
      Append(k, v);
    }

    /**
     The same statements with a stale head. Nothing leaves the map, so a full cache outgrows its capacity; until it is
     full, the head stays stale.
     */
    method PutStale(k: string, v: V)
      requires StaleHead() && k !in table
      modifies this`size, this`head, this`end, this`table, this`nodes, this`repr, repr
      ensures fresh(repr - old(repr)) && old(repr) <= repr
      ensures table.Keys == old(table).Keys + {k} && size == |table| == old(size) + 1
      ensures !(0 < capacity <= old(size)) && k != old(head).key ==> StaleHead() && head == old(head)
    {
      if 0 < capacity <= |table| { DropStaleHead(); }
      Append(k, v);
    }

    method PutValue(k: string, v: V)
      requires Valid()
      modifies this`size, this`head, this`end, this`table, this`nodes, this`repr, repr
      ensures fresh(repr - old(repr)) && old(repr) <= repr
      ensures capacity != 1 || old(nodes) == [] || k in old(table) ==>
        Valid() && Contents() == Put(capacity, old(Contents()), k, v)
      ensures !(capacity != 1 || old(nodes) == [] || k in old(table)) ==>
        StaleHead() && head == old(nodes)[0] && table.Keys == {k}
    {
      ghost var i := Place(k);
      if k !in table {
        if capacity == 1 && head != null { PutAlone(k, v); } else { PutNew(k, v); }
      } else {
        PutOld(k, v);
      }
    }

    /** `put` of a key that the map holds. */
    method PutOld(k: string, v: V)
      requires Valid() && k in table
      modifies this`head, this`end, this`nodes, this`repr, repr
      ensures repr == old(repr) && Valid() && Contents() == Put(capacity, old(Contents()), k, v)
    {
      ghost var i := Place(k);
      var node := table[k];
      MappedMove(table, nodes, i);
      Rewrite(node, i, v);
    }

    /** A linked node gets a new value and moves to the recent end. */
    method Rewrite(node: Node<V>, ghost i: nat, v: V)
      requires Linked() && i < |nodes| && nodes[i] == node
      modifies this`head, this`end, this`nodes, this`repr, repr
      ensures Linked() && repr == old(repr) && nodes == Cut(old(nodes), i) + [node]
      ensures Contents() == Cut(old(Contents()), i) + [(node.key, v)]
    {
      CutUpdate(Contents(), i, (node.key, v));
      SetValue(node, i, v);
      RefreshNode(node, i);
    }

    method SetValue(node: Node<V>, ghost i: nat, v: V)
      requires Linked() && i < |nodes| && node == nodes[i]
      modifies node`value
      ensures Linked() && Contents() == old(Contents())[i := (node.key, v)]
    {
      node.value := v;
    }

    method EvictKey(k: string)
      requires Valid()
      modifies this`size, this`head, this`end, this`table, this`nodes, this`repr, repr
      ensures repr == old(repr)
      ensures k !in old(table) || |old(nodes)| > 1 ==> Valid() && Contents() == Evict(old(Contents()), k)
      ensures !(k !in old(table) || |old(nodes)| > 1) ==> StaleHead() && head.key == k && table == map[]
    {
      ghost var i := Place(k);
      if k !in table { return; }
      MappedCut(table, nodes, i);
      if |table| == 1 {
        SoleKey(table, nodes);
        DropStaleHead();
      } else {
        Forget(table[k], i);
      }
    }
  }

  /** What an operation answers on the recency list: a get, with the value or a miss. */
  function Answer<V>(s: Recency<V>, op: CacheOp<V>): seq<Option<V>> {
    if !op.GetOp? then []
    else
      var i := Find(s, op.key);
      [if i < |s| then Some(s[i].1) else None]
  }

  /** What the gets of a run must answer, in order. */
  function MustAnswers<V>(capacity: int, ops: seq<CacheOp<V>>): seq<Option<V>> {
    if ops == [] then []
    else
      var init, op := ops[..|ops| - 1], ops[|ops| - 1];
      MustAnswers(capacity, init) + if op.GetOp? then [MustAnswer(capacity, init, op.key)] else []
  }

  /** After every run, the recency list answers as it must. */
  lemma AnswersAsItMust<V>(capacity: int, ops: seq<CacheOp<V>>, k: string)
    ensures Answer(Run(capacity, ops), GetOp(k)) == [MustAnswer(capacity, ops, k)]
  {
    RunFollows(capacity, ops);
  }

  method ApplyOp<V>(c: LruCache<V>, op: CacheOp<V>) returns (answer: seq<Option<V>>)
    requires c.Valid() && SafeOp(c.capacity, c.Contents(), op)
    modifies c, c.repr
    ensures c.Valid() && fresh(c.repr - old(c.repr))
    ensures c.Contents() == Apply(c.capacity, old(c.Contents()), op) && answer == Answer(old(c.Contents()), op)
  {
    answer := [];
    ghost var i := c.Place(op.key);
    match op
    case GetOp(k) => var r := c.Get(k); answer := [r];
    case PutOp(k, v) => c.PutValue(k, v);
    case EvictOp(k) => c.EvictKey(k);
  }

  /**
   Every run that never unlinks the only node: the pointers and the map behave as the recency list, and every get answers
   with the value last put, as long as the key survives.
   */
  method RunCache<V>(capacity: int, ops: seq<CacheOp<V>>) returns (c: LruCache<V>, answers: seq<Option<V>>)
    requires forall n :: 0 <= n < |ops| ==> SafeOp(capacity, Run(capacity, ops[..n]), ops[n])
    ensures c.Valid() && c.capacity == capacity && c.Contents() == Run(capacity, ops)
    ensures answers == MustAnswers(capacity, ops)
  {
    c := new LruCache<V>(capacity);
    answers := [];
    for n := 0 to |ops|
      invariant c.Valid() && c.capacity == capacity && c.Contents() == Run(capacity, ops[..n])
      invariant answers == MustAnswers(capacity, ops[..n])
      invariant fresh(c) && fresh(c.repr)
    {
      assert ops[..n + 1][..n] == ops[..n];
      assert SafeOp(capacity, c.Contents(), ops[n]);
      AnswersAsItMust(capacity, ops[..n], ops[n].key);
      var answer := ApplyOp(c, ops[n]);
      answers := answers + answer;
    }
    assert ops[..|ops|] == ops;
  }

  lemma SoleKey<V>(table: map<string, Node<V>>, nodes: seq<Node<V>>)
    requires Mapped(table, nodes) && |nodes| == 1
    ensures table.Keys == {nodes[0].key} && table - {nodes[0].key} == map[]
  {
    forall k | k in table ensures k == nodes[0].key { assert table[k] in nodes; }
  }

  /** With capacity one, the third new key makes the cache larger than its capacity. */
  method CapacityOneOverflows() returns (c: LruCache<int>)
    ensures c.capacity == 1 && c.size == 2
  {
    c := new LruCache<int>(1);
    c.PutValue("a", 1);
    assert c.Contents()[0].0 == "a";
    ghost var i := c.Place("b");
    c.PutValue("b", 2);
    assert |c.table| == |c.table.Keys| == 1;
    c.PutStale("c", 3);
  }

  /** A cache whose only key was evicted. */
  method EvictedCache<V>(capacity: int, k: string, v: V) returns (c: LruCache<V>)
    ensures fresh(c) && fresh(c.repr) && c.capacity == capacity && c.StaleHead() && c.head.key == k && c.table == map[]
  {
    c := new LruCache<V>(capacity);
    c.PutValue(k, v);
    assert c.Contents()[0] == (k, v);
    ghost var i := c.Place(k);
    c.EvictKey(k);
  }

  lemma OneMore(s: seq<string>, n: nat)
    requires NoDup(s) && n < |s|
    ensures s[n] !in Elems(s[..n]) && Elems(s[..n + 1]) == Elems(s[..n]) + {s[n]}
  {
  }

  /**
   With any positive capacity: after the only key was evicted, one new key more than the capacity makes the cache larger
   than its capacity.
   */
  method EvictionOverflows<V>(capacity: int, k: string, keys: seq<string>, v: V) returns (c: LruCache<V>)
    requires capacity > 0 && |keys| == capacity + 1 && NoDup(keys) && k !in keys
    ensures c.capacity == capacity && c.size == capacity + 1
  {
    c := EvictedCache(capacity, k, v);
    for n := 0 to |keys|
      invariant fresh(c) && fresh(c.repr) && c.capacity == capacity
      invariant c.size == n && c.table.Keys == Elems(keys[..n])
      invariant n <= capacity ==> c.StaleHead() && c.head.key == k
    {
      OneMore(keys, n);
      assert keys[n] in keys;
      c.PutStale(keys[n], v);
    }
  }
}
