/**
 The bytewise order of Go strings and the sorted list of a map's keys (sort.Strings, types/cbor_gen.go:1061-1065).
 */
module KeyOrder {
  import opened Basics

  /** Strictly before, bytewise. */
  predicate Less(a: Bytes, b: Bytes) {
    b != [] && (a == [] || a[0] < b[0] || (a[0] == b[0] && Less(a[1..], b[1..])))
  }

  lemma {:induction false} LessTotal(a: Bytes, b: Bytes)
    ensures a == b || Less(a, b) || Less(b, a)
    decreases |a|
  {
    if a != [] && b != [] && a[0] == b[0] {
      LessTotal(a[1..], b[1..]);
      assert a == [a[0]] + a[1..] && b == [b[0]] + b[1..];
    }
  }

  lemma {:induction false} LessTransitive(a: Bytes, b: Bytes, c: Bytes)
    requires Less(a, b) && Less(b, c)
    ensures Less(a, c)
    decreases |a|
  {
    if a != [] && a[0] == b[0] == c[0] {
      LessTransitive(a[1..], b[1..], c[1..]);
    }
  }

  lemma {:induction false} LessIrreflexive(a: Bytes)
    ensures !Less(a, a)
    decreases |a|
  {
    if a != [] { LessIrreflexive(a[1..]); }
  }

  /** The strings agree up to `i`, and there `a` ends or has the smaller byte. */
  predicate BeforeAt(a: Bytes, b: Bytes, i: nat) {
    i <= |a| && i < |b| && a[..i] == b[..i] && (i == |a| || a[i] as int < b[i] as int)
  }

  /** A string is less than another exactly if it is a proper prefix of it, or smaller at the first byte that differs. */
  lemma {:induction false} LessExactly(a: Bytes, b: Bytes)
    ensures Less(a, b) <==> exists i :: BeforeAt(a, b, i)
    decreases |a|
  {
    if a != [] && b != [] {
      forall i: nat | BeforeAt(a, b, i) && i > 0 ensures a[0] == b[0] { assert a[0] == a[..i][0] == b[..i][0] == b[0]; }
    }
    if Less(a, b) && (a == [] || a[0] < b[0]) {
      assert BeforeAt(a, b, 0);
    } else if a != [] && b != [] && a[0] == b[0] {
      LessExactly(a[1..], b[1..]);
      assert a == [a[0]] + a[1..] && b == [b[0]] + b[1..];
      if i: nat :| BeforeAt(a[1..], b[1..], i) {
        assert a[..i + 1] == [a[0]] + a[1..][..i] && b[..i + 1] == [b[0]] + b[1..][..i];
        assert BeforeAt(a, b, i + 1);
      }
      if i: nat :| BeforeAt(a, b, i) {
        assert i > 0;
        assert a[1..][..i - 1] == a[..i][1..] && b[1..][..i - 1] == b[..i][1..];
        assert BeforeAt(a[1..], b[1..], i - 1);
      }
    }
  }

  ghost predicate StrictlySorted(ks: seq<Bytes>) {
    forall i, j :: 0 <= i < j < |ks| ==> Less(ks[i], ks[j])
  }

  /** A strictly sorted list is determined by its elements, so the order in which they were collected leaves no trace. */
  lemma {:induction false} SortedUnique(a: seq<Bytes>, b: seq<Bytes>)
    requires StrictlySorted(a) && StrictlySorted(b) && Elems(a) == Elems(b)
    ensures a == b
    decreases |a|
  {
    if a == [] {
      assert forall i :: 0 <= i < |b| ==> b[i] in Elems(b);
    } else {
      assert a[0] in Elems(a);
      assert a[0] in Elems(b) && b[0] in Elems(a);
      var i :| 0 <= i < |b| && b[i] == a[0];
      var j :| 0 <= j < |a| && a[j] == b[0];
      if i > 0 && j > 0 {
        LessTransitive(b[0], a[0], b[0]);
        LessIrreflexive(b[0]);
      }
      assert a[0] == b[0];
      LessIrreflexive(a[0]);
      forall x ensures x in Elems(a[1..]) <==> x in Elems(b[1..]) {
        assert x in Elems(a) <==> x in Elems(b);
        assert x in a <==> x == a[0] || x in a[1..];
        assert x in b <==> x == b[0] || x in b[1..];
      }
      SortedUnique(a[1..], b[1..]);
      assert a == [a[0]] + a[1..] && b == [b[0]] + b[1..];
    }
  }

  /** The keys with `k` put where it belongs. */
  function Insert(ks: seq<Bytes>, k: Bytes): seq<Bytes> {
    if ks == [] || Less(k, ks[0]) then [k] + ks else [ks[0]] + Insert(ks[1..], k)
  }

  lemma {:induction false} InsertSorts(ks: seq<Bytes>, k: Bytes)
    requires StrictlySorted(ks) && k !in ks
    ensures StrictlySorted(Insert(ks, k)) && Elems(Insert(ks, k)) == Elems(ks) + {k}
    decreases |ks|
  {
    if ks == [] {
    } else if Less(k, ks[0]) {
      forall i | 0 < i < |ks| ensures Less(k, ks[i]) { LessTransitive(k, ks[0], ks[i]); }
    } else {
      InsertSorts(ks[1..], k);
      LessTotal(k, ks[0]);
      var more := Insert(ks[1..], k);
      forall i | 0 <= i < |more| ensures Less(ks[0], more[i]) {
        assert more[i] in Elems(ks[1..]) + {k};
      }
      assert ks == [ks[0]] + ks[1..];
    }
  }

  lemma {:induction false} SortingExists(s: set<Bytes>) returns (ks: seq<Bytes>)
    ensures StrictlySorted(ks) && Elems(ks) == s
  {
    if s == {} {
      ks := [];
    } else {
      var k :| k in s;
      ks := SortingExists(s - {k});
      assert k !in Elems(ks);
      InsertSorts(ks, k);
      ks := Insert(ks, k);
    }
  }

  /** The keys of a map in increasing order. */
  ghost function SortedKeys(s: set<Bytes>): (ks: seq<Bytes>)
    ensures StrictlySorted(ks) && Elems(ks) == s
    ensures forall k :: k in ks <==> k in s
  {
    assert exists ks :: StrictlySorted(ks) && Elems(ks) == s by { var ks := SortingExists(s); }
    var ks :| StrictlySorted(ks) && Elems(ks) == s;
    assert forall k :: k in ks <==> k in Elems(ks);
    ks
  }

  lemma {:induction false} NoDupLength<T>(ks: seq<T>)
    requires NoDup(ks)
    ensures |Elems(ks)| == |ks|
    decreases |ks|
  {
    if ks != [] {
      NoDupLength(ks[1..]);
      assert Elems(ks) == {ks[0]} + Elems(ks[1..]);
      assert ks[0] !in Elems(ks[1..]);
    }
  }

  lemma SortedKeysLength(s: set<Bytes>)
    ensures |SortedKeys(s)| == |s|
  {
    var ks := SortedKeys(s);
    forall i, j | 0 <= i < j < |ks| ensures ks[i] != ks[j] { LessIrreflexive(ks[i]); }
    NoDupLength(ks);
  }
}
