/**
 Commit strings: a commit id and a block height, joined by the byte 26. They are written by ModelManager.Create and Update
 and read back by ParseMetaCommit.
 */
module MetaCommit {
  import opened Basics
  import opened Keys

  const SEPARATOR: Byte := 26 as char

  datatype Commit = Commit(commitId: Bytes, height: U64)

  /** The `%d` of an int64. */
  function PrintInt(n: int): Bytes { if n < 0 then ['-'] + Decimal(-n) else Decimal(n) }

  /** The commit buffer of Create and Update. */
  function BuildCommit(commitId: Bytes, height: I64): Bytes { commitId + [SEPARATOR] + PrintInt(height) }

  /** strings.Split at the separator. */
  function Split(s: Bytes): (parts: seq<Bytes>)
    ensures |parts| > 0
  {
    if s == [] then [[]]
    else
      var parts := Split(s[1..]);
      if s[0] == SEPARATOR then [[]] + parts else [[s[0]] + parts[0]] + parts[1..]
  }

  /** strconv.ParseUint in base 10 and 64 bits. */
  function ParseUint(s: Bytes): Option<U64> {
    if s == [] || !(forall i :: 0 <= i < |s| ==> IsDigit(s[i])) then None
    else if 0 <= FromDecimal(s) < TWO_64 then Some(FromDecimal(s)) else None
  }

  function ParseMetaCommit(mc: Bytes): Option<Commit> {
    var parts := Split(mc);
    if |parts| != 2 then None
    else
      match ParseUint(parts[1])
      case None => None
      case Some(h) => Some(Commit(parts[0], h))
  }

  function Separators(s: Bytes): nat {
    if s == [] then 0 else Separators(s[1..]) + (if s[0] == SEPARATOR then 1 else 0)
  }

  lemma {:induction false} SplitCount(s: Bytes)
    ensures |Split(s)| == Separators(s) + 1
    ensures SEPARATOR !in s ==> Split(s) == [s]
  {
    if s != [] {
      SplitCount(s[1..]);
      assert s == [s[0]] + s[1..];
    }
  }

  lemma {:induction false} SplitAtSeparator(a: Bytes, b: Bytes)
    requires SEPARATOR !in b
    ensures |Split(a + [SEPARATOR] + b)| == Separators(a) + 2
    ensures SEPARATOR !in a ==> Split(a + [SEPARATOR] + b) == [a, b]
    ensures SEPARATOR in a ==> Separators(a) > 0
  {
    var s := a + [SEPARATOR] + b;
    if a == [] {
      assert s[0] == SEPARATOR && s[1..] == b;
      SplitCount(b);
      NoSeparators(b);
    } else {
      assert s[0] == a[0] && s[1..] == a[1..] + [SEPARATOR] + b;
      SplitAtSeparator(a[1..], b);
      assert a == [a[0]] + a[1..];
    }
  }

  lemma {:induction false} NoSeparators(s: Bytes)
    requires SEPARATOR !in s
    ensures Separators(s) == 0
  {
    if s != [] {
      assert s[0] in s;
      NoSeparators(s[1..]);
    }
  }

  /** A commit string reads back as it was written exactly when its id is free of the separator and its height not negative. */
  lemma CommitRoundTrip(commitId: Bytes, height: I64)
    ensures ParseMetaCommit(BuildCommit(commitId, height)) ==
      if SEPARATOR !in commitId && height >= 0 then Some(Commit(commitId, height)) else None
  {
    var printed := PrintInt(height);
    assert SEPARATOR !in printed by {
      assert forall i :: 0 <= i < |printed| ==> printed[i] == '-' || IsDigit(printed[i]);
    }
    SplitAtSeparator(commitId, printed);
    if height >= 0 {
      DecimalRoundTrip(height);
    } else {
      assert printed[0] == '-' && !IsDigit(printed[0]);
    }
  }

  /** A commit string as it is spelt: the id, the byte 26 and the height in decimal. */
  lemma CommitSpelt(commitId: Bytes)
    ensures BuildCommit(commitId, 340) == commitId + [26 as char] + "340"
    ensures BuildCommit(commitId, -12) == commitId + [26 as char] + "-12"
  {
    NumbersSpelt();
  }

  lemma {:induction false} SplitParts(s: Bytes)
    ensures forall i :: 0 <= i < |Split(s)| ==> SEPARATOR !in Split(s)[i]
    ensures |Split(s)| == 1 ==> s == Split(s)[0]
    ensures |Split(s)| == 2 ==> s == Split(s)[0] + [SEPARATOR] + Split(s)[1]
  {
    if s != [] {
      SplitParts(s[1..]);
      assert s == [s[0]] + s[1..];
      var parts := Split(s[1..]);
      if s[0] == SEPARATOR && |parts| == 1 { assert s == [] + [SEPARATOR] + parts[0]; }
      if s[0] != SEPARATOR && |parts| == 2 {
        assert s == [s[0]] + (parts[0] + [SEPARATOR] + parts[1]) == ([s[0]] + parts[0]) + [SEPARATOR] + parts[1];
      }
    }
  }

  /** A text that ParseMetaCommit takes for a commit: an id free of the byte 26, that byte, and a 64-bit number in decimal. */
  predicate Spells(mc: Bytes, c: Commit, digits: Bytes) {
    && mc == c.commitId + [26 as char] + digits && (26 as char) !in c.commitId
    && digits != [] && (forall i :: 0 <= i < |digits| ==> IsDigit(digits[i])) && FromDecimal(digits) == c.height
  }

  lemma ParsesExactly(mc: Bytes, c: Commit)
    ensures ParseMetaCommit(mc) == Some(c) <==> exists digits :: Spells(mc, c, digits)
  {
    if ParseMetaCommit(mc) == Some(c) {
      SplitParts(mc);
      assert Spells(mc, c, Split(mc)[1]);
    }
    if digits :| Spells(mc, c, digits) {
      assert SEPARATOR !in digits by { assert forall i :: 0 <= i < |digits| ==> IsDigit(digits[i]); }
      SplitAtSeparator(c.commitId, digits);
    }
  }
}
