/**
 Types shared by the whole model: bytes, the machine integers that are stored, and optional values.
 */
module Basics {
  /** A Go string and a `[]byte` are both sequences of bytes; a byte is a char below 256. */
  type Byte = c: char | c as int < 256 witness 'a'
  type Bytes = seq<Byte>

  const TWO_64: int := 0x1_0000_0000_0000_0000
  const TWO_63: int := 0x8000_0000_0000_0000

  type U64 = n: int | 0 <= n < TWO_64
  type I64 = n: int | -TWO_63 <= n < TWO_63

  /** A string value: its length is a machine integer. */
  type Text = b: Bytes | |b| < TWO_63

  /** A length limit; the libraries' limits are small constants. */
  type Limit = n: nat | n < 0x4000_0000_0000_0000

  /** Addition on `uint64`, which wraps around. */
  function AddU64(a: U64, b: U64): (r: U64)
    ensures r == if a + b < TWO_64 then a + b else a + b - TWO_64
  {
    (a + b) % TWO_64
  }

  /** Subtraction on `uint64`, which wraps around. */
  function SubU64(a: U64, b: U64): (r: U64)
    ensures r == if a >= b then a - b else a - b + TWO_64
  {
    (a - b) % TWO_64
  }

  datatype Option<+T> = None | Some(value: T)

  /** The elements of a sequence as a set. */
  ghost function Elems<T>(s: seq<T>): set<T> {
    set x | x in s
  }

  ghost predicate NoDup<T>(s: seq<T>) {
    forall i, j :: 0 <= i < j < |s| ==> s[i] != s[j]
  }
}
