/** Machine integer ranges and the Option / Result wrappers shared by every module. */
module Base {

  const TWO_8: int := 0x100
  const TWO_16: int := 0x1_0000
  const TWO_32: int := 0x1_0000_0000
  const TWO_63: int := 0x8000_0000_0000_0000
  const TWO_64: int := 0x1_0000_0000_0000_0000

  type byte = x: int | 0 <= x < 0x100
  type U8 = x: int | 0 <= x < 0x100
  type U16 = x: int | 0 <= x < 0x1_0000
  type U32 = x: int | 0 <= x < 0x1_0000_0000
  type U64 = x: int | 0 <= x < 0x1_0000_0000_0000_0000
  type I64 = x: int | -0x8000_0000_0000_0000 <= x < 0x8000_0000_0000_0000

  datatype Option<+T> = None | Some(value: T)

  datatype Result<+R, +E> = Ok(value: R) | Err(error: E)

  /** Rust's `v as i64` on a 64-bit unsigned value: the same bits read as two's complement. */
  function AsI64(v: U64): (r: I64)
    ensures v < TWO_63 ==> r == v
    ensures v >= TWO_63 ==> r < 0 && r + TWO_64 == v
    ensures r % TWO_64 == v
  {
    if v < TWO_63 then v else v - TWO_64
  }

  /** `as i64` never maps two counters to the same integer. */
  lemma AsI64Injective(a: U64, b: U64)
    requires AsI64(a) == AsI64(b)
    ensures a == b
  {
    assert AsI64(a) % TWO_64 == a;
    assert AsI64(b) % TWO_64 == b;
  }

  // Sequence facts, stated once for any element type and used on lines,
  // records and byte buffers alike.

  /** Concatenation is associative. */
  lemma Associative<T>(a: seq<T>, b: seq<T>, c: seq<T>)
    ensures a + (b + c) == a + b + c
  {
  }

  /** Putting the last element back after the rest gives the sequence itself. */
  lemma Snoc<T>(s: seq<T>, p: seq<T>, q: seq<T>)
    requires |s| > 0 && p + q == s[..|s| - 1]
    ensures p + q + [s[|s| - 1]] == s
    ensures p + (q + [s[|s| - 1]]) == s
  {
  }

  /** A non-empty sequence is its first element followed by the rest. */
  lemma Cons<T>(s: seq<T>)
    requires |s| > 0
    ensures s == [s[0]] + s[1..]
  {
  }

  /** A non-empty sequence holds its last element and, once each, the elements before it. */
  lemma LastMultiset<T>(s: seq<T>)
    requires |s| > 0
    ensures multiset(s) == multiset(s[..|s| - 1]) + multiset{s[|s| - 1]}
  {
    assert s == s[..|s| - 1] + [s[|s| - 1]];
  }
}
