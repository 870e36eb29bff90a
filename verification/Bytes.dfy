/** Big-endian integers in byte buffers, as Node's `Buffer` reads and writes them. */
module Bytes {

  type Byte = n: int | 0 <= n < 256

  const TWO_16 := 0x1_0000
  const TWO_32 := 0x1_0000_0000

  function U16(n: nat): (r: seq<Byte>)
    requires n < TWO_16
  {
    [n / 0x100, n % 0x100]
  }

  function U32(n: nat): (r: seq<Byte>)
    requires n < TWO_32
  {
    U16(n / TWO_16) + U16(n % TWO_16)
  }

  function ReadU16(b: seq<Byte>): (n: nat)
    requires |b| >= 2
    ensures n < TWO_16
  {
    var high: int := b[0];
    high * 0x100 + b[1]
  }

  function ReadU32(b: seq<Byte>): (n: nat)
    requires |b| >= 4
    ensures n < TWO_32
  {
    ReadU16(b) * TWO_16 + ReadU16(b[2..])
  }

  lemma {:induction false} ReadBackU16(n: nat, rest: seq<Byte>)
    requires n < TWO_16
    ensures ReadU16(U16(n) + rest) == n
  {}

  lemma {:induction false} ReadBackU32(n: nat, rest: seq<Byte>)
    requires n < TWO_32
    ensures ReadU32(U32(n) + rest) == n
  {
    ReadBackU16(n / TWO_16, U16(n % TWO_16) + rest);
    ReadBackU16(n % TWO_16, rest);
    assert U32(n) + rest == U16(n / TWO_16) + (U16(n % TWO_16) + rest);
    assert (U32(n) + rest)[2..] == U16(n % TWO_16) + rest;
  }

  /** The most significant byte comes first. */
  lemma {:induction false} BigEndian(n: nat)
    requires n < TWO_32
    ensures var b: seq<int> := U32(n);
            |b| == 4 && n == b[0] * 0x100_0000 + b[1] * 0x1_0000 + b[2] * 0x100 + b[3]
  {
    var high, low := n / TWO_16, n % TWO_16;
    var h: seq<int>, l: seq<int> := U16(high), U16(low);
    assert h[0] * 0x100 + h[1] == high && l[0] * 0x100 + l[1] == low;
    assert n == high * TWO_16 + low;
  }

  /** Only the first four bytes matter. */
  lemma {:induction false} ReadU32Prefix(a: seq<Byte>, b: seq<Byte>)
    requires |a| >= 4
    ensures ReadU32(a + b) == ReadU32(a)
  {
    assert (a + b)[2..] == a[2..] + b;
  }
}
