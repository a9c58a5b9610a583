/** The variable-length integers of the block payload: little-endian groups of seven
    bits, signed values zigzagged. */
module Varints {
  import opened Bytes

  const TWO64: int := 0x1_0000_0000_0000_0000
  const TWO63: int := 0x8000_0000_0000_0000

  type Str = seq<byte>

  // ---- unsigned ----

  function Uvarint(x: nat): (r: Str)
    ensures r != []
  {
    if x < 128 then [x as byte] else [(x % 128 + 128) as byte] + Uvarint(x / 128)
  }

  /** The value at the front and how many bytes it took, when i bytes of it were read
      before. Ten bytes hold 64 bits, of which the tenth holds one. */
  function UvarintAt(b: Str, i: nat): (r: Option<(nat, nat)>)
    ensures r.Some? ==> 0 < r.value.1 <= |b|
  {
    if b == [] || i >= 10 then None
    else if b[0] < 128 then if i == 9 && b[0] > 1 then None else Some((b[0] as nat, 1))
    else
      var r := UvarintAt(b[1..], i + 1);
      if r.None? then None else Some((b[0] as nat - 128 + 128 * r.value.0, r.value.1 + 1))
  }

  /** One more than the largest value that fits when i bytes were read before. */
  function Limit(i: nat): nat
    requires i <= 9
    decreases 9 - i
  {
    if i == 9 then 2 else 128 * Limit(i + 1)
  }

  lemma LimitIs64()
    ensures Limit(0) == TWO64
  {
    assert Limit(8) == 256;
    assert Limit(6) == 256 * 16384;
    assert Limit(4) == 256 * 16384 * 16384;
    assert Limit(2) == 256 * 16384 * 16384 * 16384;
    assert Limit(0) == 256 * 16384 * 16384 * 16384 * 16384;
  }

  /** A value, read and removed from the front. */
  datatype Parsed<T> = Fail | Got(value: T, rest: Str)

  function ReadUvarint(b: Str): Parsed<nat> {
    var r := UvarintAt(b, 0);
    if r.None? then Fail else Got(r.value.0, b[r.value.1..])
  }

  lemma {:induction false} UvarintInverse(x: nat, i: nat, rest: Str)
    requires i <= 9 && x < Limit(i)
    ensures UvarintAt(Uvarint(x) + rest, i) == Some((x, |Uvarint(x)|))
    decreases x
  {
    var b := Uvarint(x) + rest;
    if x >= 128 {
      UvarintInverse(x / 128, i + 1, rest);
      assert b[1..] == Uvarint(x / 128) + rest;
    }
  }

  /** Reading undoes writing, for every 64-bit value, whatever follows. */
  lemma UvarintRoundTrip(x: nat, rest: Str)
    requires x < TWO64
    ensures ReadUvarint(Uvarint(x) + rest) == Got(x, rest)
  {
    LimitIs64();
    UvarintInverse(x, 0, rest);
    assert (Uvarint(x) + rest)[|Uvarint(x)|..] == rest;
  }

  lemma {:induction false} LimitAtLeast(i: nat)
    requires i < 9
    ensures Limit(i) >= 256
    decreases 9 - i
  {
    if i < 8 {
      LimitAtLeast(i + 1);
    }
  }

  /** What is read never exceeds 64 bits. */
  lemma {:induction false} UvarintFits(b: Str, i: nat)
    requires i <= 9 && UvarintAt(b, i).Some?
    ensures UvarintAt(b, i).value.0 < Limit(i)
    decreases |b|
  {
    if b[0] >= 128 {
      UvarintFits(b[1..], i + 1);
    } else if i < 9 {
      LimitAtLeast(i);
    }
  }

  method AppendUvarint(dst: Str, x: nat) returns (r: Str)
    ensures r == dst + Uvarint(x)
  {
    r := dst;
    var v := x;
    while v >= 128
      invariant r + Uvarint(v) == dst + Uvarint(x)
      decreases v
    {
      r := r + [(v % 128 + 128) as byte];
      v := v / 128;
    }
    r := r + [v as byte];
  }

  // ---- signed ----

  function Zigzag(x: int): nat {
    if x >= 0 then 2 * x else -2 * x - 1
  }

  function Unzigzag(u: nat): int {
    if u % 2 == 0 then u / 2 else -(u / 2) - 1
  }

  function Varint(x: int): Str {
    Uvarint(Zigzag(x))
  }

  function ReadVarint(b: Str): Parsed<int> {
    match ReadUvarint(b)
    case Fail => Fail
    case Got(u, rest) => Got(Unzigzag(u), rest)
  }

  lemma VarintRoundTrip(x: int, rest: Str)
    requires -TWO63 <= x < TWO63
    ensures ReadVarint(Varint(x) + rest) == Got(x, rest)
  {
    UvarintRoundTrip(Zigzag(x), rest);
  }
}
