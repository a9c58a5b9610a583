/** The per-segment bitmap of offsets a key merge decided to remove: one bit per
    offset of the segment's extent, packed in 64-bit words, with a running count
    of the bits set. */
module DropSets {

  newtype uint64 = x: int | 0 <= x < 0x1_0000_0000_0000_0000

  /** Bit `b` of a word's binary expansion: `w & (1 << b) != 0`. */
  predicate Bit(w: nat, b: nat)
    decreases b
  {
    if b == 0 then w % 2 == 1 else Bit(w / 2, b - 1)
  }

  /** `w | (1 << b)`. */
  function WithBit(w: nat, b: nat): nat
    decreases b
  {
    if b == 0 then w + 1 - w % 2 else 2 * WithBit(w / 2, b - 1) + w % 2
  }

  function Pow2(n: nat): nat {
    if n == 0 then 1 else 2 * Pow2(n - 1)
  }

  /** Setting one bit of a word leaves every other bit alone. */
  lemma {:induction false} SettingOneBit(w: nat, b: nat, c: nat)
    ensures Bit(WithBit(w, b), c) <==> (b == c || Bit(w, c))
    decreases b
  {
    if b > 0 && c > 0 {
      SettingOneBit(w / 2, b - 1, c - 1);
    }
  }

  /** A word with room for bit `b` still fits after it is set. */
  lemma {:induction false} WordStaysInRange(w: nat, b: nat, n: nat)
    requires w < Pow2(n) && b < n
    ensures WithBit(w, b) < Pow2(n)
    decreases b
  {
    assert Pow2(n) == 2 * Pow2(n - 1);
    if b > 0 {
      assert w / 2 < Pow2(n - 1);
      WordStaysInRange(w / 2, b - 1, n - 1);
    }
  }

  lemma {:induction false} ZeroWord(b: nat)
    ensures !Bit(0, b)
    decreases b
  {
    if b > 0 {
      ZeroWord(b - 1);
    }
  }

  lemma {:induction false} Pow2Sum(m: nat, n: nat)
    ensures Pow2(m + n) == Pow2(m) * Pow2(n)
  {
    if m > 0 {
      Pow2Sum(m - 1, n);
    }
  }

  lemma WordSize()
    ensures Pow2(64) == 0x1_0000_0000_0000_0000
  {
    assert Pow2(8) == 0x100;
    Pow2Sum(8, 8);
    Pow2Sum(16, 16);
    Pow2Sum(32, 32);
  }

  /** `bits[w] |= 1 << b` on one 64-bit word. */
  function OrBit(w: uint64, b: nat): uint64
    requires b < 64
  {
    WordSize();
    WordStaysInRange(w as nat, b, 64);
    WithBit(w as nat, b) as uint64
  }

  class DropSet {
    const base: int
    var bits: seq<uint64>
    var count: nat
    /** The offsets set so far. */
    ghost var marks: set<int>

    ghost predicate Valid()
      reads this
    {
      && count == |marks|
      && forall off :: off in marks <==> InBits(base, bits, off)
    }

    static predicate InBits(base: int, bits: seq<uint64>, off: int) {
      var i := off - base;
      0 <= i < |bits| * 64 && Bit(bits[i / 64] as nat, i % 64)
    }

    /** Empty, with room for every offset of [base, next). */
    constructor (base: int, next: int)
      ensures Valid() && marks == {} && this.base == base
      ensures next - base <= |bits| * 64
    {
      var n := if next - base < 0 then 0 else next - base;
      this.base := base;
      bits := seq((n + 63) / 64, _ => 0);
      count := 0;
      marks := {};
      new;
      forall off
        ensures !InBits(base, bits, off)
      {
        if 0 <= off - base < |bits| * 64 {
          ZeroWord((off - base) % 64);
        }
      }
    }

    /** Offsets outside the extent are ignored, and setting a bit twice counts once. */
    method Set(off: int)
      requires Valid()
      modifies this
      ensures Valid() && |bits| == old(|bits|)
      ensures marks == old(marks) + (if 0 <= off - base < |bits| * 64 then {off} else {})
      ensures count == old(count) + (if 0 <= off - base < |bits| * 64 && off !in old(marks) then 1 else 0)
    {
      var i := off - base;
      if i < 0 || i >= |bits| * 64 {
        return;
      }
      var w, b := i / 64, i % 64;
      if !Bit(bits[w] as nat, b) {
        ghost var before := bits;
        bits := bits[w := OrBit(bits[w], b)];
        count := count + 1;
        forall o
          ensures InBits(base, bits, o) <==> o == off || InBits(base, before, o)
        {
          var k := o - base;
          if 0 <= k < |bits| * 64 && k / 64 == w {
            SettingOneBit(before[w] as nat, b, k % 64);
          }
        }
        marks := marks + {off};
      }
    }

    predicate Get(off: int)
      requires Valid()
      reads this
      ensures Get(off) <==> off in marks
    {
      InBits(base, bits, off)
    }
  }
}
