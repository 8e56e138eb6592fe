/** cBitStream of libvdr-tools. */
module BitStream {

  function Pow2(n: nat): (p: nat)
    ensures p > 0
  {
    if n == 0 then 1 else 2 * Pow2(n - 1)
  }

  lemma {:induction false} Pow2Sum(a: nat, b: nat)
    ensures Pow2(a + b) == Pow2(a) * Pow2(b)
  {
    if a > 0 {
      Pow2Sum(a - 1, b);
    }
  }

  /** Bit k of a byte string, the most significant bit of a byte first. */
  function DataBit(data: seq<bv8>, k: nat): nat
    requires k < 8 * |data|
  {
    ByteBit(data[k / 8], 7 - k % 8)
  }

  /** (b >> j) & 1 */
  function ByteBit(b: bv8, j: nat): (r: nat)
    requires j < 8
    ensures r <= 1
  {
    ((b >> j) & 1) as int
  }

  predicate HasBit(r: nat, n: nat)
    decreases n
  {
    if n == 0 then r % 2 == 1 else HasBit(r / 2, n - 1)
  }

  /** r | bit << n, as a number. */
  function OrBit(r: nat, bit: nat, n: nat): nat
    requires bit <= 1
  {
    if bit == 1 && !HasBit(r, n) then r + Pow2(n) else r
  }

  // --- reading, as a function of the position -------------------------------

  /** GetBit: past the end every bit is 1 and the position stays. */
  function BitAt(data: seq<bv8>, length: int, index: nat): (r: nat)
    requires length <= 8 * |data|
    ensures r <= 1
  {
    if index >= length then 1 else DataBit(data, index)
  }

  function Advance(length: int, index: nat, n: nat): nat {
    if index >= length then index else if index + n <= length then index + n else length
  }

  /** The number that the next n bits spell. */
  function BitsAt(data: seq<bv8>, length: int, index: nat, n: nat): (r: nat)
    requires length <= 8 * |data|
    ensures r < Pow2(n)
    decreases n
  {
    if n == 0 then 0
    else BitAt(data, length, index) * Pow2(n - 1) + BitsAt(data, length, Advance(length, index, 1), n - 1)
  }

  lemma BitsNext(data: seq<bv8>, length: int, index: nat, n: nat)
    requires length <= 8 * |data| && n > 0
    ensures BitsAt(data, length, index, n) ==
            BitAt(data, length, index) * Pow2(n - 1) + BitsAt(data, length, Advance(length, index, 1), n - 1)
  {
  }

  lemma AdvanceCompose(length: int, index: nat, a: nat, b: nat)
    ensures Advance(length, index, a + b) == Advance(length, Advance(length, index, a), b)
  {
  }

  /** Reading moves on by as many bits as there are, up to the number asked for, and never from the end or behind it. */
  lemma AdvanceMeaning(length: int, index: nat, n: nat)
    ensures var next := Advance(length, index, n);
            && index <= next <= index + n
            && (index >= length ==> next == index) && (index < length ==> next <= length)
            && (next < index + n ==> next >= length)
  {
  }

  lemma Combine(bit: nat, p: nat, q: nat, x: nat, y: nat, pq: nat, xy: nat)
    requires pq == p * q && xy == x * q + y
    ensures bit * pq + xy == (bit * p + x) * q + y
  {
  }

  lemma ComposeStep(data: seq<bv8>, length: int, index: nat, a: nat, b: nat)
    requires length <= 8 * |data| && a > 0
    requires var next := Advance(length, index, 1);
             BitsAt(data, length, next, a - 1 + b) ==
             BitsAt(data, length, next, a - 1) * Pow2(b) + BitsAt(data, length, Advance(length, next, a - 1), b)
    ensures BitsAt(data, length, index, a + b) ==
            BitsAt(data, length, index, a) * Pow2(b) + BitsAt(data, length, Advance(length, index, a), b)
  {
    hide BitsAt, BitAt, Pow2, Advance;
    var next, bit := Advance(length, index, 1), BitAt(data, length, index);
    BitsNext(data, length, index, a + b);
    BitsNext(data, length, index, a);
    AdvanceCompose(length, index, 1, a - 1);
    Pow2Sum(a - 1, b);
    Combine(bit, Pow2(a - 1), Pow2(b), BitsAt(data, length, next, a - 1),
            BitsAt(data, length, Advance(length, next, a - 1), b), Pow2(a + b - 1),
            BitsAt(data, length, next, a + b - 1));
  }

  /** Reading a + b bits is reading a bits and then b bits, also where the end of the data lies in between. */
  lemma {:induction false} ReadsCompose(data: seq<bv8>, length: int, index: nat, a: nat, b: nat)
    requires length <= 8 * |data|
    ensures BitsAt(data, length, index, a + b) ==
            BitsAt(data, length, index, a) * Pow2(b) + BitsAt(data, length, Advance(length, index, a), b)
    ensures Advance(length, index, a + b) == Advance(length, Advance(length, index, a), b)
    decreases a
  {
    AdvanceCompose(length, index, a, b);
    if a == 0 {
      NoBits(data, length, index);
    } else {
      hide BitsAt, Pow2, Advance;
      ReadsCompose(data, length, Advance(length, index, 1), a - 1, b);
      ComposeStep(data, length, index, a, b);
    }
  }

  lemma ByteFromBits(b: bv8)
    ensures ByteBit(b, 7) * 128 + ByteBit(b, 6) * 64 + ByteBit(b, 5) * 32 + ByteBit(b, 4) * 16
            + ByteBit(b, 3) * 8 + ByteBit(b, 2) * 4 + ByteBit(b, 1) * 2 + ByteBit(b, 0) == b as int
  {
  }

  /** Eight bits from a byte boundary inside the data are that byte. */
  lemma BitsOfByte(data: seq<bv8>, length: int, k: nat)
    requires length <= 8 * |data| && 8 * k + 8 <= length
    ensures BitsAt(data, length, 8 * k, 8) == data[k] as int
  {
    hide BitsAt, Pow2, ByteBit, BitAt;
    ByteFromBits(data[k]);
    Pow2Table();
    LowNibble(data, length, k);
    BitInByte(data, length, k, 0);
    BitInByte(data, length, k, 1);
    BitInByte(data, length, k, 2);
    BitInByte(data, length, k, 3);
  }

  lemma LowNibble(data: seq<bv8>, length: int, k: nat)
    requires length <= 8 * |data| && 8 * k + 8 <= length
    ensures BitsAt(data, length, 8 * k + 4, 4) ==
            ByteBit(data[k], 3) * 8 + ByteBit(data[k], 2) * 4 + ByteBit(data[k], 1) * 2 + ByteBit(data[k], 0)
  {
  }

  lemma BitInByte(data: seq<bv8>, length: int, k: nat, j: nat)
    requires length <= 8 * |data| && 8 * k + 8 <= length && j < 8
    ensures BitsAt(data, length, 8 * k + j, 8 - j) ==
            ByteBit(data[k], 7 - j) * Pow2(7 - j) + BitsAt(data, length, 8 * k + j + 1, 7 - j)
  {
    hide ByteBit, Pow2;
    assert (8 * k + j) / 8 == k && (8 * k + j) % 8 == j;
  }

  /** From the end of the data on only ones are read. */
  lemma {:induction false} BitsPastEnd(data: seq<bv8>, length: int, index: nat, n: nat)
    requires length <= 8 * |data| && index >= length
    ensures BitsAt(data, length, index, n) == Pow2(n) - 1
  {
    if n > 0 {
      BitsPastEnd(data, length, index, n - 1);
    }
  }

  /** Putting the next bit under a number whose low n + 1 bits are zero adds it. */
  lemma OrBitAdds(x: nat, bit: nat, n: nat)
    requires bit <= 1
    ensures OrBit(x * Pow2(n + 1), bit, n) == (x * 2 + bit) * Pow2(n)
  {
    LowBitClear(x, n);
    assert x * Pow2(n + 1) == (x * 2) * Pow2(n);
  }

  lemma {:induction false} LowBitClear(x: nat, n: nat)
    ensures !HasBit(x * Pow2(n + 1), n)
  {
    var y := x * Pow2(n);
    assert x * Pow2(n + 1) == 2 * y;
    if n > 0 {
      LowBitClear(x, n - 1);
    }
  }

  class BitStream {
    const data: seq<bv8>
    var length: int
    var index: nat

    ghost predicate Valid()
      reads this
    {
      length <= 8 * |data|
    }

    constructor (data: seq<bv8>, length: int)
      requires length <= 8 * |data|
      ensures Valid() && this.data == data && this.length == length && index == 0
    {
      this.data := data;
      this.length := length;
      index := 0;
    }

    method GetBit() returns (r: nat)
      requires Valid()
      modifies this`index
      ensures r == BitAt(data, length, old(index)) && index == Advance(length, old(index), 1)
    {
      if index >= length {
        return 1;
      }
      r := DataBit(data, index);
      index := index + 1;
    }

    method GetBits(n: nat) returns (r: nat)
      requires Valid() && n <= 32
      modifies this`index
      ensures r == BitsAt(data, length, old(index), n) < 0x1_0000_0000
      ensures index == Advance(length, old(index), n)
      ensures old(index) >= length ==> index == old(index) && r == Pow2(n) - 1
      ensures old(index) < length ==> index - old(index) <= n && index <= length
                                      && (index - old(index) < n ==> index == length)
    {
      hide Pow2, BitsAt, BitAt, OrBit, Advance;
      AdvanceMeaning(length, index, n);
      EndOfData(data, length, index, n);
      r := 0;
      var left := n;
      ghost var x := 0;
      NoBits(data, length, index);
      while left > 0
        invariant 0 <= left <= n && r == x * Pow2(left)
        invariant x == BitsAt(data, length, old(index), n - left) && index == Advance(length, old(index), n - left)
      {
        left := left - 1;
        ReadsCompose(data, length, old(index), n - left - 1, 1);
        OneBit(data, length, index);
        var bit := GetBit();
        OrBitAdds(x, bit, left);
        r, x := OrBit(r, bit, left), x * 2 + bit;
      }
      Pow2Small(n);
    }

    method SkipBits(n: nat)
      modifies this`index
      ensures index == old(index) + n
    {
      index := index + n;
    }

    method ByteAlign()
      modifies this`index
      ensures index % 8 == 0 && old(index) <= index
      ensures forall k: nat :: old(index) <= k && k % 8 == 0 ==> index <= k
    {
      var n := index % 8;
      if n > 0 {
        SkipBits(8 - n);
      }
    }

    method WordAlign()
      modifies this`index
      ensures index % 16 == 0 && old(index) <= index
      ensures forall k: nat :: old(index) <= k && k % 16 == 0 ==> index <= k
    {
      var n := index % 16;
      if n > 0 {
        SkipBits(16 - n);
      }
    }

    /** A stream can be shortened only. */
    method SetLength(newLength: int) returns (ok: bool)
      requires Valid()
      modifies this`length
      ensures Valid() && ok == (newLength <= old(length))
      ensures length == if ok then newLength else old(length)
    {
      if newLength > length {
        return false;
      }
      length := newLength;
      return true;
    }
  }

  lemma EndOfData(data: seq<bv8>, length: int, index: nat, n: nat)
    requires length <= 8 * |data|
    ensures index >= length ==> BitsAt(data, length, index, n) == Pow2(n) - 1
  {
    if index >= length {
      BitsPastEnd(data, length, index, n);
    }
  }

  lemma NoBits(data: seq<bv8>, length: int, index: nat)
    requires length <= 8 * |data|
    ensures BitsAt(data, length, index, 0) == 0 && Advance(length, index, 0) == index
  {
  }

  lemma OneBit(data: seq<bv8>, length: int, index: nat)
    requires length <= 8 * |data|
    ensures BitsAt(data, length, index, 1) == BitAt(data, length, index) && Pow2(1) == 2 && Pow2(0) == 1
  {
  }

  lemma {:induction false} Pow2Monotone(n: nat, m: nat)
    requires n <= m
    ensures Pow2(n) <= Pow2(m)
  {
    if n < m {
      Pow2Monotone(n, m - 1);
    }
  }

  lemma Pow2Table()
    ensures Pow2(0) == 1 && Pow2(1) == 2 && Pow2(2) == 4 && Pow2(3) == 8
    ensures Pow2(4) == 16 && Pow2(5) == 32 && Pow2(6) == 64 && Pow2(7) == 128
  {
  }

  lemma Pow2Small(n: nat)
    requires n <= 32
    ensures Pow2(n) <= 0x1_0000_0000 && Pow2(0) == 1
  {
    Pow2Monotone(n, 32);
    Pow2Table();
    hide Pow2;
    Pow2Sum(4, 4);
    Pow2Sum(8, 8);
    Pow2Sum(16, 16);
  }
}
