/** The Internet checksum: a sum of 16-bit words, folded to 16 bits and complemented. */
module Checksums {
  import opened Numbers

  /** The sum of the bytes as 16-bit words; the first one is a low byte if `odd`. */
  function ByteSum(data: seq<byte>, odd: bool): nat {
    if data == [] then 0 else (if odd then data[0] else data[0] * 256) + ByteSum(data[1..], !odd)
  }

  /** Whether the byte after `data` is a low byte. */
  function ParityAfter(data: seq<byte>, odd: bool): bool {
    odd != (|data| % 2 == 1)
  }

  function Fold(x: nat): u16
    decreases x
  {
    if x > 0xffff then Fold(x / TWO16 + x % TWO16) else x
  }

  /** The checksum that belongs to a sum. */
  function Complement(sum: nat): u16 {
    0xffff - Fold(sum)
  }

  class InternetChecksum {
    var sum: u32
    var parity: bool

    constructor (initialSum: u32)
      ensures sum == initialSum && !parity
    {
      sum, parity := initialSum, false;
    }

    /** Adds up in 32 bits. */
    method Add(data: seq<byte>)
      modifies this
      ensures sum == (old(sum) + ByteSum(data, old(parity))) % TWO32
      ensures parity == ParityAfter(data, old(parity))
    {
      hide ByteSum;
      SumOfNothing(parity);
      assert data[..0] == [];
      for i := 0 to |data|
        invariant sum == (old(sum) + ByteSum(data[..i], old(parity))) % TWO32
        invariant parity == ParityAfter(data[..i], old(parity))
      {
        SumSnoc(data[..i], data[i], old(parity));
        assert data[..i + 1] == data[..i] + [data[i]];
        var val: u16 := data[i];
        if !parity {
          val := val * 256;
        }
        AddThenWrap(old(sum) + ByteSum(data[..i], old(parity)), val);
        sum := (sum + val) % TWO32;
        parity := !parity;
      }
      assert data[..|data|] == data;
    }

    method Value() returns (v: u16)
      ensures v == Complement(sum)
    {
      var ret: nat := sum;
      while ret > 0xffff
        invariant Fold(ret) == Fold(sum)
        decreases ret
      {
        ret := ret / TWO16 + ret % TWO16;
      }
      v := 0xffff - ret;
    }
  }

  lemma SumOfNothing(odd: bool)
    ensures ByteSum([], odd) == 0
  {
  }

  /** Adding bytes in pieces is adding them at once. */
  lemma {:induction false} SumConcat(a: seq<byte>, b: seq<byte>, odd: bool)
    ensures ByteSum(a + b, odd) == ByteSum(a, odd) + ByteSum(b, ParityAfter(a, odd))
  {
    if a == [] {
      assert a + b == b;
    } else {
      assert (a + b)[1..] == a[1..] + b;
      SumConcat(a[1..], b, !odd);
    }
  }

  lemma SumSnoc(a: seq<byte>, x: byte, odd: bool)
    ensures ByteSum(a + [x], odd) == ByteSum(a, odd) + if ParityAfter(a, odd) then x else x * 256
  {
    SumConcat(a, [x], odd);
  }

  /** Up to 65535 bytes on top of a pseudo-header sum never overflow 32 bits. */
  lemma {:induction false} SumBound(data: seq<byte>, odd: bool)
    ensures ByteSum(data, odd) <= 65280 * |data|
  {
    if data == [] {
    } else {
      SumBound(data[1..], !odd);
    }
  }

  /** Folding keeps the sum modulo 65535, and only nothing folds to zero. */
  lemma {:induction false} FoldKeepsRemainder(x: nat)
    ensures Fold(x) % 65535 == x % 65535
    ensures Fold(x) == 0 <==> x == 0
    ensures Fold(x) <= x
    decreases x
  {
    if x > 0xffff {
      FoldKeepsRemainder(x / TWO16 + x % TWO16);
      RemainderOfMultiple(x / TWO16, x / TWO16 + x % TWO16);
    }
  }

  lemma RemainderOfMultiple(q: nat, y: nat)
    ensures (65535 * q + y) % 65535 == y % 65535
  {
  }

  /** A received sum is accepted, with checksum zero, exactly if it is a positive multiple of 65535. */
  lemma AcceptedSums(sum: nat)
    ensures Complement(sum) == 0 <==> sum > 0 && sum % 65535 == 0
  {
    FoldKeepsRemainder(sum);
  }

  /** Adding the checksum of a sum makes it an accepted one. */
  lemma ChecksumCompletes(sum: nat)
    ensures Complement(sum + Complement(sum)) == 0
  {
    hide Fold;
    FoldKeepsRemainder(sum);
    AcceptedSums(sum + Complement(sum));
    assert (sum + 65535 - Fold(sum)) % 65535 == 0;
  }

  /** A changed byte changes the sum by less than 65535, but by something. */
  lemma {:induction false} SumChange(data: seq<byte>, k: nat, b: byte, odd: bool)
    requires k < |data|
    ensures ByteSum(data[k := b], odd) - ByteSum(data, odd)
         == (b - data[k]) * if ParityAfter(data[..k], odd) then 1 else 256
  {
    assert data == data[..k] + ([data[k]] + data[k + 1..]);
    assert data[k := b] == data[..k] + ([b] + data[k + 1..]);
    SumConcat(data[..k], [data[k]] + data[k + 1..], odd);
    SumConcat(data[..k], [b] + data[k + 1..], odd);
    SumConcat([data[k]], data[k + 1..], ParityAfter(data[..k], odd));
    SumConcat([b], data[k + 1..], ParityAfter(data[..k], odd));
  }

  /** No change of a single byte goes unnoticed, as long as the sum cannot leave its 32 bits. */
  lemma SingleByteErrorIsDetected(data: seq<byte>, k: nat, b: byte, initial: nat)
    requires k < |data| && b != data[k] && initial + 65280 * |data| < TWO32
    requires Complement((initial + ByteSum(data, false)) % TWO32) == 0
    ensures Complement((initial + ByteSum(data[k := b], false)) % TWO32) != 0
  {
    hide Fold;
    hide ByteSum;
    SumBound(data, false);
    SumBound(data[k := b], false);
    SumChange(data, k, b, false);
    AcceptedSums(initial + ByteSum(data, false));
    AcceptedSums(initial + ByteSum(data[k := b], false));
    SmallShift(initial + ByteSum(data, false), initial + ByteSum(data[k := b], false));
  }

  lemma SmallShift(x: nat, y: nat)
    requires x != y && -65535 < y - x < 65535
    ensures !(x % 65535 == 0 && y % 65535 == 0)
  {
  }
}
