/** 32-bit sequence numbers and their 64-bit absolute counterparts. */
module WrappingIntegers {
  import opened Numbers

  /** Absolute position to 32-bit sequence number. */
  function Wrap(n: nat, isn: u32): u32 {
    (isn + n) % TWO32
  }

  /** The preimage of `n` that lies in the same 2^32 block as the checkpoint. */
  function SameBlock(n: u32, isn: u32, checkpoint: nat): nat {
    checkpoint - checkpoint % TWO32 + (n - isn) % TWO32
  }

  /** 32-bit sequence number to absolute position, with the 64-bit wrap-around of the original. */
  function Unwrap(n: u32, isn: u32, checkpoint: nat): nat {
    var ret := SameBlock(n, isn, checkpoint);
    if ret > checkpoint then
      if ret > 0xffff_ffff && ret - checkpoint > (checkpoint - ret + TWO32) % TWO64
      then ret - TWO32
      else ret
    else
      if checkpoint - ret > (ret + TWO32 - checkpoint) % TWO64
      then (ret + TWO32) % TWO64
      else ret
  }

  /** The one family of inputs where adding 2^32 leaves the 64-bit range. */
  predicate OverflowsTop(n: u32, isn: u32, checkpoint: nat) {
    checkpoint >= TWO64 - TWO32 && checkpoint - SameBlock(n, isn, checkpoint) > TWO31
  }

  /** No 64-bit preimage of `n` is strictly closer to the checkpoint than `v`. */
  ghost predicate IsNearest(v: nat, n: u32, isn: u32, checkpoint: nat) {
    forall w: nat :: w < TWO64 && Wrap(w, isn) == n ==> Distance(v, checkpoint) <= Distance(w, checkpoint)
  }

  /** Two preimages of the same number are a whole number of blocks apart. */
  lemma PreimagesAreBlocksApart(v: nat, w: nat, isn: u32) returns (k: int)
    requires Wrap(v, isn) == Wrap(w, isn)
    ensures w == v + k * TWO32
  {
    k := (isn + w) / TWO32 - (isn + v) / TWO32;
  }

  lemma ShiftByBlock(v: nat, isn: u32)
    ensures Wrap(v + TWO32, isn) == Wrap(v, isn)
  {
  }

  lemma SameBlockIsPreimage(n: u32, isn: u32, checkpoint: nat)
    ensures Wrap(SameBlock(n, isn, checkpoint), isn) == n
  {
    assert (n - isn) % TWO32 == if n >= isn then n - isn else n - isn + TWO32;
    assert checkpoint - checkpoint % TWO32 == checkpoint / TWO32 * TWO32;
  }

  lemma UnwrapIsPreimage(n: u32, isn: u32, checkpoint: nat)
    requires checkpoint < TWO64
    ensures Unwrap(n, isn, checkpoint) < TWO64
    ensures Wrap(Unwrap(n, isn, checkpoint), isn) == n
  {
    var v := Unwrap(n, isn, checkpoint);
    var ret := SameBlock(n, isn, checkpoint);
    SameBlockIsPreimage(n, isn, checkpoint);
    UnwrapChoices(n, isn, checkpoint);
    if v == ret + TWO32 {
      ShiftByBlock(ret, isn);
    } else if v + TWO32 == ret {
      ShiftByBlock(v, isn);
    } else if v != ret {
      assert Wrap(v, isn) == Wrap(v + TWO64, isn);
      ShiftByBlock(ret, isn);
    }
  }

  /** The result is the preimage in the checkpoint's block, or one block away from it. */
  lemma UnwrapChoices(n: u32, isn: u32, checkpoint: nat)
    requires checkpoint < TWO64
    ensures var v, ret := Unwrap(n, isn, checkpoint), SameBlock(n, isn, checkpoint);
      && ret < TWO64 && Distance(ret, checkpoint) < TWO32
      && (checkpoint >= TWO64 - TWO32 ==> ret >= TWO64 - TWO32)
      && v == (if ret > checkpoint && ret >= TWO32 && ret - checkpoint > TWO31 then ret - TWO32
               else if ret + TWO31 < checkpoint then
                 if ret + TWO32 < TWO64 then ret + TWO32 else ret + TWO32 - TWO64
               else ret)
  {
    var ret := SameBlock(n, isn, checkpoint);
    assert ret <= checkpoint - checkpoint % TWO32 + TWO32 - 1;
    assert checkpoint >= TWO64 - TWO32 ==> checkpoint % TWO32 == checkpoint - (TWO64 - TWO32);
    assert ret > checkpoint ==> (checkpoint - ret + TWO32) % TWO64 == checkpoint - ret + TWO32;
    assert ret <= checkpoint ==> (ret + TWO32 - checkpoint) % TWO64 == ret + TWO32 - checkpoint;
  }

  /** A position at most half a block away from the checkpoint has no closer preimage. */
  lemma HalfBlockIsNearest(v: nat, n: u32, isn: u32, checkpoint: nat)
    requires Wrap(v, isn) == n && (Distance(v, checkpoint) <= TWO31 || checkpoint < v < TWO32)
    ensures IsNearest(v, n, isn, checkpoint)
  {
    forall w: nat | w < TWO64 && Wrap(w, isn) == n
      ensures Distance(v, checkpoint) <= Distance(w, checkpoint)
    {
      var k := PreimagesAreBlocksApart(v, w, isn);
      assert k == 0 || w >= v + TWO32 || w <= v - TWO32;
    }
  }

  /** `unwrap` returns a nearest preimage exactly when it does not overflow the top block. */
  lemma UnwrapIsNearest(n: u32, isn: u32, checkpoint: nat)
    requires checkpoint < TWO64
    ensures IsNearest(Unwrap(n, isn, checkpoint), n, isn, checkpoint) <==> !OverflowsTop(n, isn, checkpoint)
  {
    hide Unwrap;
    hide SameBlock;
    hide Wrap;
    UnwrapChoices(n, isn, checkpoint);
    if OverflowsTop(n, isn, checkpoint) {
      SameBlockIsPreimage(n, isn, checkpoint);
    } else {
      UnwrapIsPreimage(n, isn, checkpoint);
      HalfBlockIsNearest(Unwrap(n, isn, checkpoint), n, isn, checkpoint);
    }
  }

  /** At the very top the result wraps around to zero, though a preimage lies less than 2^32 below. */
  lemma UnwrapOverflows()
    ensures Unwrap(0, 0, TWO64 - 1) == 0
    ensures Wrap(TWO64 - TWO32, 0) == 0 && Distance(TWO64 - TWO32, TWO64 - 1) < TWO32
    ensures !IsNearest(Unwrap(0, 0, TWO64 - 1), 0, 0, TWO64 - 1)
  {
    assert SameBlock(0, 0, TWO64 - 1) == TWO64 - TWO32;
    UnwrapIsNearest(0, 0, TWO64 - 1);
  }

  /**
   * When `unwrap` gives back the position that was wrapped: less than 2^31 from the checkpoint;
   * exactly 2^31 from it in the same block; beyond it in the lowest block, below which there is no
   * other preimage; or in the lowest block where the top one overflows into it.
   */
  predicate Recovered(v: nat, isn: u32, checkpoint: nat) {
    || Distance(v, checkpoint) < TWO31
    || (Distance(v, checkpoint) == TWO31 && v / TWO32 == checkpoint / TWO32)
    || checkpoint < v < TWO32
    || (v < TWO32 && OverflowsTop(Wrap(v, isn), isn, checkpoint))
  }

  /** `unwrap` inverts `wrap` exactly there. */
  lemma UnwrapInvertsExactly(v: nat, isn: u32, checkpoint: nat)
    requires v < TWO64 && checkpoint < TWO64
    ensures Unwrap(Wrap(v, isn), isn, checkpoint) == v <==> Recovered(v, isn, checkpoint)
  {
    hide Unwrap;
    hide SameBlock;
    hide Wrap;
    var n := Wrap(v, isn);
    UnwrapChoices(n, isn, checkpoint);
    SameBlockIsPreimage(n, isn, checkpoint);
    BlockOf(v, isn, checkpoint);
  }

  /** The preimage in the checkpoint's block differs from the position by the blocks between the two. */
  lemma BlockOf(v: nat, isn: u32, checkpoint: nat)
    ensures SameBlock(Wrap(v, isn), isn, checkpoint) == v + (checkpoint / TWO32 - v / TWO32) * TWO32
  {
    assert (Wrap(v, isn) - isn) % TWO32 == v % TWO32;
  }

  /** `unwrap` inverts `wrap` for every position less than 2^31 away from the checkpoint. */
  lemma UnwrapInvertsWrap(v: nat, isn: u32, checkpoint: nat)
    requires v < TWO64 && checkpoint < TWO64
    requires Distance(v, checkpoint) < TWO31
    ensures Unwrap(Wrap(v, isn), isn, checkpoint) == v
  {
    hide Unwrap;
    hide Wrap;
    UnwrapInvertsExactly(v, isn, checkpoint);
  }

  lemma UnwrapAtCheckpoint(v: nat, isn: u32)
    ensures Unwrap(Wrap(v, isn), isn, v) == v
  {
    assert (Wrap(v, isn) - isn) % TWO32 == v % TWO32;
  }

  /** At distance 2^31 the round trip can fail: there are two nearest preimages. */
  lemma UnwrapTie()
    ensures Unwrap(Wrap(TWO32, 0), 0, TWO31) == 0
    ensures Distance(TWO32, TWO31) == Distance(0, TWO31) == TWO31
  {
    assert Wrap(TWO32, 0) == 0;
  }
}
