/** The feature bits of an HDMI Forum block, one by one, and the bytes by which blocks are known. */
module FeatureBits {
  import opened Bytes
  import opened DataBlocks
  import opened Passes
  import opened Parsers
  import opened FilterLists

  /** The value of every bit, by its weight. */
  lemma EveryBit(b: byte, x: seq<int>)
    requires IsBits(b, x)
    ensures HasBit(b, 1) == (x[0] == 1) && HasBit(b, 2) == (x[1] == 1) && HasBit(b, 4) == (x[2] == 1)
    ensures HasBit(b, 8) == (x[3] == 1) && HasBit(b, 16) == (x[4] == 1) && HasBit(b, 32) == (x[5] == 1)
    ensures HasBit(b, 64) == (x[6] == 1) && HasBit(b, 128) == (x[7] == 1)
  {
    hide HasBit;
    HasBits(b, x);
    OtherBits(b, x);
  }

  lemma OtherBits(b: byte, x: seq<int>)
    requires IsBits(b, x)
    ensures HasBit(b, 1) == (x[0] == 1) && HasBit(b, 4) == (x[2] == 1)
    ensures HasBit(b, 16) == (x[4] == 1) && HasBit(b, 128) == (x[7] == 1)
  {
    assert b / 1 == x[0] + 2 * (x[1] + 2 * x[2] + 4 * x[3] + 8 * x[4] + 16 * x[5] + 32 * x[6] + 64 * x[7]);
    assert b / 4 == x[2] + 2 * (x[3] + 2 * x[4] + 4 * x[5] + 8 * x[6] + 16 * x[7]);
    assert b / 16 == x[4] + 2 * (x[5] + 2 * x[6] + 4 * x[7]);
    assert b / 128 == x[7];
  }

  /** Clearing a bit clears that one and keeps the seven others. */
  lemma OneBitCleared(b: byte, bit: nat)
    requires bit in {1, 3, 5, 6}
    ensures var r := ClearBit(b, bit);
      && HasBit(r, 1) == HasBit(b, 1) && HasBit(r, 4) == HasBit(b, 4)
      && HasBit(r, 16) == HasBit(b, 16) && HasBit(r, 128) == HasBit(b, 128)
  {
    hide HasBit, Bits;
    var x := Bits(b);
    var r := ClearBit(b, bit);
    HasBits(b, x);
    assert IsBits(r, x[bit := 0]);
    EveryBit(b, x);
    EveryBit(r, x[bit := 0]);
  }

  /** Bytes 7, 8 and 9 are all that changes. Of byte 7, weight 2 (ALLM) stays if the TX has ALLM, the weights 8,
      32 and 64 stay if it has VRR or the payload is too short for it, and the other four stay in any case;
      bytes 8 and 9 are zeroed in a payload long enough if the TX has no VRR. */
  lemma ClearedByteByByte(p: seq<byte>, allm: bool, vrr: bool)
    ensures var r := ClearFeatures(p, allm, vrr);
      && |r| == |p| && (|p| < 8 ==> r == p)
      && (forall i :: 0 <= i < |p| && i !in {7, 8, 9} ==> r[i] == p[i])
      && (|p| >= 8 ==>
            && (HasBit(r[7], 2) <==> allm && HasBit(p[7], 2))
            && (HasBit(r[7], 8) <==> (vrr || |p| < 10) && HasBit(p[7], 8))
            && (HasBit(r[7], 32) <==> (vrr || |p| < 10) && HasBit(p[7], 32))
            && (HasBit(r[7], 64) <==> (vrr || |p| < 10) && HasBit(p[7], 64))
            && HasBit(r[7], 1) == HasBit(p[7], 1) && HasBit(r[7], 4) == HasBit(p[7], 4)
            && HasBit(r[7], 16) == HasBit(p[7], 16) && HasBit(r[7], 128) == HasBit(p[7], 128))
      && (|p| == 9 ==> r[8] == p[8])
      && (|p| >= 10 ==> r[8] == (if vrr then p[8] else 0) && r[9] == if vrr then p[9] else 0)
  {
    hide HasBit, ClearBit;
    if |p| >= 8 {
      var b0 := p[7];
      var b1 := if allm then b0 else ClearBit(b0, 1);
      OneBitCleared(b0, 1);
      OneBitCleared(b1, 3);
      OneBitCleared(ClearBit(b1, 3), 5);
      OneBitCleared(ClearBit(ClearBit(b1, 3), 5), 6);
      assert Weight(1) == 2 && Weight(3) == 8 && Weight(5) == 32 && Weight(6) == 64;
      assert HasBit(b1, Weight(1)) <==> allm && HasBit(b0, Weight(1));
      assert forall k :: k in {3, 5, 6} ==> HasBit(b1, Weight(k)) == HasBit(b0, Weight(k));
    }
  }

  /** A byte is its bits, so that leaves no choice for byte 7. */
  lemma BitsDecide(b: byte, c: byte)
    requires HasBit(b, 1) == HasBit(c, 1) && HasBit(b, 2) == HasBit(c, 2) && HasBit(b, 4) == HasBit(c, 4)
    requires HasBit(b, 8) == HasBit(c, 8) && HasBit(b, 16) == HasBit(c, 16) && HasBit(b, 32) == HasBit(c, 32)
    requires HasBit(b, 64) == HasBit(c, 64) && HasBit(b, 128) == HasBit(c, 128)
    ensures b == c
  {
    hide HasBit, Bits;
    var x, y := Bits(b), Bits(c);
    EveryBit(b, x);
    EveryBit(c, y);
    SameBits(b, x, c, y);
  }

  lemma SameBits(b: byte, x: seq<int>, c: byte, y: seq<int>)
    requires IsBits(b, x) && IsBits(c, y)
    requires (x[0] == 1) == (y[0] == 1) && (x[1] == 1) == (y[1] == 1) && (x[2] == 1) == (y[2] == 1)
    requires (x[3] == 1) == (y[3] == 1) && (x[4] == 1) == (y[4] == 1) && (x[5] == 1) == (y[5] == 1)
    requires (x[6] == 1) == (y[6] == 1) && (x[7] == 1) == (y[7] == 1)
    ensures b == c
  {
    hide IsBits;
    BitRange(b, x);
    BitRange(c, y);
    assert x[0] == y[0] && x[1] == y[1] && x[2] == y[2] && x[3] == y[3];
    assert x[4] == y[4] && x[5] == y[5] && x[6] == y[6] && x[7] == y[7];
    assert x == y;
    SameSum(b, c, x);
  }

  lemma BitRange(b: byte, x: seq<int>)
    requires IsBits(b, x)
    ensures |x| == 8 && 0 <= x[0] <= 1 && 0 <= x[1] <= 1 && 0 <= x[2] <= 1 && 0 <= x[3] <= 1
    ensures 0 <= x[4] <= 1 && 0 <= x[5] <= 1 && 0 <= x[6] <= 1 && 0 <= x[7] <= 1
  {
  }

  lemma SameSum(b: byte, c: byte, x: seq<int>)
    requires IsBits(b, x) && IsBits(c, x)
    ensures b == c
  {
  }

  // ----- The bytes by which blocks are known -----

  /** The HDMI Forum vendor block (OUI C4-5D-D8, low byte first) and its form under the extended tag 0x79, with
      ALLM in bit 1 of byte 7, and a VRR range of 48 to 256 whose high bits lie in byte 8. */
  lemma ForumBlocks(allm: seq<byte>, vrr: seq<byte>)
    requires allm == [1, 0x78, 0, 0, 2] && vrr == [1, 0x78, 0, 0, 0, 0x70, 0]
    ensures var v, x := DataBlock(3, [0xd8, 0x5d, 0xc4] + allm), DataBlock(7, [0x79, 0, 0] + allm);
      Announces(v, Allm) && Announces(x, Allm) && !Announces(v, Vrr) && !Announces(x, Vrr)
    ensures var v, x := DataBlock(3, [0xd8, 0x5d, 0xc4] + vrr), DataBlock(7, [0x79, 0, 0] + vrr);
      Announces(v, Vrr) && Announces(x, Vrr) && !Announces(v, Allm) && !Announces(x, Allm)
    ensures !Announces(DataBlock(3, [0xc4, 0x5d, 0xd8] + allm), Allm)
  {
    assert ([0xd8, 0x5d, 0xc4] + allm)[..3] == [0xd8, 0x5d, 0xc4];
    assert ([0xd8, 0x5d, 0xc4] + vrr)[..3] == [0xd8, 0x5d, 0xc4];
    assert ([0xc4, 0x5d, 0xd8] + allm)[..3][0] == 0xc4;
  }

  /** A VRR range counts only with a lower and an upper end above zero, and in a payload of at least ten bytes. */
  lemma VrrRange(low: byte, high: byte)
    ensures Announces(DataBlock(3, [0xd8, 0x5d, 0xc4, 1, 0x78, 0, 0, 0, low, high]), Vrr)
       <==> low % 64 > 0 && (low >= 64 || high > 0)
    ensures !Announces(DataBlock(3, [0xd8, 0x5d, 0xc4, 1, 0x78, 0, 0, 0, low]), Vrr)
    ensures !Announces(DataBlock(3, [0xd8, 0x5d, 0xc4, 1, 0x78, 0, 0]), Allm)
  {
    var p := [0xd8, 0x5d, 0xc4, 1, 0x78, 0, 0, 0, low, high];
    assert p[..3] == [0xd8, 0x5d, 0xc4];
  }

  /** A descriptor names its VIC with or without the native bit, bit 7. */
  lemma NativeBit(v: byte)
    requires v < 128
    ensures Vic(v) == v && Vic(v + 128) == v
  {
  }

  /** Descriptors lie from the first payload byte of a video block on, and behind the extended tag 0x0E. */
  lemma DescriptorBytes(p: seq<byte>)
    requires 1 <= |p| <= 30
    ensures SvdsOf(false, DataBlock(2, p)) == p && SvdsOf(true, DataBlock(2, p)) == []
    ensures SvdsOf(true, DataBlock(7, [0x0e] + p)) == p && SvdsOf(false, DataBlock(7, [0x0e] + p)) == []
  {
    assert ([0x0e] + p)[1..] == p;
  }
}
