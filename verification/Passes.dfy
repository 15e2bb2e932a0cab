/** What each filter pass does to one data block, and the sweep that applies a pass to raw bytes.
    The sweep is total: it gives the result for arbitrary bytes, well formed or not. */
module Passes {
  import opened Bytes
  import opened DataBlocks
  import opened Timing

  datatype Pass =
    | VideoPass(caps: TxCaps)                       // FilterCeaVideoDataBlocks
    | FeaturePass(allm: bool, vrr: bool)            // FilterCeaHfScdb
    | VendorPass(oui0: byte, oui1: byte, oui2: byte) // RemoveCeaDataBlocksByOui

  /** The VIC a short video descriptor names. */
  function Vic(svd: byte): byte {
    svd % 128
  }

  function KeepVics(p: seq<byte>, caps: TxCaps): (r: seq<byte>)
    ensures |r| <= |p|
    ensures forall v :: v in r <==> v in p && caps.SupportsVic(Vic(v))
  {
    if p == [] then []
    else
      var v := p[|p| - 1];
      assert p == p[..|p| - 1] + [v];
      KeepVics(p[..|p| - 1], caps) + if caps.SupportsVic(Vic(v)) then [v] else []
  }

  lemma KeepVicsEmpty(caps: TxCaps)
    ensures KeepVics([], caps) == []
  {
  }

  lemma KeepVicsLast(p: seq<byte>, v: byte, caps: TxCaps)
    ensures KeepVics(p + [v], caps) == if caps.SupportsVic(Vic(v)) then KeepVics(p, caps) + [v] else KeepVics(p, caps)
  {
    assert (p + [v])[..|p + [v]| - 1] == p;
  }

  predicate IsYcbcr420(b: DataBlock) {
    b.tag == 7 && |b.payload| >= 2 && b.payload[0] == 0x0e
  }

  predicate IsHdmiForum(b: DataBlock) {
    || (b.tag == 3 && |b.payload| >= 3 && b.payload[..3] == [0xd8, 0x5d, 0xc4])
    || (b.tag == 7 && |b.payload| >= 1 && b.payload[0] == 0x79)
  }

  predicate HasBit(b: byte, weight: nat)
    requires weight > 0
  {
    b / weight % 2 == 1
  }

  /** The eight bits of a byte, lowest first. */
  function Bits(b: byte): (x: seq<int>)
    ensures IsBits(b, x)
  {
    var q1 := b / 2;
    var q2 := q1 / 2;
    var q3 := q2 / 2;
    var q4 := q3 / 2;
    var q5 := q4 / 2;
    var q6 := q5 / 2;
    [b % 2, q1 % 2, q2 % 2, q3 % 2, q4 % 2, q5 % 2, q6 % 2, q6 / 2]
  }

  predicate IsBits(b: int, x: seq<int>) {
    && |x| == 8 && (forall i :: 0 <= i < 8 ==> 0 <= x[i] <= 1)
    && b == x[0] + 2 * x[1] + 4 * x[2] + 8 * x[3] + 16 * x[4] + 32 * x[5] + 64 * x[6] + 128 * x[7]
  }

  lemma HasBits(b: byte, x: seq<int>)
    requires IsBits(b, x)
    ensures HasBit(b, 2) == (x[1] == 1) && HasBit(b, 8) == (x[3] == 1)
    ensures HasBit(b, 32) == (x[5] == 1) && HasBit(b, 64) == (x[6] == 1)
  {
    assert b / 2 == x[1] + 2 * (x[2] + 2 * x[3] + 4 * x[4] + 8 * x[5] + 16 * x[6] + 32 * x[7]);
    assert b / 8 == x[3] + 2 * (x[4] + 2 * x[5] + 4 * x[6] + 8 * x[7]);
    assert b / 32 == x[5] + 2 * (x[6] + 2 * x[7]);
    assert b / 64 == x[6] + 2 * x[7];
  }

  /** The weights of the bits ALLM (1) and VRR (3, 5, 6). */
  function Weight(bit: nat): nat
    requires bit in {1, 3, 5, 6}
  {
    if bit == 1 then 2 else if bit == 3 then 8 else if bit == 5 then 32 else 64
  }

  /** b with one bit cleared; the other bits keep their values. */
  function ClearBit(b: byte, bit: nat): (r: byte)
    requires bit in {1, 3, 5, 6}
    ensures !HasBit(r, Weight(bit))
    ensures !HasBit(b, Weight(bit)) ==> r == b
    ensures forall k :: k in {1, 3, 5, 6} && k != bit ==> HasBit(r, Weight(k)) == HasBit(b, Weight(k))
  {
    hide Bits;
    var x := Bits(b);
    HasBits(b, x);
    var r := if x[bit] == 0 then b else b - Weight(bit);
    assert IsBits(r, x[bit := 0]);
    HasBits(r, x[bit := 0]);
    r
  }

  /** FilterHfScdbCapabilities on the payload of an HDMI Forum block. */
  function ClearFeatures(p: seq<byte>, allm: bool, vrr: bool): (r: seq<byte>)
    ensures |r| == |p|
  {
    var q := if |p| >= 8 && !allm then p[7 := ClearBit(p[7], 1)] else p;
    if |p| >= 10 && !vrr then
      q[7 := ClearBit(ClearBit(ClearBit(q[7], 3), 5), 6)][8 := 0][9 := 0]
    else q
  }

  /** A pass on one block; None when the pass removes it. */
  function Rewrite(p: Pass, b: DataBlock): (r: Option<DataBlock>)
    requires b.Valid()
    ensures r.Some? ==> r.value.Valid() && r.value.tag == b.tag && |r.value.payload| <= |b.payload|
  {
    match p
    case VideoPass(caps) =>
      if b.tag == 2 then
        var kept := KeepVics(b.payload, caps);
        if kept == [] then None else Some(DataBlock(2, kept))
      else if IsYcbcr420(b) then
        var kept := KeepVics(b.payload[1..], caps);
        if kept == [] then None else Some(DataBlock(7, [0x0e] + kept))
      else Some(b)
    case FeaturePass(allm, vrr) =>
      Some(if IsHdmiForum(b) then DataBlock(b.tag, ClearFeatures(b.payload, allm, vrr)) else b)
    case VendorPass(oui0, oui1, oui2) =>
      if b.tag == 3 && |b.payload| >= 3 && b.payload[..3] == [oui0, oui1, oui2] then None else Some(b)
  }

  /** The bytes a pass leaves of one block. */
  function Remains(p: Pass, b: DataBlock): (r: seq<byte>)
    requires b.Valid()
    ensures |r| <= 1 + |b.payload|
  {
    match Rewrite(p, b)
    case Some(c) => c.Encode()
    case None => []
  }

  /** The bytes from an offset up to 127 after a walker has run, and its `dtdStart`. */
  datatype Swept = Swept(bytes: seq<byte>, dtd: int)

  /** A removing walker from any offset: t are the bytes up to 127, limit is dataEnd minus the offset.
      What a block loses moves to the end of t as zeros. With dtd == 0 neither the offset nor
      dataEnd moves when a whole block goes; only the number of non-zero bytes falls. */
  function Sweep(p: Pass, t: seq<byte>, limit: int, dtd: int): (r: Swept)
    ensures |r.bytes| == |t|
    decreases NonZero(t)
  {
    if limit <= 0 || !Starts(t) then Swept(t, dtd)
    else
      var out := Remains(p, Head(t));
      var lost := 1 + Len(t[0]) - |out|;
      SweepDecreases(t, lost);
      var r := if dtd != 0
               then Sweep(p, Rest(t) + Zeros(lost), limit - 1 - Len(t[0]), dtd - lost)
               else Sweep(p, Rest(t) + Zeros(lost), limit - |out|, 0);
      Swept(out + r.bytes, r.dtd)
  }

  /** The termination measure: a round drops at least the non-zero header byte. */
  lemma SweepDecreases(t: seq<byte>, lost: nat)
    requires Starts(t)
    ensures NonZero(Rest(t) + Zeros(lost)) < NonZero(t)
  {
    var n := 1 + Len(t[0]);
    NonZeroAppend(Rest(t), Zeros(lost));
    NonZeroZeros(lost);
    NonZeroAppend(t[..n], Rest(t));
    assert t == t[..n] + Rest(t);
  }

  lemma SweepRound(p: Pass, t: seq<byte>, limit: int, dtd: int, lost: nat, limit': int, dtd': int)
    requires limit > 0 && Starts(t) && lost == 1 + Len(t[0]) - |Remains(p, Head(t))|
    requires dtd' == if dtd != 0 then dtd - lost else 0
    requires limit' == (if dtd != 0 then limit - lost else limit) - |Remains(p, Head(t))|
    ensures var r := Sweep(p, Rest(t) + Zeros(lost), limit', dtd');
      Sweep(p, t, limit, dtd) == Swept(Remains(p, Head(t)) + r.bytes, r.dtd)
  {
    hide Remains;
  }

  lemma SweepStops(p: Pass, t: seq<byte>, limit: int, dtd: int)
    requires limit <= 0 || !Starts(t)
    ensures Sweep(p, t, limit, dtd) == Swept(t, dtd)
  {
  }

  /** A pass over a whole extension block. */
  function SweepBlock(p: Pass, s: seq<byte>): (r: seq<byte>)
    requires |s| == 128
    ensures |r| == 128
    ensures r[..2] == s[..2] && r[3] == s[3] && r[127] == s[127]
  {
    if s[0] != 2 then s
    else
      var r := Sweep(p, s[4..127], DataEnd(s[2]) - 4, s[2]);
      s[..2] + [Byte(r.dtd), s[3]] + r.bytes + [s[127]]
  }

  /** The list meaning of a pass: each block rewritten, emptied ones dropped, order kept. */
  function RewriteAll(p: Pass, bs: seq<DataBlock>): (r: seq<DataBlock>)
    requires AllValid(bs)
    ensures AllValid(r) && |r| <= |bs|
  {
    if bs == [] then []
    else
      var tail := RewriteAll(p, bs[1..]);
      match Rewrite(p, bs[0])
      case Some(c) => [c] + tail
      case None => tail
  }

  lemma PrintRewriteAll(p: Pass, bs: seq<DataBlock>)
    requires AllValid(bs) && bs != []
    ensures Print(RewriteAll(p, bs)) == Remains(p, bs[0]) + Print(RewriteAll(p, bs[1..]))
  {
    if Rewrite(p, bs[0]).Some? {
      assert RewriteAll(p, bs)[1..] == RewriteAll(p, bs[1..]);
    }
  }

  /** One round of a sweep, at the byte form of a block. */
  lemma SweepHead(p: Pass, b: DataBlock, inner: seq<byte>, limit: int, dtd: int)
    requires b.Valid() && limit > 0 && dtd != 0
    ensures var lost := 1 + |b.payload| - |Remains(p, b)|;
      var r := Sweep(p, inner + Zeros(lost), limit - 1 - |b.payload|, dtd - lost);
      Sweep(p, b.Encode() + inner, limit, dtd) == Swept(Remains(p, b) + r.bytes, r.dtd)
  {
    hide Remains;
    StartsEncoded(b, inner);
  }

  /** The in-place sweep refines the list meaning: on the byte form of a list it leaves the byte form
      of the rewritten list, then everything behind it, then as many zeros as bytes were lost. */
  lemma {:induction false} SweepPrinted(p: Pass, bs: seq<DataBlock>, behind: seq<byte>, dtd: int)
    requires AllValid(bs) && dtd > |Print(bs)|
    ensures |Print(RewriteAll(p, bs))| <= |Print(bs)|
    ensures var out := Print(RewriteAll(p, bs));
      var lost := |Print(bs)| - |out|;
      Sweep(p, Print(bs) + behind, |Print(bs)|, dtd) == Swept(out + behind + Zeros(lost), dtd - lost)
    decreases |bs|
  {
    hide Sweep, RewriteAll, Remains, Zeros, Print;
    if bs == [] {
      SweepNothing(p, behind, dtd);
    } else {
      var b, tail := bs[0], bs[1..];
      var first := Remains(p, b);
      var lost := 1 + |b.payload| - |first|;
      PrintCons(bs);
      assert Print(bs) + behind == b.Encode() + (Print(tail) + behind);
      SweepHead(p, b, Print(tail) + behind, |Print(bs)|, dtd);
      assert Print(tail) + behind + Zeros(lost) == Print(tail) + (behind + Zeros(lost));
      SweepPrinted(p, tail, behind + Zeros(lost), dtd - lost);
      PrintRewriteAll(p, bs);
      var out := Print(RewriteAll(p, tail));
      Regroup(first, out, behind, lost, |Print(tail)| - |out|);
    }
  }

  lemma SweepNothing(p: Pass, behind: seq<byte>, dtd: int)
    ensures Print([]) == [] && Print(RewriteAll(p, [])) == []
    ensures Sweep(p, Print([]) + behind, 0, dtd) == Swept([] + behind + Zeros(0), dtd)
  {
    assert Print([]) + behind == behind == [] + behind + Zeros(0);
  }

  lemma Regroup(first: seq<byte>, out: seq<byte>, behind: seq<byte>, m: nat, n: nat)
    ensures first + (out + (behind + Zeros(m)) + Zeros(n)) == (first + out) + behind + Zeros(m + n)
  {
    ZerosAppend(m, n);
  }

  /** What a pass takes out of a list, in bytes. */
  function Lost(p: Pass, bs: seq<DataBlock>): (n: nat)
    requires AllValid(bs)
  {
    PrintShrinks(p, bs);
    |Print(bs)| - |Print(RewriteAll(p, bs))|
  }

  lemma {:induction false} PrintShrinks(p: Pass, bs: seq<DataBlock>)
    requires AllValid(bs)
    ensures |Print(RewriteAll(p, bs))| <= |Print(bs)|
  {
    if bs != [] {
      PrintRewriteAll(p, bs);
      PrintShrinks(p, bs[1..]);
    }
  }

  /** A pass over a well-formed extension is the pass over its block list, printed again: the bytes
      behind the collection move left by what was lost and zeros take their place. */
  lemma SweepBlockMeaning(p: Pass, s: seq<byte>)
    requires WellFormed(s)
    ensures var bs, behind := Blocks(s), s[s[2]..127];
      var r := SweepBlock(p, s);
      && |Print(RewriteAll(p, bs))| + |behind + Zeros(Lost(p, bs))| == 123
      && r[..127] == Layout(s[1], s[3], RewriteAll(p, bs), behind + Zeros(Lost(p, bs)))
      && WellFormed(r) && Blocks(r) == RewriteAll(p, bs) && r[127] == s[127]
      && r[1] == s[1] && r[3] == s[3] && r[r[2]..127] == behind + Zeros(Lost(p, bs))
  {
    hide SweepBlock, Print, RewriteAll, Blocks, Zeros, Layout, Lost;
    var bs, behind := Blocks(s), s[s[2]..127];
    SweptLayout(p, s, bs, behind);
    LayoutIsWellFormed(SweepBlock(p, s), s[1], s[3], RewriteAll(p, bs), behind + Zeros(Lost(p, bs)));
  }

  lemma SweptLayout(p: Pass, s: seq<byte>, bs: seq<DataBlock>, behind: seq<byte>)
    requires WellFormed(s) && bs == Blocks(s) && behind == s[s[2]..127]
    ensures |Print(RewriteAll(p, bs))| + |behind + Zeros(Lost(p, bs))| == 123
    ensures SweepBlock(p, s)[..127] == Layout(s[1], s[3], RewriteAll(p, bs), behind + Zeros(Lost(p, bs)))
  {
    hide Sweep, SweepBlock, Print, RewriteAll, Blocks, Zeros;
    assert s[4..127] == Print(bs) + behind;
    SweepPrinted(p, bs, behind, s[2]);
    var out, lost := Print(RewriteAll(p, bs)), Lost(p, bs);
    SweepBlockBytes(p, s, out + behind + Zeros(lost), lost);
    assert out + behind + Zeros(lost) == out + (behind + Zeros(lost));
  }

  lemma SweepBlockBytes(p: Pass, s: seq<byte>, bytes: seq<byte>, lost: nat)
    requires |s| == 128 && s[0] == 2 && 4 <= s[2] <= 127 && lost <= s[2] && |bytes| == 123
    requires Sweep(p, s[4..127], s[2] - 4, s[2]) == Swept(bytes, s[2] - lost)
    ensures SweepBlock(p, s)[..127] == [2, s[1], s[2] - lost, s[3]] + bytes
  {
    hide Sweep;
    assert s[..2] == [2, s[1]];
  }

  /** The same, offset by offset: byte 2 falls by what was lost, every later byte moves left by as much. */
  lemma SweepBlockConserves(p: Pass, s: seq<byte>)
    requires WellFormed(s)
    ensures var r, lost := SweepBlock(p, s), Lost(p, Blocks(s));
      && r[2] == s[2] - lost
      && r[0] == s[0] && r[1] == s[1] && r[3] == s[3] && r[127] == s[127]
      && (forall i :: s[2] <= i < 127 ==> r[i - lost] == s[i])
      && (forall i :: 127 - lost <= i < 127 ==> r[i] == 0)
  {
    hide SweepBlock, Print, RewriteAll, Blocks;
    SweepBlockMeaning(p, s);
    WellFormedIsLayout(s);
    var r, lost := SweepBlock(p, s), Lost(p, Blocks(s));
    var behind := s[s[2]..127];
    assert r[r[2]..127] == behind + Zeros(lost);
    LayoutIsWellFormed(r, s[1], s[3], RewriteAll(p, Blocks(s)), behind + Zeros(lost));
    forall i | s[2] <= i < 127 ensures r[i - lost] == s[i] {
      assert r[r[2]..127][i - s[2]] == behind[i - s[2]];
    }
    forall i | 127 - lost <= i < 127 ensures r[i] == 0 {
      assert r[r[2]..127][i - r[2]] == Zeros(lost)[i - (127 - lost)];
    }
  }
}
