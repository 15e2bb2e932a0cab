/** FilterEdidByTxCapabilities: the passes composed over a whole EDID. */
module EdidFilter {
  import opened Bytes
  import opened Timing
  import opened DataBlocks
  import opened Passes
  import opened CeaFilter
  import opened Parsers
  import opened FilterLists

  /** The three data-block passes over one extension. */
  function SweepExtension(s: seq<byte>, tx: Tx): (r: seq<byte>)
    requires |s| == 128
    ensures |r| == 128
  {
    var r := SweepBlock(tx.Feature(), SweepBlock(tx.Video(), s));
    if tx.vrr then r else SweepBlock(tx.Vendor(), r)
  }

  /** The timing descriptors of an extension, from the offset in byte 2 on. */
  function FilterTimings(s: seq<byte>, caps: TxCaps): (r: seq<byte>)
    requires |s| == 128
    ensures |r| == 128
  {
    if 4 <= s[2] < 127 then s[..s[2]] + FilterSlots(s[s[2]..127], caps) + s[127..] else s
  }

  function FilterExtension(s: seq<byte>, tx: Tx): (r: seq<byte>)
    requires |s| == 128
    ensures Sealed(r)
  {
    if s[0] != 2 then Seal(s) else Seal(FilterTimings(SweepExtension(s, tx), tx.caps))
  }

  function FilterBase(s: seq<byte>, caps: TxCaps): (r: seq<byte>)
    requires |s| == 128
    ensures Sealed(r)
  {
    Seal(s[..0x36] + FilterSlots(s[0x36..0x7E], caps) + s[0x7E..])
  }

  /** The first n extensions at the front of t that lie whole in the buffer. */
  function FilterExtensions(t: seq<byte>, n: nat, tx: Tx): (r: seq<byte>)
    ensures |r| == |t|
  {
    if n == 0 || |t| < 128 then t
    else FilterExtension(t[..128], tx) + FilterExtensions(t[128..], n - 1, tx)
  }

  function FilterEdid(e: seq<byte>, tx: Tx): (r: seq<byte>)
    requires |e| >= 128
    ensures |r| == |e|
  {
    FilterBase(e[..128], tx.caps) + FilterExtensions(e[128..], e[0x7E], tx)
  }

  lemma SumPrefix(s: seq<byte>, i: nat)
    requires i < |s|
    ensures Sum(s[..i + 1]) == Sum(s[..i]) + s[i]
  {
    assert s[..i + 1][..i] == s[..i];
  }

  method RecalculateEdidBlockChecksum(a: array<byte>, base: nat)
    requires base + 128 <= a.Length
    modifies a
    ensures a[..] == Splice(old(a[..]), base, Seal(old(a[..])[base..base + 128]))
  {
    hide Sum;
    ghost var e := a[..];
    ghost var s := e[base..base + 128];
    var checksum: byte := 0;
    SumNothing();
    for i := 0 to 127
      invariant checksum == Byte(Sum(s[..i]))
      invariant a[..] == e
    {
      SumPrefix(s, i);
      ByteAdds(Sum(s[..i]), s[i]);
      checksum := Byte(checksum + a[base + i]);
    }
    a[base + 127] := Byte(256 - checksum);
    SealStore(e, base);
  }

  lemma SumNothing()
    ensures Sum([]) == 0
  {
  }

  lemma ByteAdds(x: nat, b: byte)
    ensures Byte(Byte(x) + b) == Byte(x + b)
  {
  }

  lemma SealStore(e: seq<byte>, base: nat)
    requires base + 128 <= |e|
    ensures var s := e[base..base + 128];
      e[base + 127 := Byte(256 - Byte(Sum(s[..127])))] == Splice(e, base, Seal(s))
  {
    hide Sum;
  }

  lemma SpliceTwice(e: seq<byte>, base: nat, s: seq<byte>, t: seq<byte>)
    requires base + 128 <= |e| && |s| == |t| == 128
    ensures Splice(e, base, s)[base..base + 128] == s
    ensures Splice(Splice(e, base, s), base, t) == Splice(e, base, t)
    ensures Splice(e, base, e[base..base + 128]) == e
  {
  }

  lemma TimingsStore(e: seq<byte>, base: nat, caps: TxCaps)
    requires base + 128 <= |e| && 4 <= e[base + 2] < 127
    ensures var start, end := base + e[base + 2], base + 127;
      e[..start] + FilterSlots(e[start..end], caps) + e[end..]
        == Splice(e, base, FilterTimings(e[base..base + 128], caps))
  {
    hide FilterSlots;
    var s, d := e[base..base + 128], e[base + 2];
    SliceIn(e, base, base + 128, d, 127);
    SliceIn(e, base, base + 128, 0, d);
    assert s[127..] == [e[base + 127]];
    assert e[..base + d] == e[..base] + e[base..base + d];
    assert e[base + 127..] == [e[base + 127]] + e[base + 128..];
  }

  /** The loop body of FilterEdidByTxCapabilities for the extension at base. */
  method FilterExtensionAt(a: array<byte>, base: nat, tx: Tx)
    requires base + 128 <= a.Length
    modifies a
    ensures a[..] == Splice(old(a[..]), base, FilterExtension(old(a[..])[base..base + 128], tx))
  {
    hide SweepBlock, FilterTimings, FilterSlots, Seal, Splice;
    ghost var e := a[..];
    ghost var s := e[base..base + 128];
    assert s[0] == e[base];
    if a[base] != 2 {
      RecalculateEdidBlockChecksum(a, base);
      return;
    }
    ghost var s1 := SweepBlock(tx.Video(), s);
    ghost var s2 := SweepBlock(tx.Feature(), s1);
    ghost var s3 := SweepExtension(s, tx);
    SpliceTwice(e, base, s1, s2);
    SpliceTwice(e, base, s2, s3);
    FilterCeaVideoDataBlocks(a, base, tx.caps);
    FilterCeaHfScdb(a, base, tx.allm, tx.vrr);
    if !tx.vrr {
      RemoveCeaDataBlocksByOui(a, base, 0x1a, 0x00, 0x00);
    }
    assert a[..] == Splice(e, base, s3);
    FinishExtension(a, base, tx, e, s3);
  }

  method FinishExtension(a: array<byte>, base: nat, tx: Tx, ghost e: seq<byte>, ghost s3: seq<byte>)
    requires base + 128 <= a.Length == |e| && |s3| == 128
    requires a[..] == Splice(e, base, s3)
    modifies a
    ensures a[..] == Splice(e, base, Seal(FilterTimings(s3, tx.caps)))
  {
    hide FilterTimings, FilterSlots, Seal, Splice;
    ghost var x := a[..];
    ghost var s4 := FilterTimings(s3, tx.caps);
    SpliceTwice(e, base, s3, s4);
    SpliceTwice(e, base, s4, Seal(s4));
    assert x[base + 2] == x[base..base + 128][2];
    FilterTimingsOff(s3, tx.caps);
    var dtdStart := a[base + 2];
    if dtdStart >= 4 && dtdStart < 127 {
      TimingsStore(x, base, tx.caps);
      FilterDetailedTimings(a, base + dtdStart, base + 127, tx.caps);
    }
    assert a[..] == Splice(e, base, s4);
    RecalculateEdidBlockChecksum(a, base);
  }

  lemma FilterTimingsOff(s: seq<byte>, caps: TxCaps)
    requires |s| == 128
    ensures !(4 <= s[2] < 127) ==> FilterTimings(s, caps) == s
  {
  }

  lemma BaseStore(e: seq<byte>, caps: TxCaps)
    requires |e| >= 128
    ensures var x := e[..0x36] + FilterSlots(e[0x36..0x7E], caps) + e[0x7E..];
      |x| == |e| && x[0x7E] == e[0x7E]
      && Splice(x, 0, Seal(x[0..128])) == FilterBase(e[..128], caps) + e[128..]
  {
    hide FilterSlots, Seal;
    var x := e[..0x36] + FilterSlots(e[0x36..0x7E], caps) + e[0x7E..];
    var s := e[..128];
    assert s[0x36..0x7E] == e[0x36..0x7E];
    assert x[0..128] == s[..0x36] + FilterSlots(s[0x36..0x7E], caps) + s[0x7E..];
    assert x[128..] == e[128..];
  }

  /** What the TX EDID and the driver's mode list say. */
  function TxOf(edid: seq<byte>, modes: seq<Mode>): Tx
    requires |edid| >= 128
  {
    var n := edid[0x7E];
    Tx(TxCaps(EdidVics(edid, n), modes), EdidAnnounces(edid, n, Allm), EdidAnnounces(edid, n, Vrr))
  }

  lemma {:induction false} VicsAreSmall(bs: seq<DataBlock>)
    ensures forall v :: v in Vics(bs) ==> 0 <= v < 128
  {
    if bs != [] {
      VicsAreSmall(bs[1..]);
    }
  }

  lemma {:induction false} EdidVicsAreSmall(e: seq<byte>, n: nat)
    ensures forall v :: v in EdidVics(e, n) ==> 0 <= v < 128
  {
    hide Vics, Blocks, Block;
    if n != 0 {
      EdidVicsAreSmall(e, n - 1);
      if IsCea(e, n - 1) {
        VicsAreSmall(Blocks(Block(e, n)));
      }
    }
  }

  /** One round of the loop below on e, the bytes the loop started from. */
  lemma ExtensionRound(e: seq<byte>, done: seq<byte>, at: nat, n: nat, tx: Tx)
    requires at + 128 <= |e| && n > 0 && |done| == at
    ensures |done + FilterExtension(e[at..at + 128], tx)| == at + 128
    ensures var r := FilterExtension(e[at..at + 128], tx);
      && Splice(done + e[at..], at, r) == (done + r) + e[at + 128..]
      && (done + e[at..])[at..at + 128] == e[at..at + 128]
      && done + FilterExtensions(e[at..], n, tx) == (done + r) + FilterExtensions(e[at + 128..], n - 1, tx)
  {
    hide FilterExtension;
    var t := e[at..];
    assert t[..128] == e[at..at + 128] && t[128..] == e[at + 128..];
    var x := done + t;
    assert x[..at] == done && x[at + 128..] == e[at + 128..];
  }

  lemma ExtensionsEnd(t: seq<byte>, n: nat, tx: Tx)
    requires n == 0 || |t| < 128
    ensures FilterExtensions(t, n, tx) == t
  {
  }

  method FilterBaseBlock(a: array<byte>, caps: TxCaps)
    requires a.Length >= 128
    modifies a
    ensures a[..] == FilterBase(old(a[..])[..128], caps) + old(a[..])[128..]
  {
    hide FilterBase, FilterSlots, Splice, Seal;
    ghost var e := a[..];
    BaseStore(e, caps);
    FilterDetailedTimings(a, 0x36, 0x7E, caps);
    RecalculateEdidBlockChecksum(a, 0);
  }

  /** The part of FilterEdidByTxCapabilities behind the TX queries. */
  method FilterWith(a: array<byte>, tx: Tx)
    requires a.Length >= 128
    modifies a
    ensures a[..] == FilterEdid(old(a[..]), tx)
  {
    hide FilterBase, FilterExtension, FilterExtensions, Splice;
    ghost var e := a[..];
    FilterBaseBlock(a, tx.caps);
    ghost var done := FilterBase(e[..128], tx.caps);
    BaseCount(e, tx.caps);
    assert a[0x7E] == a[..][0x7E] == e[0x7E];
    var extCount := a[0x7E];
    var ext := 0;
    while ext < extCount
      invariant 0 <= ext <= extCount == e[0x7E]
      invariant |done| == 128 + 128 * ext <= |e|
      invariant a[..] == done + e[128 + 128 * ext..]
      invariant FilterEdid(e, tx) == done + FilterExtensions(e[128 + 128 * ext..], extCount - ext, tx)
    {
      var extOffset := 128 + ext * 128;
      if extOffset + 128 > a.Length {
        break;
      }
      ExtensionRound(e, done, extOffset, extCount - ext, tx);
      FilterExtensionAt(a, extOffset, tx);
      done := done + FilterExtension(e[extOffset..extOffset + 128], tx);
      ext := ext + 1;
    }
    ExtensionsEnd(e[128 + 128 * ext..], extCount - ext, tx);
  }

  lemma BaseCount(e: seq<byte>, caps: TxCaps)
    requires |e| >= 128
    ensures (FilterBase(e[..128], caps) + e[128..])[0x7E] == e[0x7E]
  {
    hide FilterSlots, Seal;
    var x := e[..128];
    var y := x[..0x36] + FilterSlots(x[0x36..0x7E], caps) + x[0x7E..];
    assert Seal(y)[0x7E] == Seal(y)[..127][0x7E] == y[0x7E] == e[0x7E];
  }

  /** The return value and the buffer after the call: unchanged when nothing is known of the TX. */
  method FilterEdidByTxCapabilities(a: array<byte>, txEdid: Option<seq<byte>>, txModes: seq<Mode>) returns (ret: int)
    requires txEdid.Some? ==> |txEdid.value| == 256
    modifies a
    ensures ret == if a.Length < 128 then -1 else 0
    ensures a[..] == if a.Length < 128 || txEdid.None? || txModes == [] then old(a[..])
                     else FilterEdid(old(a[..]), TxOf(txEdid.value, txModes))
  {
    hide EdidVics, EdidAnnounces, FilterEdid;
    if a.Length < 128 {
      return -1;
    }
    if txEdid.None? || |txModes| == 0 {
      return 0;
    }
    var edid := txEdid.value;
    var txVics := new byte[256](_ => 0);
    ParseTxEdidVics(edid, txVics);
    EdidVicsAreSmall(edid, edid[0x7E]);
    var vics := set v | 0 <= v < 256 && txVics[v] != 0;
    assert vics == EdidVics(edid, edid[0x7E]);
    var allm := ParseTxFeatureSupport(edid, Allm);
    var vrr := ParseTxFeatureSupport(edid, Vrr);
    FilterWith(a, Tx(TxCaps(vics, txModes), allm, vrr));
    return 0;
  }
}
