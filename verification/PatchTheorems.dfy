/** The patcher against itself and against the filter. */
module PatchTheorems {
  import opened Bytes
  import opened Timing
  import opened DataBlocks
  import opened Passes
  import opened FilterLists
  import opened EdidFilter
  import opened EdidTheorems
  import opened EdidPatch

  // ----- Idempotence of the patcher, for every accepted buffer -----

  /** Whether and where to insert depends on the bytes in front of the checksum only. */
  lemma InsertIgnoresChecksum(s: seq<byte>, p: seq<byte>)
    requires |s| == |p| == 128 && s[..127] == p[..127] && InsertVic(s) == s
    ensures InsertVic(p) == p
  {
    hide Len, VideoAt;
    assert s[4..127] == s[..127][4..] == p[..127][4..] == p[4..127];
    assert s[2] == s[..127][2] == p[2];
    match VideoAt(s[4..127], PatchLimit(s[2]))
    case None =>
    case Some(k) =>
      var at := 4 + k;
      assert s[4..127][k] == s[at] == s[..127][at] == p[at];
      var n := Len(s[at]);
      SliceIn(s, 0, 127, at + 1, at + 1 + n);
      SliceIn(p, 0, 127, at + 1, at + 1 + n);
      assert !HasRoom(s, at);
  }

  /** The bytes of an insertion, as the walk over the result meets them. */
  lemma InsertedBytes(s: seq<byte>, at: nat, n: nat)
    requires |s| == 128 && 4 <= at < 127 && n == Len(s[at]) && at + 1 + n < 127 && s[at] < 255 && s[2] < 255
    ensures var r := InsertAt(s, at);
      && r[4..127][..at - 4] == s[4..127][..at - 4] && r[at] == s[at] + 1 && r[2] == s[2] + 1
      && r[at + 1 + n] == 63
  {
    hide Len;
    var r, pos := InsertAt(s, at), at + 1 + n;
    forall i | 0 <= i < at - 4 ensures r[4..127][i] == s[4..127][i] {
      assert r[4 + i] == s[4 + i];
    }
  }

  /** The inserted block is found again, and now lists VIC 63. */
  lemma InsertedIsFound(s: seq<byte>, k: nat)
    requires |s| == 128 && VideoAt(s[4..127], PatchLimit(s[2])) == Some(k) && HasRoom(s, 4 + k)
    ensures InsertVic(s) == InsertAt(s, 4 + k)
    ensures InsertVic(InsertVic(s)) == InsertVic(s)
  {
    hide VideoAt, InsertAt;
    var at := 4 + k;
    var t := s[4..127];
    assert t[k] == s[at];
    var n := Len(s[at]);
    TagGrows(s[at]);
    InsertedBytes(s, at, n);
    var r := InsertAt(s, at);
    var u := r[4..127];
    assert u[k] == r[at];
    VideoAtStable(t, u, PatchLimit(s[2]), PatchLimit(r[2]), k);
    assert r[at + 1..at + 1 + (n + 1)][n] == 63;
  }

  lemma TagGrows(h: byte)
    requires Len(h) < 31
    ensures h < 255 && Tag(h + 1) == Tag(h) && Len(h + 1) == Len(h) + 1
  {
  }

  lemma PatchExtensionTwice(s: seq<byte>)
    requires |s| == 128
    ensures PatchExtension(PatchExtension(s)) == PatchExtension(s)
  {
    hide VideoAt, InsertAt, Seal, Sealed;
    var r := InsertVic(s);
    assert InsertVic(r) == r by {
      match VideoAt(s[4..127], PatchLimit(s[2]))
      case None =>
      case Some(k) =>
        if HasRoom(s, 4 + k) {
          InsertedIsFound(s, k);
        }
    }
    var p := PatchExtension(s);
    InsertIgnoresChecksum(r, p);
    SealUnique(r, p);
  }

  lemma PatchBaseTwice(s: seq<byte>)
    requires |s| == 128
    ensures PatchBase(PatchBase(s)) == PatchBase(s)
  {
    hide EncodeAll, Seal, Sealed;
    var x := (s[..0x36] + EncodeAll(BASE_MODES) + s[0x6C..])[0x7E := 2];
    var p := PatchBase(s);
    var y := (p[..0x36] + EncodeAll(BASE_MODES) + p[0x6C..])[0x7E := 2];
    BaseModes();
    assert p[..127] == x[..127];
    BaseKeepsFirst(s, x, p, y);
    SealUnique(y, p);
  }

  lemma BaseModes()
    ensures |BASE_MODES| == 3
  {
  }

  lemma BaseKeepsFirst(s: seq<byte>, x: seq<byte>, p: seq<byte>, y: seq<byte>)
    requires |s| == |p| == 128 && |BASE_MODES| == 3
    requires x == (s[..0x36] + EncodeAll(BASE_MODES) + s[0x6C..])[0x7E := 2] && p[..127] == x[..127]
    requires y == (p[..0x36] + EncodeAll(BASE_MODES) + p[0x6C..])[0x7E := 2]
    ensures |x| == |y| == 128 && y[..127] == p[..127]
  {
    hide EncodeAll;
    var m := EncodeAll(BASE_MODES);
    forall i | 0 <= i < 127 ensures y[i] == p[i] {
      assert p[i] == p[..127][i] == x[..127][i] == x[i];
      if 0x36 <= i < 0x6C {
        assert x[i] == m[i - 0x36] == y[i];
      }
    }
  }

  /** Patching a patched EDID changes nothing, whatever the bytes. */
  lemma PatchTwice(e: seq<byte>)
    requires Accepts(e)
    ensures Accepts(PatchEdid(e)) && PatchEdid(PatchEdid(e)) == PatchEdid(e)
  {
    hide PatchBase, PatchExtension, NewExtension, Sealed;
    var r := PatchEdid(e);
    PatchSeals(e);
    PatchHeads(e[..128], e[128..256]);
    assert r[0x7E] == r[..128][0x7E] && r[128] == r[128..256][0];
    PatchBaseTwice(e[..128]);
    PatchExtensionTwice(e[128..256]);
    assert r == r[..128] + r[128..256] + r[256..384] + r[384..];
  }

  lemma PatchHeads(s: seq<byte>, t: seq<byte>)
    requires |s| == |t| == 128
    ensures PatchBase(s)[0x7E] == 2 && PatchExtension(t)[0] == t[0]
  {
    hide EncodeAll, Seal, VideoAt, Lists63;
    BaseModes();
    var x := (s[..0x36] + EncodeAll(BASE_MODES) + s[0x6C..])[0x7E := 2];
    assert Seal(x)[0x7E] == Seal(x)[..127][0x7E] == x[0x7E];
    var y := InsertVic(t);
    assert Seal(y)[0] == Seal(y)[..127][0] == y[0];
  }

  // ----- Filtering undoes patching -----

  lemma {:induction false} RewriteReplaced(p: Pass, bs: seq<DataBlock>, k: nat, c: DataBlock)
    requires AllValid(bs) && k < |bs| && c.Valid() && Rewrite(p, c) == Rewrite(p, bs[k])
    ensures RewriteAll(p, bs[k := c]) == RewriteAll(p, bs)
  {
    hide Rewrite;
    var cs := bs[k := c];
    if k == 0 {
      assert cs[1..] == bs[1..];
    } else {
      RewriteReplaced(p, bs[1..], k - 1, c);
      assert cs[1..] == bs[1..][k - 1 := c];
    }
  }

  lemma AddedVicIsDropped(b: DataBlock, caps: TxCaps)
    requires b.Valid() && b.tag == 2 && |b.payload| < 31 && !caps.SupportsVic(63)
    ensures Rewrite(VideoPass(caps), DataBlock(2, b.payload + [63])) == Rewrite(VideoPass(caps), b)
  {
    hide KeepVics;
    KeepVicsLast(b.payload, 63, caps);
  }

  lemma FilterDropsAdded(tx: Tx, bs: seq<DataBlock>)
    requires AllValid(bs) && FirstVideo(bs) < |bs| && |bs[FirstVideo(bs)].payload| < 31 && !tx.caps.SupportsVic(63)
    ensures RunFilter(tx, AddVic(bs)) == RunFilter(tx, bs)
  {
    hide RewriteAll, FirstVideo, Rewrite;
    var k := FirstVideo(bs);
    AddedVicIsDropped(bs[k], tx.caps);
    RewriteReplaced(tx.Video(), bs, k, DataBlock(2, bs[k].payload + [63]));
  }

  /** Whether byte number q lies in a full slot that the filter clears both with this byte and with a zero in
      its place. */
  predicate ClearedAnyway(b: seq<byte>, q: nat, caps: TxCaps)
    requires q < |b|
  {
    var k := q / 18;
    18 * k + 18 <= |b| && !Acceptable(Slot(b, k), caps) && !Acceptable(Slot(b, k)[q % 18 := 0], caps)
  }

  /** One byte other than zero is no timing. */
  lemma OneByteIsNoTiming(d: seq<byte>, j: nat)
    requires |d| == 18 && j < 18 && d[j := 0] == Zeros(18)
    ensures ToMode(d).None?
  {
    hide Fps;
    assert forall i :: 0 <= i < 18 && i != j ==> d[i] == d[j := 0][i] == 0;
  }

  lemma SlotChange(d: seq<byte>, j: nat, caps: TxCaps)
    requires |d| == 18 && j < 18 && d[j] != 0
    ensures FilterSlot(d, caps) == FilterSlot(d[j := 0], caps) <==> !Acceptable(d, caps) && !Acceptable(d[j := 0], caps)
  {
    hide ToMode, FilterSlot, Zeros;
    var z := d[j := 0];
    FilterSlotMeaning(d, caps);
    FilterSlotMeaning(z, caps);
    assert z[j] == 0;
    ZeroAt(j);
    if z == Zeros(18) {
      OneByteIsNoTiming(d, j);
    }
  }

  lemma ZeroAt(j: nat)
    requires j < 18
    ensures Zeros(18)[j] == 0
  {
  }

  /** Clearing byte j of slot k makes no difference to the filtered slots if and only if it is zero already or
      the slot is cleared anyway. */
  lemma {:induction false} SlotsChange(b: seq<byte>, k: nat, j: nat, caps: TxCaps)
    requires j < 18 && 18 * k + j < |b|
    ensures FilterSlots(b, caps) == FilterSlots(b[18 * k + j := 0], caps)
       <==> || b[18 * k + j] == 0
            || (18 * k + 18 <= |b| && !Acceptable(Slot(b, k), caps) && !Acceptable(Slot(b, k)[j := 0], caps))
    decreases k
  {
    hide FilterSlot, Acceptable;
    var q := 18 * k + j;
    var z := b[q := 0];
    if |b| < 18 {
      assert z[q] == 0;
    } else {
      var f, g := FilterSlots(b, caps), FilterSlots(z, caps);
      assert f[..18] == FilterSlot(b[..18], caps) && f[18..] == FilterSlots(b[18..], caps);
      assert g[..18] == FilterSlot(z[..18], caps) && g[18..] == FilterSlots(z[18..], caps);
      assert f == f[..18] + f[18..] && g == g[..18] + g[18..];
      if k == 0 {
        assert z[..18] == b[..18][j := 0] && z[18..] == b[18..] && Slot(b, 0) == b[..18];
        if b[j] != 0 {
          SlotChange(b[..18], j, caps);
        } else {
          assert z == b;
        }
      } else {
        assert z[..18] == b[..18] && z[18..] == b[18..][18 * (k - 1) + j := 0];
        SlotsChange(b[18..], k - 1, j, caps);
        if 18 * k + 18 <= |b| {
          NextSlot(b, k);
        }
      }
    }
  }

  lemma ByteChange(b: seq<byte>, q: nat, caps: TxCaps)
    requires q < |b|
    ensures FilterSlots(b, caps) == FilterSlots(b[q := 0], caps) <==> b[q] == 0 || ClearedAnyway(b, q, caps)
  {
    hide FilterSlots, Acceptable, Slot;
    SlotsChange(b, q / 18, q % 18, caps);
  }

  /** Nothing is inserted, or the byte pushed out is zero, or the slot it ends up in is cleared anyway. */
  predicate NothingPushedOut(s: seq<byte>, tx: Tx)
    requires WellFormed(s)
  {
    Patchable(Blocks(s), s[2]) ==>
      s[126] == 0 || ClearedAnyway(Behind(s) + Zeros(Shrinkage(tx, Blocks(s))), |Behind(s)| - 1, tx.caps)
  }

  /** If the TX does not support VIC 63, the filter takes back what the patch did to the first extension, byte
      for byte, if and only if the patch inserted nothing, or the byte 126 it pushes out was zero, or the slot
      this byte ends up in is cleared by the filter anyway. */
  lemma FilterUndoesPatch(s: seq<byte>, tx: Tx)
    requires WellFormed(s) && !tx.caps.SupportsVic(63)
    ensures FilterExtension(PatchExtension(s), tx) == FilterExtension(s, tx)
       <==> NothingPushedOut(s, tx)
  {
    hide Print, Blocks, AddVic, RunFilter, FilterExtension, FilterSlots, Zeros, Seal, InsertVic, Shrinkage, Patchable;
    hide SweepExtension, FilterTimings, Sealed, ClearedAnyway;
    var p := PatchExtension(s);
    InsertVicMeaning(s);
    FilterExtensionMeaning(s, tx);
    FilterExtensionSealed(s, tx);
    FilterExtensionSealed(p, tx);
    if Patchable(Blocks(s), s[2]) {
      PatchedBehind(s, tx, p);
      var b := Behind(s) + Zeros(Shrinkage(tx, Blocks(s)));
      ByteChange(b, |Behind(s)| - 1, tx.caps);
      FilterExtensionMeaning(p, tx);
    } else {
      SameLayout(s, p);
      FilterExtensionMeaning(p, tx);
    }
    if FilterExtension(p, tx)[..127] == FilterExtension(s, tx)[..127] {
      SealUnique(FilterExtension(p, tx), FilterExtension(s, tx));
    }
  }

  /** An extension with one video block and a full timing area: the byte pushed out is lost, and the filter,
      which drops the inserted VIC again, leaves a zero in its place. */
  lemma PushedOutByteIsLost(tx: Tx, s: seq<byte>)
    requires !tx.caps.SupportsVic(63)
    requires s == [2, 3, 6, 0, 0x41, 16] + Zeros(120) + [1, 0]
    ensures WellFormed(s) && Patchable(Blocks(s), s[2])
    ensures FilterExtension(PatchExtension(s), tx) != FilterExtension(s, tx)
  {
    hide FilterExtension, PatchExtension, Shrinkage, Acceptable, FilterSlots, Zeros, WellFormed, Blocks;
    var b := DataBlock(2, [16]);
    OneBlock(b);
    assert s[..127] == Layout(3, 0, [b], Zeros(120) + [1]);
    LayoutIsWellFormed(s, 3, 0, [b], Zeros(120) + [1]);
    assert FirstVideo([b]) == 0 && !Lists63(b.payload);
    assert Behind(s) == Zeros(120) + [1];
    FilterUndoesPatch(s, tx);
  }

  lemma OneBlock(b: DataBlock)
    requires b.Valid()
    ensures AllValid([b]) && Print([b]) == b.Encode()
  {
    assert [b][1..] == [] && Print([]) == [];
  }

  lemma SameLayout(s: seq<byte>, p: seq<byte>)
    requires WellFormed(s) && |p| == 128 && p[..127] == s[..127]
    ensures WellFormed(p) && Blocks(p) == Blocks(s) && p[1] == s[1] && p[3] == s[3] && Behind(p) == Behind(s)
  {
    hide Print, Blocks, Layout;
    WellFormedIsLayout(s);
    LayoutIsWellFormed(p, s[1], s[3], Blocks(s), s[s[2]..127]);
  }

  /** Behind the patched list lie the same bytes, but for byte 126, once the filter has filled up with zeros. */
  lemma PatchedBehind(s: seq<byte>, tx: Tx, p: seq<byte>)
    requires WellFormed(s) && !tx.caps.SupportsVic(63) && p == PatchExtension(s)
    requires Patchable(Blocks(s), s[2])
    ensures WellFormed(p) && p[1] == s[1] && p[3] == s[3]
    ensures RunFilter(tx, Blocks(p)) == RunFilter(tx, Blocks(s))
    ensures |Behind(s)| > 0 && Behind(s)[|Behind(s)| - 1] == s[126]
    ensures Behind(p) + Zeros(Shrinkage(tx, Blocks(p)))
         == (Behind(s) + Zeros(Shrinkage(tx, Blocks(s))))[|Behind(s)| - 1 := 0]
  {
    hide Print, Blocks, AddVic, RunFilter, Seal, InsertVic, Layout, FirstVideo;
    var bs, behind := Blocks(s), Behind(s);
    InsertVicMeaning(s);
    AddVicPrint(bs);
    FilterDropsAdded(tx, bs);
    LayoutIsWellFormed(p, s[1], s[3], AddVic(bs), behind[..|behind| - 1]);
    ClearLast(behind, Shrinkage(tx, bs));
  }

  lemma ClearLast(behind: seq<byte>, n: nat)
    requires |behind| > 0
    ensures behind[..|behind| - 1] + Zeros(n + 1) == (behind + Zeros(n))[|behind| - 1 := 0]
  {
  }
}
