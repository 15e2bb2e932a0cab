/** The filter in terms of what the TX itself announces. */
module TxAnswer {
  import opened Bytes
  import opened Timing
  import opened DataBlocks
  import opened Passes
  import opened Parsers
  import opened FilterLists
  import opened FeatureFilter
  import opened EdidFilter
  import opened EdidTheorems
  import opened EdidPatch
  import opened EdidPipeline
  import opened EdidLoaded

  // ----- The vendor block of a TX without VRR -----

  /** The AMD vendor block: OUI 00-00-1A, low byte first. */
  predicate IsAmd(b: DataBlock) {
    b.tag == 3 && |b.payload| >= 3 && b.payload[0] == 0x1a && b.payload[1] == 0 && b.payload[2] == 0
  }

  function AmdBlocks(bs: seq<DataBlock>): seq<DataBlock> {
    if bs == [] then [] else (if IsAmd(bs[0]) then [bs[0]] else []) + AmdBlocks(bs[1..])
  }

  lemma AmdFirst(b: DataBlock, bs: seq<DataBlock>)
    ensures AmdBlocks([b] + bs) == (if IsAmd(b) then [b] else []) + AmdBlocks(bs)
    ensures AmdBlocks([]) == []
  {
    assert ([b] + bs)[1..] == bs;
  }

  /** The video and feature passes leave such a block alone and make no other one. */
  lemma AmdRewritten(p: Pass, b: DataBlock)
    requires b.Valid() && !p.VendorPass?
    ensures IsAmd(b) ==> Rewrite(p, b) == Some(b)
    ensures Rewrite(p, b).Some? ==> (IsAmd(Rewrite(p, b).value) <==> IsAmd(b))
  {
    hide ClearFeatures, KeepVics;
    if p.FeaturePass? && IsHdmiForum(b) {
      ClearKeepsStart(b.payload, p.allm, p.vrr);
      if b.tag == 3 {
        assert b.payload[..3][0] == b.payload[0];
      }
    }
    if IsAmd(b) {
      assert b.payload[..3][0] == 0x1a;
    }
  }

  lemma {:induction false} AmdKept(p: Pass, bs: seq<DataBlock>)
    requires AllValid(bs) && !p.VendorPass?
    ensures AmdBlocks(RewriteAll(p, bs)) == AmdBlocks(bs)
  {
    hide Rewrite, IsAmd;
    if bs != [] {
      AmdKept(p, bs[1..]);
      AmdRewritten(p, bs[0]);
      AmdFirst(bs[0], bs[1..]);
      if Rewrite(p, bs[0]).Some? {
        AmdFirst(Rewrite(p, bs[0]).value, RewriteAll(p, bs[1..]));
      }
    }
  }

  lemma AmdVendor(tx: Tx, b: DataBlock)
    requires b.Valid()
    ensures Rewrite(tx.Vendor(), b) == if IsAmd(b) then None else Some(b)
  {
    if b.tag == 3 && |b.payload| >= 3 {
      var s := b.payload[..3];
      assert s[0] == b.payload[0] && s[1] == b.payload[1] && s[2] == b.payload[2];
      assert s == [s[0], s[1], s[2]];
    }
  }

  lemma {:induction false} AmdRemoved(tx: Tx, bs: seq<DataBlock>)
    requires AllValid(bs)
    ensures AmdBlocks(RewriteAll(tx.Vendor(), bs)) == []
  {
    hide Rewrite, IsAmd;
    if bs != [] {
      AmdRemoved(tx, bs[1..]);
      AmdVendor(tx, bs[0]);
      AmdFirst(bs[0], RewriteAll(tx.Vendor(), bs[1..]));
    }
  }

  /** The AMD blocks of a list come through the filter, all of them and in order, if the TX has VRR, and
      none of them otherwise. */
  lemma FilteredAmd(tx: Tx, bs: seq<DataBlock>)
    requires AllValid(bs)
    ensures AmdBlocks(RunFilter(tx, bs)) == if tx.vrr then AmdBlocks(bs) else []
  {
    hide RewriteAll, AmdBlocks;
    var b1 := RewriteAll(tx.Video(), bs);
    AmdKept(tx.Video(), bs);
    AmdKept(tx.Feature(), b1);
    AmdRemoved(tx, RewriteAll(tx.Feature(), b1));
  }

  lemma {:induction false} AddedAmd(bs: seq<DataBlock>)
    requires AllValid(bs) && FirstVideo(bs) < |bs| && |bs[FirstVideo(bs)].payload| < 31
    ensures AmdBlocks(AddVic(bs)) == AmdBlocks(bs)
  {
    hide IsAmd;
    var r := AddVic(bs);
    if bs[0].tag == 2 {
      assert r[1..] == bs[1..];
      VideoIsNotAmd(r[0]);
      VideoIsNotAmd(bs[0]);
    } else {
      AddedAmd(bs[1..]);
      assert r[1..] == AddVic(bs[1..]) && r[0] == bs[0];
    }
  }

  lemma VideoIsNotAmd(b: DataBlock)
    requires b.tag == 2
    ensures !IsAmd(b)
  {
  }

  // ----- What is delivered -----

  /** Whether the TX announces a feature in its EDID. */
  predicate TxAnnounces(capsEdid: seq<byte>, f: Feature)
    requires |capsEdid| >= 128
  {
    EdidAnnounces(capsEdid, capsEdid[0x7E], f)
  }

  /** Whether the TX can show a VIC: its EDID lists it, or its driver lists the mode. */
  predicate TxShows(capsEdid: seq<byte>, txModes: seq<Mode>, v: int)
    requires |capsEdid| >= 128
  {
    || (0 < v && v in EdidVics(capsEdid, capsEdid[0x7E]))
    || (VicToMode(v).Some? && VicToMode(v).value in txModes)
  }

  lemma AnswerMeans(capsEdid: seq<byte>, txModes: seq<Mode>, f: Feature, v: int)
    requires |capsEdid| >= 128
    ensures Has(TxOf(capsEdid, txModes), f) <==> TxAnnounces(capsEdid, f)
    ensures TxOf(capsEdid, txModes).caps.SupportsVic(v) <==> TxShows(capsEdid, txModes, v)
    ensures TxOf(capsEdid, txModes).vrr <==> TxAnnounces(capsEdid, Vrr)
    ensures TxOf(capsEdid, txModes).caps.modes == txModes
  {
    hide EdidAnnounces, EdidVics, VicToMode;
    EdidVicsAreSmall(capsEdid, capsEdid[0x7E]);
  }

  /** Where the TX answers, the EDID delivered announces a feature if and only if the TX and the first stored
      extension both do; it lists a VIC if and only if the TX shows it and it was stored or added; and of the
      AMD blocks of that extension it has all if the TX announces VRR, and none otherwise. */
  lemma LoadedForTx(e: seq<byte>, nameEdid: Option<seq<byte>>, capsEdid: seq<byte>, txModes: seq<Mode>,
                    r: seq<byte>, f: Feature, v: int)
    requires |e| == 384 && Accepts(e) && WellFormed(Block(e, 1)) && txModes != []
    requires (nameEdid.Some? ==> |nameEdid.value| == 256) && |capsEdid| == 256
    requires r == Loaded(e, nameEdid, Some(capsEdid), txModes)
    ensures EdidAnnounces(r, 2, f)
       <==> EdidAnnounces(capsEdid, capsEdid[0x7E], f) && AnyAnnounces(Blocks(Block(e, 1)), f)
    ensures v in EdidVics(r, 2)
       <==> && (v in Vics(Blocks(Block(e, 1))) || (v == 63 && Patchable(Blocks(Block(e, 1)), Block(e, 1)[2])))
            && TxShows(capsEdid, txModes, v)
    ensures AmdBlocks(Blocks(Block(r, 1)))
         == if EdidAnnounces(capsEdid, capsEdid[0x7E], Vrr) then AmdBlocks(Blocks(Block(e, 1))) else []
  {
    hide Loaded, TxOf, EdidAnnounces, AnyAnnounces, EdidVics, Vics, Blocks, Block, Has, TxShows, Patchable,
         AmdBlocks, WellFormed, WellFormedEdid, Accepts;
    AnswerMeans(capsEdid, txModes, f, v);
    LoadedEdid(e, nameEdid, Some(capsEdid), txModes);
    LoadedAmd(e, nameEdid, capsEdid, txModes);
  }

  lemma LoadedAmd(e: seq<byte>, nameEdid: Option<seq<byte>>, capsEdid: seq<byte>, txModes: seq<Mode>)
    requires |e| == 384 && Accepts(e) && WellFormed(Block(e, 1)) && txModes != []
    requires (nameEdid.Some? ==> |nameEdid.value| == 256) && |capsEdid| == 256
    ensures AmdBlocks(Blocks(Block(Loaded(e, nameEdid, Some(capsEdid), txModes), 1)))
         == if TxOf(capsEdid, txModes).vrr then AmdBlocks(Blocks(Block(e, 1))) else []
  {
    hide Loaded, TxOf, Blocks, Block, FilterExtension, PatchExtension, WellFormed, Accepts, AmdBlocks, RunFilter,
         AddVic, FirstVideo, Lists63, NewExtension, Sealed, Behind;
    var s, tx := Block(e, 1), TxOf(capsEdid, txModes);
    var p := PatchExtension(s);
    LoadedExtensions(e, nameEdid, capsEdid, txModes);
    PatchedExtension(s);
    FilterExtensionMeaning(p, tx);
    FilteredAmd(tx, Blocks(p));
    if Patchable(Blocks(s), s[2]) {
      AddedAmd(Blocks(s));
    }
  }

  /** The same of the features and VICs of a stored EDID that the patch refuses. */
  lemma UnpatchedForTx(e: seq<byte>, nameEdid: Option<seq<byte>>, capsEdid: seq<byte>, txModes: seq<Mode>,
                       r: seq<byte>, f: Feature, v: int)
    requires |e| == 384 && !Accepts(e) && WellFormedEdid(e) && txModes != []
    requires (nameEdid.Some? ==> |nameEdid.value| == 256) && |capsEdid| == 256
    requires r == Loaded(e, nameEdid, Some(capsEdid), txModes)
    ensures EdidAnnounces(r, e[0x7E], f)
       <==> EdidAnnounces(capsEdid, capsEdid[0x7E], f) && EdidAnnounces(e, e[0x7E], f)
    ensures v in EdidVics(r, e[0x7E]) <==> v in EdidVics(e, e[0x7E]) && TxShows(capsEdid, txModes, v)
  {
    hide Loaded, TxOf, EdidAnnounces, EdidVics, Has, TxShows, WellFormedEdid, Accepts;
    AnswerMeans(capsEdid, txModes, f, v);
    LoadedUnpatched(e, nameEdid, Some(capsEdid), txModes);
  }
}
