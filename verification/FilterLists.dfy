/** The capability filter as a function on block lists: what it keeps, what it drops, idempotence. */
module FilterLists {
  import opened Bytes
  import opened Timing
  import opened DataBlocks
  import opened Passes

  /** Everything the filter is told about the TX side. */
  datatype Tx = Tx(caps: TxCaps, allm: bool, vrr: bool) {
    function Video(): Pass {
      VideoPass(caps)
    }

    function Feature(): Pass {
      FeaturePass(allm, vrr)
    }

    /** The AMD vendor block, removed when the TX has no VRR. */
    function Vendor(): Pass {
      VendorPass(0x1a, 0x00, 0x00)
    }
  }

  /** The passes that do not look at VICs, on a list. */
  function RunOthers(tx: Tx, bs: seq<DataBlock>): (r: seq<DataBlock>)
    requires AllValid(bs)
    ensures AllValid(r)
  {
    var b2 := RewriteAll(tx.Feature(), bs);
    if tx.vrr then b2 else RewriteAll(tx.Vendor(), b2)
  }

  /** All passes in the order FilterEdidByTxCapabilities runs them, on a list. */
  function RunFilter(tx: Tx, bs: seq<DataBlock>): (r: seq<DataBlock>)
    requires AllValid(bs)
    ensures AllValid(r)
  {
    RunOthers(tx, RewriteAll(tx.Video(), bs))
  }

  /** The payload bytes of a block that name VICs: of a video block, or of a YCbCr 4:2:0 video block. */
  function SvdsOf(ycbcr420: bool, b: DataBlock): seq<byte> {
    if ycbcr420 then (if IsYcbcr420(b) then b.payload[1..] else [])
    else if b.tag == 2 then b.payload else []
  }

  function Svds(ycbcr420: bool, bs: seq<DataBlock>): seq<byte> {
    if bs == [] then [] else SvdsOf(ycbcr420, bs[0]) + Svds(ycbcr420, bs[1..])
  }

  predicate IsVideo(b: DataBlock) {
    b.tag == 2 || IsYcbcr420(b)
  }

  /** The blocks that carry no VICs. */
  function Others(bs: seq<DataBlock>): seq<DataBlock> {
    if bs == [] then [] else (if IsVideo(bs[0]) then [] else [bs[0]]) + Others(bs[1..])
  }

  lemma {:induction false} KeepVicsAppend(p: seq<byte>, q: seq<byte>, caps: TxCaps)
    ensures KeepVics(p + q, caps) == KeepVics(p, caps) + KeepVics(q, caps)
  {
    hide KeepVics;
    KeepVicsEmpty(caps);
    if q == [] {
      assert p + q == p;
    } else {
      var r, v := q[..|q| - 1], q[|q| - 1];
      KeepVicsAppend(p, r, caps);
      assert q == r + [v] && p + q == (p + r) + [v];
      KeepVicsLast(r, v, caps);
      KeepVicsLast(p + r, v, caps);
    }
  }

  /** KeepVics keeps every occurrence of a supported VIC and no other byte. */
  lemma {:induction false} KeepVicsCounts(p: seq<byte>, caps: TxCaps, v: byte)
    ensures multiset(KeepVics(p, caps))[v] == if caps.SupportsVic(Vic(v)) then multiset(p)[v] else 0
  {
    if p != [] {
      KeepVicsCounts(p[..|p| - 1], caps, v);
      assert p == p[..|p| - 1] + [p[|p| - 1]];
    }
  }

  lemma SvdsOfRewritten(ycbcr420: bool, b: DataBlock, caps: TxCaps)
    requires b.Valid()
    ensures match Rewrite(VideoPass(caps), b)
            case Some(c) => SvdsOf(ycbcr420, c) == KeepVics(SvdsOf(ycbcr420, b), caps) && (IsVideo(c) <==> IsVideo(b))
                            && (!IsVideo(b) ==> c == b)
            case None => KeepVics(SvdsOf(ycbcr420, b), caps) == [] && IsVideo(b)
  {
    hide KeepVics;
    KeepVicsAppend([], [], caps);
    assert KeepVics([], caps) == [];
  }

  /** The video pass filters the VIC list of each kind and leaves the other blocks alone. */
  lemma {:induction false} VideoPassMeaning(bs: seq<DataBlock>, caps: TxCaps, ycbcr420: bool)
    requires AllValid(bs)
    ensures Svds(ycbcr420, RewriteAll(VideoPass(caps), bs)) == KeepVics(Svds(ycbcr420, bs), caps)
    ensures Others(RewriteAll(VideoPass(caps), bs)) == Others(bs)
  {
    hide KeepVics, SvdsOf, IsVideo, Rewrite;
    if bs == [] {
      EmptyLists(caps, ycbcr420);
    } else {
      VideoPassMeaning(bs[1..], caps, ycbcr420);
      SvdsOfRewritten(ycbcr420, bs[0], caps);
      KeepVicsAppend(SvdsOf(ycbcr420, bs[0]), Svds(ycbcr420, bs[1..]), caps);
      if Rewrite(VideoPass(caps), bs[0]).Some? {
        assert RewriteAll(VideoPass(caps), bs)[1..] == RewriteAll(VideoPass(caps), bs[1..]);
      }
    }
  }

  lemma EmptyLists(caps: TxCaps, ycbcr420: bool)
    ensures KeepVics(Svds(ycbcr420, []), caps) == [] && Svds(ycbcr420, []) == [] && Others([]) == []
  {
  }

  lemma {:induction false} OtherPassesKeepSvds(p: Pass, bs: seq<DataBlock>, ycbcr420: bool)
    requires AllValid(bs) && !p.VideoPass?
    ensures Svds(ycbcr420, RewriteAll(p, bs)) == Svds(ycbcr420, bs)
    ensures AllValid(Others(bs)) && Others(RewriteAll(p, bs)) == RewriteAll(p, Others(bs))
  {
    hide SvdsOf, IsVideo, Rewrite;
    if bs != [] {
      OtherPassesKeepSvds(p, bs[1..], ycbcr420);
      OtherPassKeepsSvds(p, bs[0], ycbcr420);
      if Rewrite(p, bs[0]).Some? {
        assert RewriteAll(p, bs)[1..] == RewriteAll(p, bs[1..]);
      }
      if IsVideo(bs[0]) {
        assert Others(bs) == Others(bs[1..]);
      } else {
        assert Others(bs)[1..] == Others(bs[1..]);
      }
    }
  }

  lemma OtherPassKeepsSvds(p: Pass, b: DataBlock, ycbcr420: bool)
    requires b.Valid() && !p.VideoPass?
    ensures match Rewrite(p, b)
            case Some(c) => SvdsOf(ycbcr420, c) == SvdsOf(ycbcr420, b) && (IsVideo(c) <==> IsVideo(b))
            case None => SvdsOf(ycbcr420, b) == [] && !IsVideo(b)
    ensures IsVideo(b) ==> Rewrite(p, b) == Some(b)
  {
    if p.FeaturePass? && IsHdmiForum(b) {
      ClearKeepsStart(b.payload, p.allm, p.vrr);
    }
  }

  lemma ClearKeepsStart(p: seq<byte>, allm: bool, vrr: bool)
    ensures ClearFeatures(p, allm, vrr)[..if |p| < 7 then |p| else 7] == p[..if |p| < 7 then |p| else 7]
    ensures forall i :: 0 <= i < |p| && i < 7 ==> ClearFeatures(p, allm, vrr)[i] == p[i]
  {
    hide ClearBit;
  }

  /** No supported VIC is lost and no other is left, in each of the two lists; order and repetitions stay.
      The other blocks see only the feature and vendor passes. */
  lemma FilterMeaning(tx: Tx, bs: seq<DataBlock>, ycbcr420: bool)
    requires AllValid(bs)
    ensures Svds(ycbcr420, RunFilter(tx, bs)) == KeepVics(Svds(ycbcr420, bs), tx.caps)
    ensures AllValid(Others(bs)) && Others(RunFilter(tx, bs)) == RunOthers(tx, Others(bs))
  {
    hide KeepVics, Svds, Others, RewriteAll;
    var b1 := RewriteAll(tx.Video(), bs);
    VideoPassMeaning(bs, tx.caps, ycbcr420);
    OtherPassesKeepSvds(tx.Feature(), b1, ycbcr420);
    OtherPassesKeepSvds(tx.Feature(), bs, ycbcr420);
    OtherPassesKeepSvds(tx.Vendor(), RewriteAll(tx.Feature(), b1), ycbcr420);
  }

  /** A pass has nothing left to do on a list. */
  predicate Settled(p: Pass, bs: seq<DataBlock>)
    requires AllValid(bs)
  {
    forall i :: 0 <= i < |bs| ==> Rewrite(p, bs[i]) == Some(bs[i])
  }

  lemma {:induction false} SettledIsFixed(p: Pass, bs: seq<DataBlock>)
    requires AllValid(bs) && Settled(p, bs)
    ensures RewriteAll(p, bs) == bs
  {
    hide Rewrite;
    if bs != [] {
      SettledIsFixed(p, bs[1..]);
    }
  }

  lemma {:induction false} KeepVicsTwice(p: seq<byte>, caps: TxCaps)
    ensures KeepVics(KeepVics(p, caps), caps) == KeepVics(p, caps)
  {
    hide KeepVics;
    KeepVicsEmpty(caps);
    if p != [] {
      var q, v := p[..|p| - 1], p[|p| - 1];
      KeepVicsTwice(q, caps);
      assert p == q + [v];
      KeepVicsLast(q, v, caps);
      KeepVicsLast(KeepVics(q, caps), v, caps);
    }
  }

  lemma ClearTwice(p: seq<byte>, allm: bool, vrr: bool)
    ensures ClearFeatures(ClearFeatures(p, allm, vrr), allm, vrr) == ClearFeatures(p, allm, vrr)
  {
    hide ClearBit, HasBit;
    var r := ClearFeatures(p, allm, vrr);
    if |p| >= 8 && !allm {
      assert !HasBit(r[7], Weight(1));
      assert r[7 := r[7]] == r;
    }
    if |p| >= 10 && !vrr {
      assert !HasBit(r[7], Weight(3)) && !HasBit(r[7], Weight(5)) && !HasBit(r[7], Weight(6));
      assert r[7 := r[7]][8 := 0][9 := 0] == r;
    }
  }

  /** What a pass makes of a block, it keeps; and a later pass does not undo an earlier one. */
  lemma RewriteSettles(p: Pass, b: DataBlock)
    requires b.Valid()
    ensures Rewrite(p, b).Some? ==> Rewrite(p, Rewrite(p, b).value) == Rewrite(p, b)
  {
    hide KeepVics, ClearFeatures;
    match p
    case VideoPass(caps) =>
      KeepVicsTwice(b.payload, caps);
      KeepVicsTwice(b.payload[1..], caps);
      if b.tag != 2 && IsYcbcr420(b) {
        var kept := KeepVics(b.payload[1..], caps);
        assert ([0x0e] + kept)[1..] == kept;
      }
    case FeaturePass(allm, vrr) =>
      ClearTwice(b.payload, allm, vrr);
      if IsHdmiForum(b) {
        ForumStays(b, allm, vrr);
      }
    case VendorPass(_, _, _) =>
  }

  lemma ForumStays(b: DataBlock, allm: bool, vrr: bool)
    requires b.Valid() && IsHdmiForum(b)
    ensures IsHdmiForum(DataBlock(b.tag, ClearFeatures(b.payload, allm, vrr)))
  {
    hide ClearFeatures;
    ClearKeepsStart(b.payload, allm, vrr);
    var r := ClearFeatures(b.payload, allm, vrr);
    if b.tag == 3 {
      assert b.payload[..3][0] == b.payload[0] && b.payload[..3][1] == b.payload[1]
        && b.payload[..3][2] == b.payload[2];
      assert r[..3] == [0xd8, 0x5d, 0xc4];
    }
  }

  /** p comes before q in the order of the passes. */
  predicate Before(p: Pass, q: Pass) {
    (p.VideoPass? && !q.VideoPass?) || (p.FeaturePass? && q.VendorPass?)
  }

  lemma LaterPassKeeps(p: Pass, q: Pass, b: DataBlock)
    requires b.Valid() && Before(p, q) && Rewrite(p, b) == Some(b)
    ensures Rewrite(q, b).Some? ==> Rewrite(p, Rewrite(q, b).value) == Rewrite(q, b)
  {
    hide ClearFeatures;
    if q.FeaturePass? && IsHdmiForum(b) {
      ClearKeepsStart(b.payload, q.allm, q.vrr);
    }
  }

  lemma {:induction false} PassSettles(p: Pass, bs: seq<DataBlock>)
    requires AllValid(bs)
    ensures Settled(p, RewriteAll(p, bs))
  {
    hide Rewrite;
    if bs != [] {
      PassSettles(p, bs[1..]);
      RewriteSettles(p, bs[0]);
    }
  }

  lemma {:induction false} LaterPassSettled(p: Pass, q: Pass, bs: seq<DataBlock>)
    requires AllValid(bs) && Before(p, q) && Settled(p, bs)
    ensures Settled(p, RewriteAll(q, bs))
  {
    hide Rewrite;
    if bs != [] {
      LaterPassSettled(p, q, bs[1..]);
      LaterPassKeeps(p, q, bs[0]);
    }
  }

  /** Running the filter on a filtered list changes nothing. */
  lemma FilterTwice(tx: Tx, bs: seq<DataBlock>)
    requires AllValid(bs)
    ensures RunFilter(tx, RunFilter(tx, bs)) == RunFilter(tx, bs)
  {
    hide RewriteAll, Settled, Rewrite;
    var b1 := RewriteAll(tx.Video(), bs);
    var b2 := RewriteAll(tx.Feature(), b1);
    var r := RunFilter(tx, bs);
    PassSettles(tx.Video(), bs);
    LaterPassSettled(tx.Video(), tx.Feature(), b1);
    PassSettles(tx.Feature(), b1);
    if !tx.vrr {
      LaterPassSettled(tx.Video(), tx.Vendor(), b2);
      LaterPassSettled(tx.Feature(), tx.Vendor(), b2);
      PassSettles(tx.Vendor(), b2);
      SettledIsFixed(tx.Vendor(), r);
    }
    SettledIsFixed(tx.Video(), r);
    SettledIsFixed(tx.Feature(), r);
  }
}
