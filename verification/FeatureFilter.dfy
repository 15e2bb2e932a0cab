/** The feature filter against the feature parser. */
module FeatureFilter {
  import opened Bytes
  import opened DataBlocks
  import opened Passes
  import opened Parsers
  import opened FilterLists
  import opened Timing

  predicate Has(tx: Tx, f: Feature) {
    match f
    case Allm => tx.allm
    case Vrr => tx.vrr
  }

  lemma ForumPrefix(b: DataBlock, c: DataBlock)
    requires b.tag == c.tag && |b.payload| == |c.payload|
    requires forall i :: 0 <= i < |b.payload| && i < 7 ==> c.payload[i] == b.payload[i]
    ensures IsHdmiForum(b) <==> IsHdmiForum(c)
  {
    if |b.payload| >= 3 {
      assert b.payload[..3] == c.payload[..3];
    }
  }

  /** On a block the feature pass takes an announcement away exactly when the TX lacks the feature. */
  lemma FeatureOnBlock(b: DataBlock, tx: Tx, f: Feature)
    requires b.Valid()
    ensures Announces(Rewrite(tx.Feature(), b).value, f) <==> Has(tx, f) && Announces(b, f)
  {
    hide ClearBit, HasBit;
    if IsHdmiForum(b) {
      var c := Rewrite(tx.Feature(), b).value;
      ClearKeepsStart(b.payload, tx.allm, tx.vrr);
      ForumPrefix(b, c);
      if |b.payload| >= 8 {
        assert HasBit(c.payload[7], Weight(1)) <==> tx.allm && HasBit(b.payload[7], Weight(1));
        assert Weight(1) == 2;
      }
    }
  }

  /** The other two passes neither add nor take away announcements. */
  lemma OtherPassOnBlock(p: Pass, b: DataBlock, tx: Tx, f: Feature)
    requires b.Valid() && (p == tx.Video() || p == tx.Vendor())
    ensures match Rewrite(p, b)
            case Some(c) => Announces(c, f) <==> Announces(b, f)
            case None => !Announces(b, f)
  {
    hide HasBit, KeepVics;
  }

  lemma {:induction false} PassAnnounces(p: Pass, bs: seq<DataBlock>, tx: Tx, f: Feature)
    requires AllValid(bs) && p in {tx.Video(), tx.Feature(), tx.Vendor()}
    ensures AnyAnnounces(RewriteAll(p, bs), f) <==> (p == tx.Feature() ==> Has(tx, f)) && AnyAnnounces(bs, f)
  {
    hide Announces, AnyAnnounces, Rewrite;
    if bs == [] {
      AnnouncesFirst(DataBlock(0, []), [], f);
    } else {
      var b, tail := bs[0], bs[1..];
      PassAnnounces(p, tail, tx, f);
      assert bs == [b] + tail;
      AnnouncesFirst(b, tail, f);
      if p == tx.Feature() {
        FeatureOnBlock(b, tx, f);
        FeatureKeepsBlock(b, tx);
      } else {
        OtherPassOnBlock(p, b, tx, f);
      }
      if Rewrite(p, b).Some? {
        AnnouncesFirst(Rewrite(p, b).value, RewriteAll(p, tail), f);
      }
    }
  }

  lemma FeatureKeepsBlock(b: DataBlock, tx: Tx)
    requires b.Valid()
    ensures var r := Rewrite(tx.Feature(), b);
      r.Some? && r.value.tag == b.tag && |r.value.payload| == |b.payload|
  {
  }

  /** The filtered list announces a feature iff the TX has it and the list announced it. */
  lemma FilterAnnounces(tx: Tx, bs: seq<DataBlock>, f: Feature)
    requires AllValid(bs)
    ensures AnyAnnounces(RunFilter(tx, bs), f) <==> Has(tx, f) && AnyAnnounces(bs, f)
  {
    hide RewriteAll, AnyAnnounces;
    var b1 := RewriteAll(tx.Video(), bs);
    PassAnnounces(tx.Video(), bs, tx, f);
    PassAnnounces(tx.Feature(), b1, tx, f);
    PassAnnounces(tx.Vendor(), RewriteAll(tx.Feature(), b1), tx, f);
  }

  /** For arbitrary bytes the feature pass moves nothing: every walk over the result visits the same
      offsets, and sees the rewritten blocks. */
  lemma {:induction false} FeatureSweep(tx: Tx, t: seq<byte>, limit: int, dtd: int)
    ensures Sweep(tx.Feature(), t, limit, dtd).dtd == dtd
    ensures Visit(Sweep(tx.Feature(), t, limit, dtd).bytes, limit) == RewriteAll(tx.Feature(), Visit(t, limit))
    decreases |t|
  {
    hide Rewrite, Head, Len, Rest, Sweep, Visit, RewriteAll, Remains, Zeros;
    var p := tx.Feature();
    VisitRound(t, limit);
    if limit > 0 && Starts(t) {
      var b, limit' := Head(t), limit - 1 - Len(t[0]);
      BlockSize(t);
      FeatureRemains(b, tx);
      var c := Rewrite(p, b).value;
      NoZeros(Rest(t));
      SweepRound(p, t, limit, dtd, 0, limit', dtd);
      FeatureSweep(tx, Rest(t), limit', dtd);
      var r := Sweep(p, Rest(t), limit', dtd);
      StartsEncoded(c, r.bytes);
      BlockSize(c.Encode() + r.bytes);
      VisitRound(c.Encode() + r.bytes, limit);
      RewriteFirst(p, b, c, Visit(Rest(t), limit'));
    } else {
      SweepStops(p, t, limit, dtd);
      RewriteNone(p);
    }
  }

  lemma RewriteNone(p: Pass)
    ensures RewriteAll(p, []) == []
  {
  }

  lemma RewriteFirst(p: Pass, b: DataBlock, c: DataBlock, bs: seq<DataBlock>)
    requires b.Valid() && AllValid(bs) && Rewrite(p, b) == Some(c)
    ensures RewriteAll(p, [b] + bs) == [c] + RewriteAll(p, bs)
  {
    assert ([b] + bs)[1..] == bs;
  }

  lemma NoZeros(t: seq<byte>)
    ensures t + Zeros(0) == t
  {
  }

  lemma FeatureRemains(b: DataBlock, tx: Tx)
    requires b.Valid()
    ensures var r := Rewrite(tx.Feature(), b);
      r.Some? && r.value.Valid() && |r.value.payload| == |b.payload| && Remains(tx.Feature(), b) == r.value.Encode()
  {
  }

  lemma BlockSize(t: seq<byte>)
    requires Starts(t)
    ensures |Head(t).payload| == Len(t[0]) && |Rest(t)| < |t|
    ensures t == Head(t).Encode() + Rest(t)
  {
  }

  /** The feature filter on an extension of arbitrary bytes, seen by any walker. */
  lemma FeatureBlocks(tx: Tx, s: seq<byte>)
    requires |s| == 128 && s[0] == 2
    ensures var r := SweepBlock(tx.Feature(), s);
      r[2] == s[2] && Blocks(r) == RewriteAll(tx.Feature(), Blocks(s))
  {
    hide Sweep, Visit, RewriteAll;
    FeatureSweep(tx, s[4..127], DataEnd(s[2]) - 4, s[2]);
    var r := SweepBlock(tx.Feature(), s);
    assert r[4..127] == Sweep(tx.Feature(), s[4..127], DataEnd(s[2]) - 4, s[2]).bytes;
  }

  /** Afterwards the parser finds the feature iff the TX has it and it was there before. */
  lemma FeatureFilterMeaning(tx: Tx, s: seq<byte>, f: Feature)
    requires |s| == 128 && s[0] == 2
    ensures AnyAnnounces(Blocks(SweepBlock(tx.Feature(), s)), f) <==> Has(tx, f) && AnyAnnounces(Blocks(s), f)
  {
    FeatureBlocks(tx, s);
    PassAnnounces(tx.Feature(), Blocks(s), tx, f);
  }

  /** With both features supported the pass is the identity, whatever the bytes. */
  lemma FeatureIdentity(caps: TxCaps, s: seq<byte>)
    requires |s| == 128
    ensures SweepBlock(Tx(caps, true, true).Feature(), s) == s
  {
    hide Sweep;
    if s[0] == 2 {
      FeatureIdentitySweep(caps, s[4..127], DataEnd(s[2]) - 4, s[2]);
      assert Byte(s[2]) == s[2];
      assert s == s[..2] + [s[2], s[3]] + s[4..127] + [s[127]];
    }
  }

  lemma {:induction false} FeatureIdentitySweep(caps: TxCaps, t: seq<byte>, limit: int, dtd: int)
    ensures Sweep(Tx(caps, true, true).Feature(), t, limit, dtd) == Swept(t, dtd)
    decreases |t|
  {
    hide Head, Len, Rest, Rewrite, Sweep, Remains, Zeros;
    var p := Tx(caps, true, true).Feature();
    if limit > 0 && Starts(t) {
      BlockSize(t);
      FeatureKeepsAll(caps, Head(t));
      NoZeros(Rest(t));
      SweepRound(p, t, limit, dtd, 0, limit - 1 - Len(t[0]), dtd);
      FeatureIdentitySweep(caps, Rest(t), limit - 1 - Len(t[0]), dtd);
    } else {
      SweepStops(p, t, limit, dtd);
    }
  }

  lemma FeatureKeepsAll(caps: TxCaps, b: DataBlock)
    requires b.Valid()
    ensures Rewrite(Tx(caps, true, true).Feature(), b) == Some(b)
    ensures Remains(Tx(caps, true, true).Feature(), b) == b.Encode()
  {
  }
}
