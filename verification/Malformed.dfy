/** What the removing walkers leave of an extension that need not be well formed. */
module Malformed {
  import opened Bytes
  import opened Timing
  import opened DataBlocks
  import opened Passes
  import opened Parsers
  import opened FilterLists
  import opened FeatureFilter
  import opened EdidFilter

  // ----- What a later walk finds -----

  /** A walk over a printed block and more visits that block first, if the walk gets so far. */
  lemma VisitBlock(c: DataBlock, rest: seq<byte>, limit: int)
    requires c.Valid()
    ensures Visit(c.Encode() + rest, limit) ==
      if limit <= 0 then [] else [c] + Visit(rest, limit - 1 - |c.payload|)
  {
    StartsEncoded(c, rest);
    VisitRound(c.Encode() + rest, limit);
  }

  lemma SettledCons(p: Pass, c: DataBlock, bs: seq<DataBlock>)
    requires c.Valid() && AllValid(bs) && Rewrite(p, c) == Some(c) && Settled(p, bs)
    ensures Settled(p, [c] + bs)
  {
    hide Rewrite;
  }

  /** All bytes from offset k on are zero. */
  predicate ZeroFrom(t: seq<byte>, k: int) {
    forall i :: 0 <= i < |t| && i >= k ==> t[i] == 0
  }

  lemma ZeroMoved(t: seq<byte>, limit: int, lost: nat, limit': int)
    requires Starts(t) && ZeroFrom(t, limit) && limit' >= limit - 1 - Len(t[0])
    ensures ZeroFrom(Rest(t) + Zeros(lost), limit')
  {
    var n, u := 1 + Len(t[0]), Rest(t) + Zeros(lost);
    forall i | 0 <= i < |u| && i >= limit' ensures u[i] == 0 {
      if i < |t| - n {
        assert u[i] == t[n + i];
      } else {
        ZerosAt(lost);
        assert u[i] == Zeros(lost)[i - (|t| - n)];
      }
    }
  }

  lemma NothingStarts(t: seq<byte>, limit: int, walk: int)
    requires ZeroFrom(t, limit) && (limit <= 0 || !Starts(t))
    ensures Visit(t, walk) == []
  {
  }

  /** One round of a sweep, as a later walk sees it. */
  lemma RoundVisited(p: Pass, t: seq<byte>, rest: seq<byte>, walk: int)
    requires Starts(t) && Settled(p, Visit(rest, walk - |Remains(p, Head(t))|))
    ensures Settled(p, Visit(Remains(p, Head(t)) + rest, walk))
  {
    hide Rewrite, Visit, Starts, Head, Settled;
    var out := Remains(p, Head(t));
    match Rewrite(p, Head(t))
    case None =>
      assert out + rest == rest;
    case Some(c) =>
      RewriteSettles(p, Head(t));
      VisitBlock(c, rest, walk);
      NothingSettled(p);
      if walk > 0 {
        SettledCons(p, c, Visit(rest, walk - 1 - |c.payload|));
      }
  }

  lemma NothingSettled(p: Pass)
    ensures Settled(p, [])
  {
  }

  /** If only zeros lie behind the walker's dataEnd, any later walk finds only blocks the pass leaves alone. */
  lemma {:induction false} SweptIsSettled(p: Pass, t: seq<byte>, limit: int, dtd: int, walk: int)
    requires ZeroFrom(t, limit)
    ensures Settled(p, Visit(Sweep(p, t, limit, dtd).bytes, walk))
    decreases NonZero(t)
  {
    hide Remains, Visit, Len, Head, Rest, ZeroFrom, Sweep, NonZero, Settled;
    if limit <= 0 || !Starts(t) {
      SweepStops(p, t, limit, dtd);
      NothingStarts(t, limit, walk);
      NothingSettled(p);
    } else {
      var out := Remains(p, Head(t));
      var lost := 1 + Len(t[0]) - |out|;
      RemainsShorter(p, t);
      var dtd' := if dtd != 0 then dtd - lost else 0;
      var limit' := (if dtd != 0 then limit - lost else limit) - |out|;
      SweepDecreases(t, lost);
      SweepRound(p, t, limit, dtd, lost, limit', dtd');
      ZeroMoved(t, limit, lost, limit');
      SweptIsSettled(p, Rest(t) + Zeros(lost), limit', dtd', walk - |out|);
      RoundVisited(p, t, Sweep(p, Rest(t) + Zeros(lost), limit', dtd').bytes, walk);
    }
  }

  lemma RemainsShorter(p: Pass, t: seq<byte>)
    requires Starts(t)
    ensures |Remains(p, Head(t))| <= 1 + Len(t[0])
  {
    hide Remains;
  }

  // ----- How far byte 2 falls -----

  /** How many bytes the walk takes out, in total. */
  function Loss(p: Pass, t: seq<byte>, limit: int): (n: nat)
    decreases NonZero(t)
  {
    if limit <= 0 || !Starts(t) then 0
    else
      var lost: nat := 1 + Len(t[0]) - |Remains(p, Head(t))|;
      SweepDecreases(t, lost);
      lost + Loss(p, Rest(t) + Zeros(lost), limit - 1 - Len(t[0]))
  }

  /** The counter for byte 2 falls by the loss; a block that crosses dataEnd makes it exceed what lies before. */
  lemma {:induction false} SweepLoss(p: Pass, t: seq<byte>, limit: int, dtd: int)
    requires dtd >= limit + 4
    ensures Sweep(p, t, limit, dtd).dtd == dtd - Loss(p, t, limit)
    ensures Loss(p, t, limit) <= if limit > 0 then 31 + limit else 0
    decreases NonZero(t)
  {
    hide Remains, Head, Rest, Sweep, NonZero;
    if limit <= 0 || !Starts(t) {
      SweepStops(p, t, limit, dtd);
    } else {
      var n := 1 + Len(t[0]);
      var lost := n - |Remains(p, Head(t))|;
      RemainsShorter(p, t);
      SweepDecreases(t, lost);
      SweepRound(p, t, limit, dtd, lost, limit - n, dtd - lost);
      SweepLoss(p, Rest(t) + Zeros(lost), limit - n, dtd - lost);
    }
  }

  /** A walk that goes as far as byte 2 then says finds only blocks the pass leaves alone. */
  lemma {:induction false} SweptUpToByte2(p: Pass, t: seq<byte>, limit: int, dtd: int)
    requires dtd >= limit + 4
    ensures Settled(p, Visit(Sweep(p, t, limit, dtd).bytes, limit - Loss(p, t, limit)))
    decreases NonZero(t)
  {
    hide Remains, Visit, Len, Head, Rest, Sweep, NonZero, Settled;
    if limit <= 0 || !Starts(t) {
      SweepStops(p, t, limit, dtd);
      VisitRound(t, limit);
      NothingSettled(p);
    } else {
      var n := 1 + Len(t[0]);
      var out := Remains(p, Head(t));
      var lost := n - |out|;
      RemainsShorter(p, t);
      SweepDecreases(t, lost);
      SweepRound(p, t, limit, dtd, lost, limit - n, dtd - lost);
      var u := Rest(t) + Zeros(lost);
      SweptUpToByte2(p, u, limit - n, dtd - lost);
      RoundVisited(p, t, Sweep(p, u, limit - n, dtd - lost).bytes, limit - Loss(p, t, limit));
    }
  }

  // ----- Any extension -----

  /** The walk takes more bytes out than lie between the header and byte 2: byte 2 falls below 4. */
  predicate Overrun(p: Pass, s: seq<byte>)
    requires |s| == 128
  {
    4 <= s[2] <= 127 && Loss(p, s[4..127], s[2] - 4) > s[2] - 4
  }

  /** What a later walk over a swept CEA extension finds, by where byte 2 stood and how far it fell. */
  lemma SweptBlocks(p: Pass, s: seq<byte>)
    requires |s| == 128 && s[0] == 2
    ensures var r := SweepBlock(p, s);
      && (!Overrun(p, s) ==> Settled(p, Blocks(r)))
      && (Overrun(p, s) ==> Blocks(r) == Visit(r[4..127], 123))
  {
    hide Sweep, Loss, Settled, Visit;
    var r, t := SweepBlock(p, s), s[4..127];
    var swept := Sweep(p, t, DataEnd(s[2]) - 4, s[2]);
    assert r[4..127] == swept.bytes && r[2] == Byte(swept.dtd);
    if 4 <= s[2] <= 127 {
      SweepLoss(p, t, s[2] - 4, s[2]);
      SweptUpToByte2(p, t, s[2] - 4, s[2]);
    } else {
      SweptIsSettled(p, t, 123, s[2], DataEnd(r[2]) - 4);
    }
  }

  /** A swept extension holds only blocks the pass leaves alone if and only if byte 2 did not fall below 4, or
      the blocks a walk to offset 127 then meets happen to be such. */
  lemma SettledIff(p: Pass, s: seq<byte>)
    requires |s| == 128 && s[0] == 2
    ensures var r := SweepBlock(p, s);
      Settled(p, Blocks(r)) <==> (Overrun(p, s) ==> Settled(p, Visit(r[4..127], 123)))
  {
    hide Settled, Visit, Overrun, SweepBlock;
    SweptBlocks(p, s);
  }

  // ----- What this says of VICs -----

  lemma {:induction false} KeptAll(p: seq<byte>, caps: TxCaps)
    ensures KeepVics(p, caps) == p <==> forall v :: v in p ==> caps.SupportsVic(Vic(v))
  {
    if p != [] {
      var front, v := p[..|p| - 1], p[|p| - 1];
      assert p == front + [v];
      KeptAll(front, caps);
      KeepVicsLast(front, v, caps);
      if !caps.SupportsVic(Vic(v)) {
        assert |KeepVics(p, caps)| < |p|;
      }
    }
  }

  lemma SettledVideo(b: DataBlock, caps: TxCaps)
    requires b.Valid()
    ensures Rewrite(VideoPass(caps), b) == Some(b)
       <==> forall y, v :: v in SvdsOf(y, b) ==> caps.SupportsVic(Vic(v))
  {
    hide KeepVics;
    KeptAll(b.payload, caps);
    KeptAll(SvdsOf(true, b), caps);
    assert forall v :: v in SvdsOf(false, b) ==> v in b.payload;
    if IsYcbcr420(b) {
      assert b.payload == [0x0e] + b.payload[1..];
    }
  }

  /** Every short video descriptor of the list names a VIC the TX supports. */
  predicate OnlySupported(bs: seq<DataBlock>, caps: TxCaps) {
    forall y, v :: v in Svds(y, bs) ==> caps.SupportsVic(Vic(v))
  }

  lemma {:induction false} SettledIsSupported(bs: seq<DataBlock>, caps: TxCaps)
    requires AllValid(bs)
    ensures Settled(VideoPass(caps), bs) <==> OnlySupported(bs, caps)
  {
    hide Rewrite, SvdsOf;
    if bs != [] {
      SettledIsSupported(bs[1..], caps);
      SettledVideo(bs[0], caps);
      assert bs == [bs[0]] + bs[1..];
      SettledSplit(VideoPass(caps), bs);
      forall y, v ensures v in Svds(y, bs) <==> v in SvdsOf(y, bs[0]) || v in Svds(y, bs[1..]) {
      }
    }
  }

  lemma SettledSplit(p: Pass, bs: seq<DataBlock>)
    requires AllValid(bs) && bs != []
    ensures Settled(p, bs) <==> Rewrite(p, bs[0]) == Some(bs[0]) && Settled(p, bs[1..])
  {
    hide Rewrite;
    assert forall i :: 0 < i < |bs| ==> bs[i] == bs[1..][i - 1];
  }

  /** After the video pass over any CEA extension the walks find only supported VICs if and only if byte 2 did
      not fall below 4, or the bytes a walk to offset 127 then meets happen to name only such. */
  lemma FilteredVideoIff(s: seq<byte>, caps: TxCaps)
    requires |s| == 128 && s[0] == 2
    ensures var p := VideoPass(caps);
      var r := SweepBlock(p, s);
      OnlySupported(Blocks(r), caps) <==> (Overrun(p, s) ==> OnlySupported(Visit(r[4..127], 123), caps))
  {
    hide Settled, Visit, Overrun, SweepBlock, OnlySupported, Blocks;
    var r := SweepBlock(VideoPass(caps), s);
    SettledIff(VideoPass(caps), s);
    SettledIsSupported(Blocks(r), caps);
    SettledIsSupported(Visit(r[4..127], 123), caps);
  }

  /** Byte 2 never falls below 4 where blocks fill the collection exactly, nor where it names no collection. */
  lemma NoOverrun(p: Pass, s: seq<byte>)
    requires |s| == 128 && s[0] == 2
    ensures !(4 <= s[2] <= 127) ==> !Overrun(p, s)
    ensures WellFormed(s) ==> !Overrun(p, s)
  {
    hide Sweep, Loss, Blocks, Print, Layout, RewriteAll, Lost;
    if WellFormed(s) {
      SweepBlockMeaning(p, s);
      SweepLoss(p, s[4..127], s[2] - 4, s[2]);
      assert SweepBlock(p, s)[2] == Byte(s[2] - Loss(p, s[4..127], s[2] - 4));
    }
  }

  /** A video block of ten unsupported VICs over a byte 2 of 5: taking it out wraps byte 2 to 250, and the walks
      now meet the block behind, which the filter never looked at. */
  lemma WrapShowsUnfiltered(s: seq<byte>, caps: TxCaps)
    requires !caps.SupportsVic(99)
    requires s == [2, 3, 5, 0]
                  + (DataBlock(2, seq(10, _ => 99)).Encode() + DataBlock(2, [99]).Encode() + Zeros(110)) + [0]
    ensures var r := SweepBlock(VideoPass(caps), s);
      r[2] == 250 && !OnlySupported(Blocks(r), caps)
  {
    hide Zeros, KeepVics, Visit, OnlySupported, SweepBlock, Sweep;
    var p, first, second := VideoPass(caps), DataBlock(2, seq(10, _ => 99)), DataBlock(2, [99]);
    var rest := second.Encode() + Zeros(110);
    assert s[4..127] == first.Encode() + rest;
    NoneKept(first.payload, caps);
    assert Remains(p, first) == [];
    SweepHead(p, first, rest, 1, 5);
    SweepStops(p, rest + Zeros(11), 1 - 11, 5 - 11);
    assert [] + (rest + Zeros(11)) == rest + Zeros(11);
    SweptBytes(p, s, rest + Zeros(11), -6);
    assert rest + Zeros(11) == second.Encode() + (Zeros(110) + Zeros(11));
    VisitBlock(second, Zeros(110) + Zeros(11), 123);
    FirstUnsupported(second, Visit(Zeros(110) + Zeros(11), 121), caps);
  }

  lemma SweptBytes(p: Pass, s: seq<byte>, bytes: seq<byte>, dtd: int)
    requires |s| == 128 && s[0] == 2 && Sweep(p, s[4..127], DataEnd(s[2]) - 4, s[2]) == Swept(bytes, dtd)
    ensures var r := SweepBlock(p, s);
      r[2] == Byte(dtd) && r[4..127] == bytes && Blocks(r) == Visit(bytes, DataEnd(Byte(dtd)) - 4)
  {
    hide Sweep, Visit;
  }

  lemma {:induction false} NoneKept(p: seq<byte>, caps: TxCaps)
    requires forall v :: v in p ==> !caps.SupportsVic(Vic(v))
    ensures KeepVics(p, caps) == []
  {
    hide KeepVics;
    KeepVicsEmpty(caps);
    if p != [] {
      var front, v := p[..|p| - 1], p[|p| - 1];
      assert p == front + [v] && v in p;
      NoneKept(front, caps);
      KeepVicsLast(front, v, caps);
    }
  }

  lemma FirstUnsupported(b: DataBlock, bs: seq<DataBlock>, caps: TxCaps)
    requires b == DataBlock(2, [99]) && !caps.SupportsVic(99)
    ensures !OnlySupported([b] + bs, caps)
  {
    assert Svds(false, [b] + bs) == SvdsOf(false, b) + Svds(false, ([b] + bs)[1..]);
    assert b.payload[0] == 99 && 99 in SvdsOf(false, b);
    assert Vic(99) == 99;
  }

  // ----- The passes behind the video pass -----

  /** The feature pass changes nothing in this, whatever the bytes. */
  lemma FeatureKeepsSupport(tx: Tx, s: seq<byte>)
    requires |s| == 128 && s[0] == 2
    ensures OnlySupported(Blocks(SweepBlock(tx.Feature(), s)), tx.caps) <==> OnlySupported(Blocks(s), tx.caps)
  {
    hide Blocks, SweepBlock, RewriteAll, Svds, Others;
    FeatureBlocks(tx, s);
    forall y ensures Svds(y, RewriteAll(tx.Feature(), Blocks(s))) == Svds(y, Blocks(s)) {
      OtherPassesKeepSvds(tx.Feature(), Blocks(s), y);
    }
  }

  lemma {:induction false} ZeroStays(p: Pass, t: seq<byte>, limit: int)
    ensures Sweep(p, t, limit, 0).dtd == 0
    decreases NonZero(t)
  {
    hide Remains, Len, Head, Rest, Sweep, NonZero;
    if limit <= 0 || !Starts(t) {
      SweepStops(p, t, limit, 0);
    } else {
      var lost := 1 + Len(t[0]) - |Remains(p, Head(t))|;
      RemainsShorter(p, t);
      SweepDecreases(t, lost);
      SweepRound(p, t, limit, 0, lost, limit - |Remains(p, Head(t))|, 0);
      ZeroStays(p, Rest(t) + Zeros(lost), limit - |Remains(p, Head(t))|);
    }
  }

  /** With byte 2 zero the video and feature passes leave only supported VICs, whatever the bytes. */
  lemma TwoPassesSound(tx: Tx, s: seq<byte>)
    requires |s| == 128 && s[0] == 2 && s[2] == 0
    ensures var q := SweepBlock(tx.Feature(), SweepBlock(tx.Video(), s));
      q[0] == 2 && q[2] == 0 && OnlySupported(Blocks(q), tx.caps)
  {
    hide Blocks, OnlySupported, Sweep, Visit, Overrun;
    var r := SweepBlock(tx.Video(), s);
    var q := SweepBlock(tx.Feature(), r);
    ZeroStays(tx.Video(), s[4..127], 123);
    assert r[0] == r[..2][0] == s[..2][0] && r[2] == 0;
    assert q[0] == q[..2][0] == r[..2][0];
    NoOverrun(tx.Video(), s);
    FilteredVideoIff(s, tx.caps);
    FeatureKeepsSupport(tx, r);
    FeatureBlocks(tx, r);
  }

  /** A sweep that finds nothing to do does nothing. */
  lemma {:induction false} SweepSettled(p: Pass, t: seq<byte>, limit: int, dtd: int)
    requires Settled(p, Visit(t, limit))
    ensures Sweep(p, t, limit, dtd) == Swept(t, dtd)
    decreases |t|
  {
    hide Rewrite, Visit, Len, Sweep, Settled;
    if limit <= 0 || !Starts(t) {
      SweepStops(p, t, limit, dtd);
    } else {
      var n := 1 + Len(t[0]);
      VisitRound(t, limit);
      assert Visit(t, limit)[1..] == Visit(Rest(t), limit - n);
      SettledSplit(p, Visit(t, limit));
      BlockSize(t);
      assert Remains(p, Head(t)) == Head(t).Encode();
      NoZeros(Rest(t));
      SweepRound(p, t, limit, dtd, 0, limit - n, dtd);
      SweepSettled(p, Rest(t), limit - n, dtd);
    }
  }

  /** A walk over a printed list and more visits the list first. */
  lemma {:induction false} VisitList(bs: seq<DataBlock>, rest: seq<byte>, limit: int)
    requires AllValid(bs) && limit >= |Print(bs)|
    ensures Visit(Print(bs) + rest, limit) == bs + Visit(rest, limit - |Print(bs)|)
  {
    hide Visit, Print, DataBlock.Encode;
    PrintNothing();
    if bs == [] {
      assert [] + rest == rest;
    } else {
      var b, tail := bs[0], bs[1..];
      var inner := Print(tail) + rest;
      PrintCons(bs);
      assert (b.Encode() + Print(tail)) + rest == b.Encode() + inner;
      VisitBlock(b, inner, limit);
      VisitList(tail, rest, limit - 1 - |b.payload|);
      ConsList(bs, Visit(rest, limit - |Print(bs)|));
    }
  }

  lemma ConsList<T>(s: seq<T>, t: seq<T>)
    requires s != []
    ensures s + t == [s[0]] + (s[1..] + t)
  {
  }

  // ----- What comes into view when byte 2 is zero -----

  /** The blocks a walk to the end meets. */
  function Full(t: seq<byte>): (bs: seq<DataBlock>)
    ensures AllValid(bs)
  {
    Visit(t, |t|)
  }

  /** Where such a walk stops: at nothing, at a zero length, or at a block that is cut off. */
  function Cut(t: seq<byte>): (c: seq<byte>)
    ensures !Starts(c)
    decreases |t|
  {
    if !Starts(t) then t else Cut(Rest(t))
  }

  lemma FullRound(t: seq<byte>)
    ensures Full(t) == if Starts(t) then [Head(t)] + Full(Rest(t)) else []
    ensures Starts(t) ==> |Rest(t)| == |t| - 1 - Len(t[0])
  {
    VisitRound(t, |t|);
  }

  lemma FullBlock(b: DataBlock, rest: seq<byte>)
    requires b.Valid()
    ensures Full(b.Encode() + rest) == [b] + Full(rest)
  {
    VisitBlock(b, rest, 1 + |b.payload| + |rest|);
  }

  lemma PaddedStarts(t: seq<byte>, z: nat)
    requires Starts(t)
    ensures var u := t + Zeros(z); Starts(u) && Head(u) == Head(t) && Rest(u) == Rest(t) + Zeros(z)
  {
    hide Zeros;
    BlockSize(t);
    StartsEncoded(Head(t), Rest(t) + Zeros(z));
    assert t + Zeros(z) == Head(t).Encode() + (Rest(t) + Zeros(z));
  }

  /** Zeros behind the bytes can only complete the block that was cut off. */
  lemma {:induction false} FullPadded(t: seq<byte>, z: nat)
    ensures Full(t + Zeros(z)) == Full(t) + Full(Cut(t) + Zeros(z))
    ensures Cut(t + Zeros(z)) == Cut(Cut(t) + Zeros(z))
    decreases |t|
  {
    hide Full, Head, Len, Zeros, Cut, Starts, Rest;
    FullRound(t);
    CutRound(t);
    if Starts(t) {
      PaddedStarts(t, z);
      FullRound(t + Zeros(z));
      CutRound(t + Zeros(z));
      FullPadded(Rest(t), z);
      ConsList(Full(t), Full(Cut(t) + Zeros(z)));
    }
  }

  lemma CutRound(t: seq<byte>)
    ensures Cut(t) == if Starts(t) then Cut(Rest(t)) else t
    ensures Starts(t) ==> |Rest(t)| < |t|
  {
  }

  lemma ZerosStop(n: nat)
    ensures !Starts(Zeros(n)) && Full(Zeros(n)) == [] && Cut(Zeros(n)) == Zeros(n)
  {
    VisitRound(Zeros(n), n);
  }

  lemma CutRevealed(c: seq<byte>, n: nat, z: nat, more: nat)
    requires !Starts(c) && Full(c + Zeros(n)) != []
    ensures Full(Cut(c + Zeros(n)) + Zeros(z + more)) == Full(Cut(c + Zeros(n)) + Zeros(z)) == []
  {
    hide Full, Head, Zeros;
    var u := c + Zeros(n);
    FullRound(u);
    RestOfCut(c, n);
    var left := |Rest(u)|;
    ZerosStop(left);
    ZerosAppend(left, z);
    ZerosAppend(left, z + more);
    ZerosStop(left + z);
    ZerosStop(left + (z + more));
  }

  lemma RestOfCut(c: seq<byte>, n: nat)
    requires !Starts(c) && Starts(c + Zeros(n))
    ensures Rest(c + Zeros(n)) == Zeros(|Rest(c + Zeros(n))|)
  {
    var u := c + Zeros(n);
    assert |c| > 0 && u[0] == c[0];
    assert Rest(u) == u[1 + Len(c[0])..];
    assert u[|c|..] == Zeros(n);
  }

  function Rewritten(p: Pass, b: DataBlock): seq<DataBlock>
    requires b.Valid()
  {
    match Rewrite(p, b)
    case None => []
    case Some(c) => [c]
  }

  lemma RewriteAllCons(p: Pass, bs: seq<DataBlock>)
    requires AllValid(bs) && bs != []
    ensures RewriteAll(p, bs) == Rewritten(p, bs[0]) + RewriteAll(p, bs[1..])
  {
    hide Rewrite;
  }

  lemma {:induction false} RewriteAllAppend(p: Pass, a: seq<DataBlock>, b: seq<DataBlock>)
    requires AllValid(a) && AllValid(b)
    ensures RewriteAll(p, a + b) == RewriteAll(p, a) + RewriteAll(p, b)
    decreases |a|
  {
    hide Rewrite, RewriteAll, Rewritten;
    NothingLost(p);
    if a == [] {
      assert a + b == b;
    } else {
      RewriteAllAppend(p, a[1..], b);
      assert (a + b)[1..] == a[1..] + b;
      RewriteAllCons(p, a);
      RewriteAllCons(p, a + b);
    }
  }

  lemma LostAppend(p: Pass, a: seq<DataBlock>, b: seq<DataBlock>)
    requires AllValid(a) && AllValid(b)
    ensures Lost(p, a + b) == Lost(p, a) + Lost(p, b)
  {
    hide Print, RewriteAll;
    RewriteAllAppend(p, a, b);
    PrintAppend(a, b);
    PrintAppend(RewriteAll(p, a), RewriteAll(p, b));
    PrintShrinks(p, a);
    PrintShrinks(p, b);
    PrintShrinks(p, a + b);
  }

  lemma OneRewritten(p: Pass, b: DataBlock)
    requires b.Valid()
    ensures Lost(p, [b]) == 1 + |b.payload| - |Remains(p, b)|
    ensures RewriteAll(p, [b]) == match Rewrite(p, b) case None => [] case Some(c) => [c]
  {
    hide Rewrite;
    PrintShrinks(p, [b]);
    assert [b][1..] == [];
  }

  lemma NothingLost(p: Pass)
    ensures Lost(p, []) == 0 && RewriteAll(p, []) == []
  {
  }

  lemma FullOfRound(p: Pass, b: DataBlock, rest: seq<byte>)
    requires b.Valid()
    ensures Full(Remains(p, b) + rest) == RewriteAll(p, [b]) + Full(rest)
  {
    hide Full, Rewrite;
    OneRewritten(p, b);
    match Rewrite(p, b)
    case None =>
      assert [] + rest == rest;
    case Some(c) =>
      FullBlock(c, rest);
  }

  /** The bookkeeping of one round below: how what the rest brings into view adds up. */
  lemma CutAddsUp(p: Pass, rest: seq<byte>, lost: nat)
    ensures var u, c, bs := WithZeros(rest, lost), Cut(rest), Full(rest);
      RewriteAll(p, Full(u)) + RewriteAll(p, Full(Cut(u) + Zeros(Lost(p, Full(u)))))
      == RewriteAll(p, bs) + RewriteAll(p, Full(c + Zeros(lost + Lost(p, bs))))
  {
    hide Full, Cut, RewriteAll, Zeros, Lost;
    var u, c, bs := WithZeros(rest, lost), Cut(rest), Full(rest);
    var x, z := Full(c + Zeros(lost)), Lost(p, bs);
    FullPadded(rest, lost);
    assert Full(u) == bs + x && Cut(u) == Cut(c + Zeros(lost));
    RewriteAllAppend(p, bs, x);
    LostAppend(p, bs, x);
    FullPadded(c + Zeros(lost), z);
    ZerosAppend(lost, z);
    assert c + Zeros(lost) + Zeros(z) == c + Zeros(lost + z);
    var y := Full(Cut(u) + Zeros(z));
    RewriteAllAppend(p, x, y);
    if x == [] {
      NothingLost(p);
    } else {
      CutRevealed(c, lost, z, Lost(p, x));
    }
  }

  function WithZeros(rest: seq<byte>, lost: nat): seq<byte> {
    rest + Zeros(lost)
  }

  /** A sweep that never moves dataEnd: what a walk finds afterwards is what it found before, rewritten, and
      then what the bytes taken out bring into view, rewritten too. */
  lemma {:induction false} ZeroSweep(p: Pass, t: seq<byte>)
    ensures Full(Sweep(p, t, |t|, 0).bytes)
         == RewriteAll(p, Full(t)) + RewriteAll(p, Full(Cut(t) + Zeros(Lost(p, Full(t)))))
    decreases NonZero(t)
  {
    hide Full, RewriteAll, Zeros, Lost, Head, Remains, Sweep, NonZero;
    FullRound(t);
    if Starts(t) {
      var b, rest := Head(t), Rest(t);
      var out := Remains(p, b);
      RemainsShorter(p, t);
      BlockSize(t);
      var lost := 1 + Len(t[0]) - |out|;
      SweepDecreases(t, lost);
      SweepRound(p, t, |t|, 0, lost, |t| - |out|, 0);
      var u := WithZeros(rest, lost);
      ZeroSweep(p, u);
      FullOfRound(p, b, Sweep(p, u, |u|, 0).bytes);
      CutAddsUp(p, rest, lost);
      OneRewritten(p, b);
      RewriteAllAppend(p, [b], Full(rest));
      LostAppend(p, [b], Full(rest));
    } else {
      SweepStops(p, t, |t|, 0);
      NothingLost(p);
      assert t + Zeros(0) == t by { NoZeros(t); }
    }
  }

  /** What the vendor pass brings into view of an extension whose byte 2 is zero. */
  function InView(tx: Tx, q: seq<byte>): seq<DataBlock>
    requires |q| == 128
  {
    Full(Cut(q[4..127]) + Zeros(Lost(tx.Vendor(), Full(q[4..127]))))
  }

  /** With byte 2 zero the whole filter lets only supported VICs through if and only if the vendor pass does not
      run, or what it brings into view names only supported ones. */
  lemma ZeroByte2Iff(tx: Tx, s: seq<byte>)
    requires |s| == 128 && s[0] == 2 && s[2] == 0
    ensures var q := SweepBlock(tx.Feature(), SweepBlock(tx.Video(), s));
      OnlySupported(Blocks(FilterExtension(s, tx)), tx.caps) <==> tx.vrr || OnlySupported(InView(tx, q), tx.caps)
  {
    hide OnlySupported, Sweep, FilterSlots, Seal, Sealed, Visit, Overrun, RewriteAll, Cut, Zeros, Lost, Svds;
    var q := SweepBlock(tx.Feature(), SweepBlock(tx.Video(), s));
    TwoPassesSound(tx, s);
    var t := q[4..127];
    assert Blocks(q) == Full(t);
    if tx.vrr {
      SealedBlocks(q);
    } else {
      var r := SweepBlock(tx.Vendor(), q);
      ZeroStays(tx.Vendor(), t, 123);
      SealedBlocks(r);
      ZeroSweep(tx.Vendor(), t);
      assert r[4..127] == Sweep(tx.Vendor(), t, 123, 0).bytes;
      VendorKeepsSupport(tx, Full(t), InView(tx, q));
    }
  }

  lemma VendorKeepsSupport(tx: Tx, bs: seq<DataBlock>, cs: seq<DataBlock>)
    requires AllValid(bs) && AllValid(cs) && OnlySupported(bs, tx.caps)
    ensures OnlySupported(RewriteAll(tx.Vendor(), bs) + RewriteAll(tx.Vendor(), cs), tx.caps)
       <==> OnlySupported(cs, tx.caps)
  {
    hide RewriteAll, Svds;
    forall y
      ensures Svds(y, RewriteAll(tx.Vendor(), bs) + RewriteAll(tx.Vendor(), cs)) == Svds(y, bs) + Svds(y, cs)
    {
      OtherPassesKeepSvds(tx.Vendor(), bs, y);
      OtherPassesKeepSvds(tx.Vendor(), cs, y);
      SvdsAppend(y, RewriteAll(tx.Vendor(), bs), RewriteAll(tx.Vendor(), cs));
    }
  }

  lemma {:induction false} SvdsAppend(y: bool, a: seq<DataBlock>, b: seq<DataBlock>)
    ensures Svds(y, a + b) == Svds(y, a) + Svds(y, b)
    decreases |a|
  {
    hide SvdsOf;
    if a == [] {
      assert a + b == b;
    } else {
      SvdsAppend(y, a[1..], b);
      assert (a + b)[1..] == a[1..] + b;
    }
  }

  /** Blocks of a tag that no pass looks at. */
  predicate Fillers(bs: seq<DataBlock>) {
    AllValid(bs) && forall i :: 0 <= i < |bs| ==> bs[i].tag == 1
  }

  /** A VRR block, fillers, and a video block whose last byte would lie at offset 127. With byte 2 zero the
      video pass cannot see the video block; the vendor pass takes the VRR block out and moves it into view. */
  lemma VendorPassRevealsBlock(tx: Tx, s: seq<byte>, fillers: seq<DataBlock>)
    requires !tx.vrr && !tx.caps.SupportsVic(99)
    requires Fillers(fillers) && |Print(fillers)| == 115
    requires s == [2, 3, 0, 0] + (DataBlock(3, [0x1a, 0, 0]).Encode() + (Print(fillers) + [0x44, 99, 99, 99])) + [0]
    ensures !OnlySupported(Blocks(FilterExtension(s, tx)), tx.caps)
  {
    hide Zeros, Visit, OnlySupported, Sweep, Settled, Print, SweepBlock, Blocks, Rewrite, Seal, FilterSlots, Sealed;
    var v, cut, zeros := DataBlock(3, [0x1a, 0, 0]), [0x44, 99, 99, 99], Zeros(4);
    var rest := Print(fillers) + cut;
    NothingToDo(tx.Video(), s, v, fillers, rest, cut);
    NothingToDo(tx.Feature(), s, v, fillers, rest, cut);
    var r := SweepBlock(tx.Vendor(), s);
    VendorSwept(tx, s, v, fillers, rest, cut);
    assert SweepExtension(s, tx) == r;
    assert FilterTimings(r, tx.caps) == r;
    SealedBlocks(r);
  }

  lemma FillersSettled(p: Pass, bs: seq<DataBlock>)
    requires Fillers(bs)
    ensures Settled(p, bs)
  {
  }

  /** Neither the video nor the feature pass finds anything to do there. */
  lemma NothingToDo(p: Pass, s: seq<byte>, v: DataBlock, fillers: seq<DataBlock>, rest: seq<byte>, cut: seq<byte>)
    requires !p.VendorPass? && v == DataBlock(3, [0x1a, 0, 0]) && Fillers(fillers) && |Print(fillers)| == 115
    requires cut == [0x44, 99, 99, 99] && rest == Print(fillers) + cut
    requires s == [2, 3, 0, 0] + (v.Encode() + rest) + [0]
    ensures SweepBlock(p, s) == s
  {
    hide Visit, Sweep, Settled, Print, Rewrite, Len, Starts, Fillers, SweepBlock, DataBlock.Encode;
    FillersValid(fillers);
    VendorIgnored(p, v);
    CutStarts(cut);
    var t := v.Encode() + rest;
    assert s[4..127] == t;
    VisitBlock(v, rest, 123);
    VisitList(fillers, cut, 119);
    VisitRound(cut, 4);
    assert fillers + [] == fillers;
    FillersSettled(p, fillers);
    SettledCons(p, v, fillers);
    SweepSettled(p, t, 123, 0);
    SweptNothing(p, s);
  }

  lemma SweptNothing(p: Pass, s: seq<byte>)
    requires |s| == 128 && s[0] == 2 && s[2] == 0 && Sweep(p, s[4..127], 123, 0) == Swept(s[4..127], 0)
    ensures SweepBlock(p, s) == s
  {
    hide Sweep;
  }

  lemma VendorIgnored(p: Pass, v: DataBlock)
    requires !p.VendorPass? && v == DataBlock(3, [0x1a, 0, 0])
    ensures v.Valid() && Rewrite(p, v) == Some(v)
  {
    hide ClearFeatures, KeepVics;
    assert v.payload[..3][0] == 0x1a;
  }

  lemma CutStarts(cut: seq<byte>)
    requires cut == [0x44, 99, 99, 99]
    ensures !Starts(cut)
  {
  }

  lemma VendorSwept(tx: Tx, s: seq<byte>, v: DataBlock, fillers: seq<DataBlock>, rest: seq<byte>, cut: seq<byte>)
    requires !tx.caps.SupportsVic(99) && v == DataBlock(3, [0x1a, 0, 0])
    requires Fillers(fillers) && |Print(fillers)| == 115
    requires cut == [0x44, 99, 99, 99] && rest == Print(fillers) + cut
    requires s == [2, 3, 0, 0] + (v.Encode() + rest) + [0]
    ensures var r := SweepBlock(tx.Vendor(), s);
      r[0] == 2 && r[2] == 0 && !OnlySupported(Blocks(r), tx.caps)
  {
    hide Visit, Sweep, Settled, Print, OnlySupported, Zeros, SweepBlock, Blocks, Rewrite, Head, Rest;
    var p, b := tx.Vendor(), DataBlock(2, [99, 99, 99, 0]);
    var t, u := v.Encode() + rest, rest + Zeros(4);
    assert s[4..127] == t;
    StartsEncoded(v, rest);
    VendorRemoved(tx, v);
    SweepRound(p, t, 123, 0, 4, 123, 0);
    Revealed(fillers, cut, b);
    FillersSettled(p, fillers);
    LastSettled(p, fillers, b);
    SweepSettled(p, u, 123, 0);
    assert [] + u == u;
    SweptBytes(p, s, u, 0);
    LastUnsupported(fillers, b, tx.caps);
  }

  lemma VendorRemoved(tx: Tx, v: DataBlock)
    requires v == DataBlock(3, [0x1a, 0, 0])
    ensures Remains(tx.Vendor(), v) == []
  {
    assert v.payload[..3] == [0x1a, 0x00, 0x00];
  }

  lemma Revealed(fillers: seq<DataBlock>, cut: seq<byte>, b: DataBlock)
    requires Fillers(fillers) && |Print(fillers)| == 115
    requires cut == [0x44, 99, 99, 99] && b == DataBlock(2, [99, 99, 99, 0])
    ensures Visit(Print(fillers) + cut + Zeros(4), 123) == fillers + [b]
  {
    hide Visit, Print, Zeros, Fillers;
    assert AllValid(fillers) by { FillersValid(fillers); }
    ZerosAppend(1, 3);
    OneZero();
    assert Print(fillers) + cut + Zeros(4) == Print(fillers) + (b.Encode() + Zeros(3));
    VisitList(fillers, b.Encode() + Zeros(3), 123);
    VisitBlock(b, Zeros(3), 8);
    ZerosAt(3);
    NothingVisited(Zeros(3));
    assert [b] + [] == [b];
  }

  lemma FillersValid(bs: seq<DataBlock>)
    requires Fillers(bs)
    ensures AllValid(bs)
  {
  }

  lemma NothingVisited(t: seq<byte>)
    requires ZeroFrom(t, 0)
    ensures Visit(t, 3) == []
  {
  }

  lemma OneZero()
    ensures Zeros(1) == [0]
  {
  }

  lemma LastSettled(p: Pass, bs: seq<DataBlock>, b: DataBlock)
    requires AllValid(bs) && Settled(p, bs) && p.VendorPass? && b.Valid() && b.tag == 2
    ensures Settled(p, bs + [b])
  {
  }

  lemma {:induction false} LastUnsupported(bs: seq<DataBlock>, b: DataBlock, caps: TxCaps)
    requires b == DataBlock(2, [99, 99, 99, 0]) && !caps.SupportsVic(99)
    ensures !OnlySupported(bs + [b], caps)
  {
    LastSvds(bs, b);
    assert b.payload[0] == 99 && Vic(99) == 99;
  }

  lemma {:induction false} LastSvds(bs: seq<DataBlock>, b: DataBlock)
    requires b.tag == 2
    ensures Svds(false, bs + [b]) == Svds(false, bs) + b.payload
  {
    if bs == [] {
      assert [] + [b] == [b] && [b][1..] == [];
    } else {
      LastSvds(bs[1..], b);
      assert (bs + [b])[1..] == bs[1..] + [b];
    }
  }

  lemma SealedBlocks(x: seq<byte>)
    requires |x| == 128
    ensures Blocks(Seal(x)) == Blocks(x)
  {
    hide Visit, Sealed, Checksum;
    var r := Seal(x);
    assert r[2] == r[..127][2] == x[..127][2] == x[2];
    assert r[4..127] == r[..127][4..] == x[..127][4..] == x[4..127];
  }
}
