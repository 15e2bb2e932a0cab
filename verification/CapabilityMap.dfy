/** The YCbCr 4:2:0 capability map, whose bits number the short video descriptors that the filter drops. */
module CapabilityMap {
  import opened Bytes
  import opened Timing
  import opened DataBlocks
  import opened Passes
  import opened FilterLists

  predicate IsCapabilityMap(b: DataBlock) {
    b.tag == 7 && |b.payload| >= 1 && b.payload[0] == 0x0f
  }

  /** The bytes of the first capability map of a list. */
  function MapOf(bs: seq<DataBlock>): Option<seq<byte>> {
    if bs == [] then None
    else if IsCapabilityMap(bs[0]) then Some(bs[0].payload[1..])
    else MapOf(bs[1..])
  }

  function Power2(n: nat): (r: nat)
    ensures r > 0
  {
    if n == 0 then 1 else 2 * Power2(n - 1)
  }

  /** Whether a map marks descriptor number i: by its bit, or by being empty, which marks them all. */
  predicate Bit(m: seq<byte>, i: nat) {
    m == [] || (i / 8 < |m| && m[i / 8] / Power2(i % 8) % 2 == 1)
  }

  /** The VICs that a map marks among descriptors, the first of which has number i. */
  function Marked(svds: seq<byte>, i: nat, m: seq<byte>): set<int> {
    if svds == [] then {}
    else (if Bit(m, i) then {Vic(svds[0]) as int} else {}) + Marked(svds[1..], i + 1, m)
  }

  /** The VICs a block list offers in 4:2:0 by way of its map. */
  function MarkedVics(bs: seq<DataBlock>): set<int> {
    match MapOf(bs)
    case None => {}
    case Some(m) => Marked(Svds(false, bs), 0, m)
  }

  // ----- What the filter does to the map -----

  lemma MapUnchanged(p: Pass, b: DataBlock)
    requires b.Valid()
    ensures IsCapabilityMap(b) ==> Rewrite(p, b) == Some(b)
    ensures Rewrite(p, b).Some? ==> (IsCapabilityMap(Rewrite(p, b).value) <==> IsCapabilityMap(b))
  {
    hide ClearFeatures, KeepVics;
    if p.FeaturePass? && IsHdmiForum(b) {
      ClearKeepsStart(b.payload, p.allm, p.vrr);
    }
  }

  lemma {:induction false} MapKept(p: Pass, bs: seq<DataBlock>)
    requires AllValid(bs)
    ensures MapOf(RewriteAll(p, bs)) == MapOf(bs)
  {
    hide Rewrite;
    if bs != [] {
      MapKept(p, bs[1..]);
      MapUnchanged(p, bs[0]);
      var r := RewriteAll(p, bs);
      if Rewrite(p, bs[0]).Some? {
        assert r[1..] == RewriteAll(p, bs[1..]);
      }
    }
  }

  lemma FilterKeepsMap(tx: Tx, bs: seq<DataBlock>)
    requires AllValid(bs)
    ensures MapOf(RunFilter(tx, bs)) == MapOf(bs)
  {
    hide RewriteAll, MapOf;
    var b1 := RewriteAll(tx.Video(), bs);
    var b2 := RewriteAll(tx.Feature(), b1);
    MapKept(tx.Video(), bs);
    MapKept(tx.Feature(), b1);
    MapKept(tx.Vendor(), b2);
  }

  // ----- Which marks survive -----

  /** No VIC is named twice. */
  predicate NamedOnce(svds: seq<byte>) {
    forall i, j :: 0 <= i < j < |svds| ==> Vic(svds[i]) != Vic(svds[j])
  }

  /** For every supported descriptor from number i on, which the filter makes number j and following: if it is
      marked by its old number, then also by its new one. */
  predicate MarksStay(svds: seq<byte>, i: nat, j: nat, m: seq<byte>, caps: TxCaps) {
    if svds == [] then true
    else if caps.SupportsVic(Vic(svds[0])) then
      (Bit(m, i) ==> Bit(m, j)) && MarksStay(svds[1..], i + 1, j + 1, m, caps)
    else MarksStay(svds[1..], i + 1, j, m, caps)
  }

  /** The other way round: a descriptor marked by its new number was marked by its old one. */
  predicate NoNewMarks(svds: seq<byte>, i: nat, j: nat, m: seq<byte>, caps: TxCaps) {
    if svds == [] then true
    else if caps.SupportsVic(Vic(svds[0])) then
      (Bit(m, j) ==> Bit(m, i)) && NoNewMarks(svds[1..], i + 1, j + 1, m, caps)
    else NoNewMarks(svds[1..], i + 1, j, m, caps)
  }

  lemma {:induction false} KeepFirst(svds: seq<byte>, caps: TxCaps)
    requires svds != []
    ensures KeepVics(svds, caps)
         == (if caps.SupportsVic(Vic(svds[0])) then [svds[0]] else []) + KeepVics(svds[1..], caps)
  {
    hide KeepVics;
    KeepVicsEmpty(caps);
    KeepVicsLast([], svds[0], caps);
    assert [] + [svds[0]] == [svds[0]] && svds == [svds[0]] + svds[1..];
    KeepVicsAppend([svds[0]], svds[1..], caps);
  }

  lemma {:induction false} MarkedAreNamed(svds: seq<byte>, i: nat, m: seq<byte>)
    ensures forall v :: v in Marked(svds, i, m) ==> exists k :: 0 <= k < |svds| && Vic(svds[k]) == v
  {
    hide Bit, Vic;
    if svds != [] {
      MarkedAreNamed(svds[1..], i + 1, m);
      forall v | v in Marked(svds, i, m) ensures exists k :: 0 <= k < |svds| && Vic(svds[k]) == v {
        if v in Marked(svds[1..], i + 1, m) {
          var k :| 0 <= k < |svds[1..]| && Vic(svds[1..][k]) == v;
          assert svds[k + 1] == svds[1..][k];
        } else {
          assert Vic(svds[0]) == v;
        }
      }
    }
  }

  lemma MarkedFirst(x: byte, svds: seq<byte>, i: nat, m: seq<byte>)
    ensures Marked([x] + svds, i, m) == (if Bit(m, i) then {Vic(x) as int} else {}) + Marked(svds, i + 1, m)
  {
    hide Bit, Vic;
    assert ([x] + svds)[1..] == svds;
  }

  /** The kept descriptors name no VIC of the first one again. */
  lemma FirstIsAlone(x: byte, kept: seq<byte>, i: nat, m: seq<byte>)
    requires NamedOnce([x] + kept)
    ensures Vic(x) as int !in Marked(kept, i, m)
  {
    hide Bit, Vic, Marked;
    MarkedAreNamed(kept, i, m);
    var p := [x] + kept;
    forall k | 0 <= k < |kept| ensures Vic(kept[k]) != Vic(x) {
      assert p[0] == x && p[k + 1] == kept[k];
    }
  }

  /** Nor does any descriptor behind it, as such a one would be kept. */
  lemma FirstIsAloneInTail(x: byte, tail: seq<byte>, caps: TxCaps, i: nat, m: seq<byte>)
    requires caps.SupportsVic(Vic(x)) && NamedOnce([x] + KeepVics(tail, caps))
    ensures Vic(x) as int !in Marked(tail, i, m)
  {
    hide Bit, Vic, Marked, KeepVics;
    MarkedAreNamed(tail, i, m);
    var kept := KeepVics(tail, caps);
    var p := [x] + kept;
    assert forall k :: 0 <= k < |kept| ==> p[k + 1] == kept[k] && Vic(p[0]) != Vic(p[k + 1]);
    forall k | 0 <= k < |tail| ensures Vic(tail[k]) != Vic(x) {
      assert tail[k] in tail;
      assert caps.SupportsVic(Vic(tail[k])) ==> tail[k] in kept;
    }
  }

  lemma MarkedAreSupported(svds: seq<byte>, caps: TxCaps, j: nat, m: seq<byte>)
    ensures forall v :: v in Marked(KeepVics(svds, caps), j, m) ==> caps.SupportsVic(v)
  {
    hide Bit, Vic, Marked, KeepVics;
    var kept := KeepVics(svds, caps);
    MarkedAreNamed(kept, j, m);
    assert forall k :: 0 <= k < |kept| ==> kept[k] in kept;
  }

  lemma NamedOnceBehind(x: byte, kept: seq<byte>)
    requires NamedOnce([x] + kept)
    ensures NamedOnce(kept)
  {
    hide Vic;
    var p := [x] + kept;
    assert forall k :: 0 <= k < |kept| ==> p[k + 1] == kept[k];
  }

  /** The supported VICs of `before` are among those of `after`. */
  predicate SupportedWithin(before: set<int>, after: set<int>, caps: TxCaps) {
    forall v :: v in before && caps.SupportsVic(v) ==> v in after
  }

  lemma {:induction false} StayIff(svds: seq<byte>, i: nat, j: nat, m: seq<byte>, caps: TxCaps)
    requires NamedOnce(KeepVics(svds, caps))
    ensures SupportedWithin(Marked(svds, i, m), Marked(KeepVics(svds, caps), j, m), caps)
       <==> MarksStay(svds, i, j, m, caps)
  {
    hide Bit, Vic, Marked, KeepVics, NamedOnce;
    NothingMarked(i, m);
    if svds != [] {
      var x, tail := svds[0], svds[1..];
      var kept := KeepVics(tail, caps);
      KeepFirst(svds, caps);
      assert svds == [x] + tail;
      MarkedFirst(x, tail, i, m);
      if caps.SupportsVic(Vic(x)) {
        NamedOnceBehind(x, kept);
        MarkedFirst(x, kept, j, m);
        FirstIsAlone(x, kept, j + 1, m);
        FirstIsAloneInTail(x, tail, caps, i + 1, m);
        StayIff(tail, i + 1, j + 1, m, caps);
      } else {
        assert [] + kept == kept;
        StayIff(tail, i + 1, j, m, caps);
      }
    }
  }

  lemma {:induction false} NoNewIff(svds: seq<byte>, i: nat, j: nat, m: seq<byte>, caps: TxCaps)
    requires NamedOnce(KeepVics(svds, caps))
    ensures Marked(KeepVics(svds, caps), j, m) <= Marked(svds, i, m) <==> NoNewMarks(svds, i, j, m, caps)
  {
    hide Bit, Vic, Marked, KeepVics, NamedOnce;
    NothingMarked(j, m);
    KeepVicsEmpty(caps);
    if svds != [] {
      var x, tail := svds[0], svds[1..];
      var kept := KeepVics(tail, caps);
      KeepFirst(svds, caps);
      assert svds == [x] + tail;
      MarkedFirst(x, tail, i, m);
      if caps.SupportsVic(Vic(x)) {
        NamedOnceBehind(x, kept);
        MarkedFirst(x, kept, j, m);
        FirstIsAlone(x, kept, j + 1, m);
        FirstIsAloneInTail(x, tail, caps, i + 1, m);
        NoNewIff(tail, i + 1, j + 1, m, caps);
      } else {
        assert [] + kept == kept;
        MarkedAreSupported(tail, caps, j, m);
        NoNewIff(tail, i + 1, j, m, caps);
      }
    }
  }

  lemma NothingMarked(i: nat, m: seq<byte>)
    ensures Marked([], i, m) == {}
  {
  }

  // ----- The filter -----

  /** Where the descriptors kept name no VIC twice: the supported VICs the map marks stay marked if and only if
      none of their descriptors moves from a set bit to a clear one, and no other VIC becomes marked if and only
      if none moves from a clear bit to a set one. */
  lemma FilteredMarks(tx: Tx, bs: seq<DataBlock>, m: seq<byte>)
    requires AllValid(bs) && MapOf(bs) == Some(m) && NamedOnce(KeepVics(Svds(false, bs), tx.caps))
    ensures var before, after := MarkedVics(bs), MarkedVics(RunFilter(tx, bs));
      && (SupportedWithin(before, after, tx.caps) <==> MarksStay(Svds(false, bs), 0, 0, m, tx.caps))
      && (after <= before <==> NoNewMarks(Svds(false, bs), 0, 0, m, tx.caps))
  {
    hide RunFilter, Marked, KeepVics, MarksStay, NoNewMarks, NamedOnce, SupportedWithin, MapOf, Svds;
    FilterKeepsMap(tx, bs);
    FilterMeaning(tx, bs, false);
    StayIff(Svds(false, bs), 0, 0, m, tx.caps);
    NoNewIff(Svds(false, bs), 0, 0, m, tx.caps);
  }

  /** Nothing changes where every descriptor is supported. */
  lemma {:induction false} NothingMoves(svds: seq<byte>, i: nat, m: seq<byte>, caps: TxCaps)
    requires forall v :: v in svds ==> caps.SupportsVic(Vic(v))
    ensures MarksStay(svds, i, i, m, caps) && NoNewMarks(svds, i, i, m, caps)
  {
    hide Bit, Vic;
    if svds != [] {
      assert svds[0] in svds && forall v :: v in svds[1..] ==> v in svds;
      NothingMoves(svds[1..], i + 1, m, caps);
    }
  }

  /** Of the descriptors 1, 16 and 31 the map marks the second, VIC 16. Without VIC 1 on the TX the mark falls
      to VIC 31. */
  lemma MarkMovesToAnother(tx: Tx, bs: seq<DataBlock>)
    requires !tx.caps.SupportsVic(1) && tx.caps.SupportsVic(16) && tx.caps.SupportsVic(31)
    requires bs == [DataBlock(2, [1, 16, 31]), DataBlock(7, [0x0f, 2])]
    ensures MarkedVics(bs) == {16} && MarkedVics(RunFilter(tx, bs)) == {31}
  {
    hide RunFilter, Marked, KeepVics, Bit;
    var m: seq<byte> := [2];
    assert MapOf(bs) == Some(m) by {
      assert bs[1..][0].payload[1..] == m;
    }
    SvdsOfBoth(bs);
    FilterKeepsMap(tx, bs);
    FilterMeaning(tx, bs, false);
    BitsOfTwo(m);
    KeptTwo(tx.caps);
    MarkedThree(m);
  }

  lemma SvdsOfBoth(bs: seq<DataBlock>)
    requires bs == [DataBlock(2, [1, 16, 31]), DataBlock(7, [0x0f, 2])]
    ensures Svds(false, bs) == [1, 16, 31]
  {
    assert bs[1..] == [bs[1]] && bs[1..][1..] == [];
    assert Svds(false, bs[1..]) == SvdsOf(false, bs[1]) + Svds(false, []) == [];
    assert Svds(false, bs) == bs[0].payload + [] == bs[0].payload;
  }

  lemma BitsOfTwo(m: seq<byte>)
    requires m == [2]
    ensures !Bit(m, 0) && Bit(m, 1) && !Bit(m, 2)
  {
    assert Power2(0) == 1 && Power2(1) == 2 && Power2(2) == 4;
  }

  /** Bits are numbered from the lowest of each byte on, byte after byte. */
  lemma BitOrder(i: nat)
    ensures Bit([0x80, 0x01], i) <==> i == 7 || i == 8
  {
    hide Power2, Bit;
    var m := [0x80, 0x01];
    BitByte(m, i);
    if i < 16 {
      Powers(i % 8);
      if i < 8 {
        HighestBit(i % 8, 0x80);
      } else {
        LowestBit(i % 8, 0x01);
      }
    }
  }

  lemma BitByte(m: seq<byte>, i: nat)
    requires m == [0x80, 0x01]
    ensures Bit(m, i) <==> i < 16 && (if i < 8 then 0x80 else 0x01) / Power2(i % 8) % 2 == 1
  {
    hide Power2;
  }

  lemma HighestBit(k: nat, b: int)
    requires k < 8 && b == 0x80
    ensures b / Power2(k) % 2 == 1 <==> k == 7
  {
    hide Power2;
    Powers(k);
  }

  lemma LowestBit(k: nat, b: int)
    requires k < 8 && b == 0x01
    ensures b / Power2(k) % 2 == 1 <==> k == 0
  {
    hide Power2;
    Powers(k);
  }

  lemma Powers(k: nat)
    requires k < 8
    ensures Power2(k) == if k == 0 then 1 else if k == 1 then 2 else if k == 2 then 4 else if k == 3 then 8
                         else if k == 4 then 16 else if k == 5 then 32 else if k == 6 then 64 else 128
  {
    assert Power2(3) == 8 && Power2(6) == 64;
  }

  lemma KeptTwo(caps: TxCaps)
    requires !caps.SupportsVic(1) && caps.SupportsVic(16) && caps.SupportsVic(31)
    ensures KeepVics([1, 16, 31], caps) == [16, 31]
  {
    hide KeepVics;
    var p: seq<byte> := [1, 16, 31];
    KeepFirst(p, caps);
    KeepFirst(p[1..], caps);
    KeepFirst(p[2..], caps);
    KeepVicsEmpty(caps);
    assert p[1..][1..] == p[2..] && p[2..][1..] == [];
  }

  lemma MarkedThree(m: seq<byte>)
    requires !Bit(m, 0) && Bit(m, 1) && !Bit(m, 2)
    ensures Marked([1, 16, 31], 0, m) == {16} && Marked([16, 31], 0, m) == {31}
  {
    hide Bit, Marked;
    NothingMarked(3, m);
    NothingMarked(2, m);
    MarkedFirst(31, [], 2, m);
    MarkedFirst(16, [31], 1, m);
    MarkedFirst(1, [16, 31], 0, m);
    MarkedFirst(31, [], 1, m);
    MarkedFirst(16, [31], 0, m);
    assert [31 as byte] + [] == [31] && [16 as byte] + [31] == [16, 31] && [1 as byte] + [16, 31] == [1, 16, 31];
  }
}
