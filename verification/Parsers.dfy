/** The read-only walkers: the VICs and the HDMI Forum features an EDID announces. */
module Parsers {
  import opened Bytes
  import opened Timing
  import opened DataBlocks
  import opened Passes

  datatype Feature = Allm | Vrr

  /** What an HDMI Forum block says of a feature. */
  predicate Announces(b: DataBlock, f: Feature) {
    && IsHdmiForum(b)
    && match f
       case Allm => |b.payload| >= 8 && HasBit(b.payload[7], 2)
       case Vrr =>
         && |b.payload| >= 10
         && b.payload[8] % 64 > 0
         && Word(b.payload[9], b.payload[8] / 64) > 0
  }

  predicate AnyAnnounces(bs: seq<DataBlock>, f: Feature) {
    exists i :: 0 <= i < |bs| && Announces(bs[i], f)
  }

  function VicSet(payload: seq<byte>): set<int> {
    set v | v in payload :: Vic(v)
  }

  /** The VICs of the video blocks of a list. */
  function Vics(bs: seq<DataBlock>): set<int> {
    if bs == [] then {}
    else (if bs[0].tag == 2 then VicSet(bs[0].payload) else {}) + Vics(bs[1..])
  }

  /** Extension number i counts: it lies in the buffer and is a CEA extension. */
  predicate IsCea(e: seq<byte>, i: nat) {
    128 * i + 256 <= |e| && e[128 * i + 128] == 2
  }

  /** The VICs the first n extensions announce. */
  function EdidVics(e: seq<byte>, n: nat): set<int> {
    if n == 0 then {}
    else EdidVics(e, n - 1) + if IsCea(e, n - 1) then Vics(Blocks(Block(e, n))) else {}
  }

  predicate ExtensionAnnounces(e: seq<byte>, i: nat, f: Feature) {
    IsCea(e, i) && AnyAnnounces(Blocks(Block(e, i + 1)), f)
  }

  /** Some extension among the first n announces the feature. */
  predicate EdidAnnounces(e: seq<byte>, n: nat, f: Feature) {
    exists i :: 0 <= i < n && ExtensionAnnounces(e, i, f)
  }

  /** The guard and the block at a walker's offset, for a walk over e itself. */
  lemma BlockThere(e: seq<byte>, ext: nat, offset: nat)
    requires ext + 128 <= |e| && ext + 4 <= offset < ext + 127
    ensures var t, h := e[offset..ext + 127], e[offset];
      && (Starts(t) <==> !(Len(h) == 0 || offset + Len(h) >= ext + 127))
      && (Starts(t) ==>
            && Head(t) == DataBlock(Tag(h), e[offset + 1..offset + 1 + Len(h)])
            && Rest(t) == e[offset + (Len(h) + 1)..ext + 127])
  {
    var t, h := e[offset..ext + 127], e[offset];
    assert t[0] == h;
    if Starts(t) {
      SliceIn(e, offset, ext + 127, 1, 1 + Len(h));
    }
  }

  lemma VisitRound(t: seq<byte>, limit: int)
    ensures limit > 0 && Starts(t) ==> Visit(t, limit) == [Head(t)] + Visit(Rest(t), limit - 1 - Len(t[0]))
    ensures !(limit > 0 && Starts(t)) ==> Visit(t, limit) == []
  {
  }

  lemma BlocksThere(e: seq<byte>, i: nat, ext: nat, dataEnd: int)
    requires 128 * i + 256 <= |e| && ext == 128 + i * 128
    requires dataEnd == if 4 <= e[ext + 2] <= 127 then e[ext + 2] else 127
    ensures ext + 128 <= |e| && Blocks(Block(e, i + 1)) == Visit(e[ext + 4..ext + 127], ext + dataEnd - (ext + 4))
    ensures Block(e, i + 1)[0] == e[ext]
  {
    hide Visit;
    SliceIn(e, ext, ext + 128, 4, 127);
    assert Block(e, i + 1) == e[ext..ext + 128];
  }

  /** txVics[v] is set for every VIC announced, and no other entry changes; none at all for a short EDID or
      table. */
  method ParseTxEdidVics(e: seq<byte>, txVics: array<byte>)
    modifies txVics
    ensures forall v :: 0 <= v < txVics.Length ==>
      txVics[v] == if |e| >= 128 && txVics.Length >= 256 && v in EdidVics(e, e[0x7E]) then 1 else old(txVics[v])
  {
    hide Visit, Blocks, Vics, Block, Starts, Head, Rest, Len, Tag;
    if txVics.Length < 256 || |e| < 128 {
      return;
    }
    ghost var vics: set<int> := {};
    for i := 0 to e[0x7E]
      invariant vics == EdidVics(e, i)
      invariant forall v :: 0 <= v < txVics.Length ==> txVics[v] == if v in vics then 1 else old(txVics[v])
    {
      var extOffset := 128 + i * 128;
      if extOffset + 128 > |e| || e[extOffset] != 2 {
        continue;
      }
      var dtdStart: int := e[extOffset + 2];
      var dataEnd: int := if dtdStart != 0 then dtdStart else 127;
      if dataEnd < 4 || dataEnd > 127 {
        dataEnd := 127;
      }
      BlocksThere(e, i, extOffset, dataEnd);
      ParseExtension(e, extOffset, dataEnd, txVics);
      vics := vics + Vics(Blocks(Block(e, i + 1)));
    }
  }

  lemma VicSetNext(p: seq<byte>, v: byte)
    ensures VicSet(p + [v]) == VicSet(p) + {v % 128 as int}
    ensures VicSet([]) == {}
  {
    forall x: int ensures x in VicSet(p + [v]) <==> x in VicSet(p) + {v % 128 as int} {
      if x in VicSet(p) {
        var w :| w in p && Vic(w) == x;
        assert w in p + [v];
      }
      assert v in p + [v];
    }
  }

  /** The entries for one video block. */
  method MarkVics(payload: seq<byte>, txVics: array<byte>)
    requires txVics.Length >= 256
    modifies txVics
    ensures forall v :: 0 <= v < txVics.Length ==> txVics[v] == if v in VicSet(payload) then 1 else old(txVics[v])
  {
    hide VicSet;
    VicSetNext([], 0);
    for i := 0 to |payload|
      invariant forall v :: 0 <= v < txVics.Length ==>
        txVics[v] == if v in VicSet(payload[..i]) then 1 else old(txVics[v])
    {
      VicSetNext(payload[..i], payload[i]);
      assert payload[..i + 1] == payload[..i] + [payload[i]];
      txVics[payload[i] % 128] := 1;
    }
    assert payload[..|payload|] == payload;
  }

  /** The walk over one extension. */
  method ParseExtension(e: seq<byte>, extOffset: nat, dataEnd: int, txVics: array<byte>)
    requires extOffset + 128 <= |e| && 4 <= dataEnd <= 127 && txVics.Length >= 256
    modifies txVics
    ensures var vics := Vics(Visit(e[extOffset + 4..extOffset + 127], extOffset + dataEnd - (extOffset + 4)));
      forall v :: 0 <= v < txVics.Length ==> txVics[v] == if v in vics then 1 else old(txVics[v])
  {
    hide Visit, Starts, Head, Rest, Len, Tag, VicSet;
    var offset := extOffset + 4;
    ghost var all := Vics(Visit(e[extOffset + 4..extOffset + 127], extOffset + dataEnd - (extOffset + 4)));
    ghost var vics: set<int> := {};
    while offset < extOffset + dataEnd
      invariant extOffset + 4 <= offset <= extOffset + 127
      invariant all == vics + Vics(Visit(e[offset..extOffset + 127], extOffset + dataEnd - offset))
      invariant forall v :: 0 <= v < txVics.Length ==> txVics[v] == if v in vics then 1 else old(txVics[v])
      decreases extOffset + dataEnd - offset
    {
      ghost var t := e[offset..extOffset + 127];
      BlockThere(e, extOffset, offset);
      VisitRound(t, extOffset + dataEnd - offset);
      var tag, len := Tag(e[offset]), Len(e[offset]);
      if len == 0 || offset + len >= extOffset + 127 {
        break;
      }
      if tag == 2 {
        MarkVics(e[offset + 1..offset + 1 + len], txVics);
        vics := vics + VicSet(e[offset + 1..offset + 1 + len]);
      }
      offset := offset + (len + 1);
    }
    VisitRound(e[offset..extOffset + 127], extOffset + dataEnd - offset);
  }

  /** The feature 1 iff some extension the EDID counts announces it. */
  method ParseTxFeatureSupport(e: seq<byte>, feature: Feature) returns (supported: bool)
    ensures supported <==> |e| >= 128 && EdidAnnounces(e, e[0x7E], feature)
  {
    hide Blocks, Block, AnyAnnounces, Visit;
    if |e| < 128 {
      return false;
    }
    for i := 0 to e[0x7E]
      invariant !EdidAnnounces(e, i, feature)
    {
      var extOffset := 128 + i * 128;
      if extOffset + 128 > |e| || e[extOffset] != 2 {
        continue;
      }
      var dtdStart: int := e[extOffset + 2];
      var dataEnd: int := if dtdStart != 0 then dtdStart else 127;
      if dataEnd < 4 || dataEnd > 127 {
        dataEnd := 127;
      }
      BlocksThere(e, i, extOffset, dataEnd);
      var found := FeatureInExtension(e, extOffset, dataEnd, feature);
      if found {
        assert ExtensionAnnounces(e, i, feature);
        return true;
      }
    }
    return false;
  }

  lemma AnnouncesFirst(b: DataBlock, bs: seq<DataBlock>, f: Feature)
    ensures AnyAnnounces([b] + bs, f) <==> Announces(b, f) || AnyAnnounces(bs, f)
    ensures !AnyAnnounces([], f)
  {
    hide Announces;
    if AnyAnnounces(bs, f) {
      var i :| 0 <= i < |bs| && Announces(bs[i], f);
      assert ([b] + bs)[i + 1] == bs[i];
    }
    assert ([b] + bs)[0] == b;
    assert forall i :: 1 <= i < |[b] + bs| ==> ([b] + bs)[i] == bs[i - 1];
  }

  method FeatureInExtension(e: seq<byte>, extOffset: nat, dataEnd: int, feature: Feature) returns (found: bool)
    requires extOffset + 128 <= |e| && 4 <= dataEnd <= 127
    ensures found <==>
      AnyAnnounces(Visit(e[extOffset + 4..extOffset + 127], extOffset + dataEnd - (extOffset + 4)), feature)
  {
    hide Visit, Starts, Head, Rest, Len, Tag, AnyAnnounces, Announces;
    var offset := extOffset + 4;
    ghost var any := AnyAnnounces(Visit(e[extOffset + 4..extOffset + 127], extOffset + dataEnd - (extOffset + 4)),
                                  feature);
    while offset < extOffset + dataEnd
      invariant extOffset + 4 <= offset <= extOffset + 127
      invariant any <==> AnyAnnounces(Visit(e[offset..extOffset + 127], extOffset + dataEnd - offset), feature)
      decreases extOffset + dataEnd - offset
    {
      ghost var t := e[offset..extOffset + 127];
      BlockThere(e, extOffset, offset);
      VisitRound(t, extOffset + dataEnd - offset);
      var tag, len := Tag(e[offset]), Len(e[offset]);
      if len == 0 || offset + len >= extOffset + 127 {
        break;
      }
      AnnouncesFirst(Head(t), Visit(Rest(t), extOffset + dataEnd - (offset + (len + 1))), feature);
      var announced := BlockAnnounces(tag, e[offset + 1..offset + 1 + len], feature);
      if announced {
        return true;
      }
      offset := offset + (len + 1);
    }
    VisitRound(e[offset..extOffset + 127], extOffset + dataEnd - offset);
    AnnouncesFirst(DataBlock(0, []), [], feature);
    return false;
  }

  method BlockAnnounces(tag: nat, payload: seq<byte>, feature: Feature) returns (announced: bool)
    ensures announced <==> Announces(DataBlock(tag, payload), feature)
  {
    var len := |payload|;
    var forum := false;
    if tag == 3 && len >= 3 && payload[0] == 0xd8 && payload[1] == 0x5d && payload[2] == 0xc4 {
      assert payload[..3] == [0xd8, 0x5d, 0xc4];
      forum := true;
    } else if tag == 7 && len >= 1 && payload[0] == 0x79 {
      forum := true;
    } else if len >= 3 {
      assert payload[..3][0] == payload[0] && payload[..3][1] == payload[1] && payload[..3][2] == payload[2];
    }
    if forum {
      if feature.Allm? && len >= 8 && HasBit(payload[7], 2) {
        return true;
      }
      if feature.Vrr? && len >= 10 {
        var vrrMin := payload[8] % 64;
        var vrrMax := Word(payload[9], payload[8] / 64);
        if vrrMin > 0 && vrrMax > 0 {
          return true;
        }
      }
    }
    return false;
  }
}
