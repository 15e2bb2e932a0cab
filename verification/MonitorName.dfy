/** Which monitor name the sources see. */
module MonitorName {
  import opened Bytes
  import opened Timing
  import opened EdidFilter
  import opened EdidTheorems
  import opened EdidPatch
  import opened EdidPipeline
  import opened EdidLoaded

  /** The 13 bytes of the first monitor name among the descriptors of a base block. */
  function NameOf(s: seq<byte>): Option<seq<byte>>
    requires |s| >= 128
  {
    match FindName(s, 0x36)
    case None => None
    case Some(off) => Some(s[off + 5..off + 18])
  }

  // ----- Names by slot -----

  predicate IsNameSlot(d: seq<byte>)
    requires |d| == 18
  {
    d[0] == 0 && d[1] == 0 && d[3] == 0xFC
  }

  lemma NameInSlot(s: seq<byte>, k: nat)
    requires |s| == 128 && k < 4
    ensures IsName(s, 0x36 + 18 * k) <==> IsNameSlot(BaseSlot(s, k))
    ensures s[0x36 + 18 * k + 5..0x36 + 18 * k + 18] == BaseSlot(s, k)[5..18]
  {
    hide BaseSlot;
    BaseSlotIs(s, k);
    SliceIn(s, 0x36 + 18 * k, 0x36 + 18 * k + 18, 5, 18);
  }

  /** NameOf, slot by slot. */
  function NameFrom(s: seq<byte>, k: nat): Option<seq<byte>>
    requires |s| == 128 && k <= 4
    decreases 4 - k
  {
    if k == 4 then None
    else if IsNameSlot(BaseSlot(s, k)) then Some(BaseSlot(s, k)[5..18])
    else NameFrom(s, k + 1)
  }

  lemma {:induction false} NameBySlots(s: seq<byte>, k: nat)
    requires |s| == 128 && k <= 4
    ensures match FindName(s, 0x36 + 18 * k)
            case None => NameFrom(s, k) == None
            case Some(off) => NameFrom(s, k) == Some(s[off + 5..off + 18])
    decreases 4 - k
  {
    hide BaseSlot, IsName, IsNameSlot;
    if k < 4 {
      NameInSlot(s, k);
      NameBySlots(s, k + 1);
    }
  }

  lemma {:induction false} SameNames(s: seq<byte>, r: seq<byte>, k: nat)
    requires |s| == |r| == 128 && k <= 4
    requires forall j :: k <= j < 4 ==> (IsNameSlot(BaseSlot(r, j)) <==> IsNameSlot(BaseSlot(s, j)))
    requires forall j :: k <= j < 4 && IsNameSlot(BaseSlot(s, j)) ==> BaseSlot(r, j) == BaseSlot(s, j)
    ensures NameFrom(r, k) == NameFrom(s, k)
    decreases 4 - k
  {
    hide BaseSlot, IsNameSlot;
    if k < 4 {
      SameNames(s, r, k + 1);
    }
  }

  lemma NameIsFrom(s: seq<byte>)
    requires |s| == 128
    ensures NameOf(s) == NameFrom(s, 0)
  {
    hide FindName, NameFrom;
    NameBySlots(s, 0);
  }

  // ----- What the passes do to the name -----

  /** A name is no timing, and a cleared slot is no name. */
  lemma FilterKeepsNameSlot(d: seq<byte>, caps: TxCaps)
    requires |d| == 18
    ensures IsNameSlot(d) ==> FilterSlot(d, caps) == d
    ensures IsNameSlot(FilterSlot(d, caps)) <==> IsNameSlot(d)
  {
    hide Fps;
    assert Zeros(18)[3] == 0;
  }

  /** The filter keeps the name. */
  lemma FilterKeepsName(s: seq<byte>, caps: TxCaps)
    requires |s| == 128
    ensures NameOf(FilterBase(s, caps)) == NameOf(s)
  {
    hide FilterBase, BaseSlot, IsNameSlot, FilterSlot, NameOf, NameFrom, Acceptable;
    var r := FilterBase(s, caps);
    forall k: nat | k < 4
      ensures IsNameSlot(BaseSlot(r, k)) <==> IsNameSlot(BaseSlot(s, k))
      ensures IsNameSlot(BaseSlot(s, k)) ==> BaseSlot(r, k) == BaseSlot(s, k)
    {
      BaseSlotFiltered(s, caps, k);
      FilterKeepsNameSlot(BaseSlot(s, k), caps);
    }
    SameNames(s, r, 0);
    NameIsFrom(s);
    NameIsFrom(r);
  }

  /** The name copy puts the TX's name in the place of the own one, if both have one. */
  lemma CopiedName(s: seq<byte>, tx: seq<byte>)
    requires |s| == 128 && |tx| >= 128
    ensures NameOf(NamedBase(s, tx)) == if NameOf(s).Some? && NameOf(tx).Some? then NameOf(tx) else NameOf(s)
  {
    hide FindName, Seal, Sealed;
    var from, to := FindName(tx, 0x36), FindName(s, 0x36);
    if from.Some? && to.Some? {
      var at, name := to.value, tx[from.value + 5..from.value + 18];
      var x := s[..at + 5] + name + s[at + 18..];
      var r := NamedBase(s, tx);
      assert r[..127] == x[..127];
      assert r[..at + 5] == r[..127][..at + 5] == x[..127][..at + 5] == s[..at + 5];
      FoundAgain(s, r, at, 0x36);
      assert r[at + 5..at + 18] == r[..127][at + 5..at + 18] == x[at + 5..at + 18] == name;
    }
  }

  /** Names are found by their first bytes, which the copy does not touch. */
  lemma {:induction false} FoundAgain(s: seq<byte>, r: seq<byte>, at: nat, off: nat)
    requires |s| == |r| == 128 && off <= 0x6C + 18 && FindName(s, off) == Some(at)
    requires r[..at + 5] == s[..at + 5]
    ensures FindName(r, off) == Some(at)
    decreases 0x6C + 18 - off
  {
    assert forall i :: 0 <= i < at + 5 ==> r[i] == r[..at + 5][i] == s[..at + 5][i] == s[i];
    if off <= 0x6C && !IsName(s, off) {
      FoundAgain(s, r, at, off + 18);
    }
  }

  /** The patch overwrites the first three slots, so only a name in the last one stays. */
  lemma PatchedName(s: seq<byte>)
    requires |s| == 128
    ensures NameOf(PatchBase(s)) == if IsName(s, 0x6C) then Some(s[0x71..0x7E]) else None
  {
    hide PatchBase, Sealed, FindName;
    var r := PatchBase(s);
    PatchedBaseStarts(s);
    LastSlotOnly(r);
    LastSlotPatched(s);
    NameAtLast(r);
    SameTail(s, r);
  }

  lemma LastSlotPatched(s: seq<byte>)
    requires |s| == 128
    ensures PatchBase(s)[0x6C..0x7E] == s[0x6C..0x7E]
  {
    hide EncodeAll, Seal, Sealed;
    SixModes();
    var x, r := (s[..0x36] + EncodeAll(BASE_MODES) + s[0x6C..])[0x7E := 2], PatchBase(s);
    assert x[0x6C..0x7E] == s[0x6C..][..18] == s[0x6C..0x7E];
    assert r[0x6C..0x7E] == r[..127][0x6C..0x7E] == x[..127][0x6C..0x7E] == x[0x6C..0x7E];
  }

  lemma NameAtLast(r: seq<byte>)
    requires |r| == 128 && r[0x36] != 0 && r[0x48] != 0 && r[0x5A] != 0
    ensures FindName(r, 0x36) == if IsName(r, 0x6C) then Some(0x6C) else None
  {
    assert FindName(r, 0x36) == FindName(r, 0x48) == FindName(r, 0x5A) == FindName(r, 0x6C);
    assert FindName(r, 0x6C + 18) == None;
  }

  lemma SameTail(s: seq<byte>, r: seq<byte>)
    requires |s| == |r| == 128 && r[0x6C..0x7E] == s[0x6C..0x7E]
    ensures IsName(r, 0x6C) <==> IsName(s, 0x6C)
    ensures r[0x71..0x7E] == s[0x71..0x7E]
  {
    assert forall i :: 0x6C <= i < 0x7E ==> r[i] == r[0x6C..0x7E][i - 0x6C] == s[0x6C..0x7E][i - 0x6C] == s[i];
  }

  // ----- What is delivered -----

  function TxName(nameEdid: Option<seq<byte>>): Option<seq<byte>>
    requires nameEdid.Some? ==> |nameEdid.value| == 256
  {
    if nameEdid.Some? then NameOf(nameEdid.value) else None
  }

  /** The name of the TX replaces another; without either the other one, if any, stays. */
  function Renamed(own: Option<seq<byte>>, txName: Option<seq<byte>>): Option<seq<byte>> {
    if own.Some? && txName.Some? then txName else own
  }

  lemma CopyRenames(e: seq<byte>, nameEdid: Option<seq<byte>>)
    requires |e| >= 128 && (nameEdid.Some? ==> |nameEdid.value| == 256)
    ensures NameOf(Block(CopyName(e, nameEdid), 0)) == Renamed(NameOf(Block(e, 0)), TxName(nameEdid))
  {
    hide NamedBase, NameOf;
    assert e[0..128] == e[..128];
    if nameEdid.Some? {
      var r := CopyName(e, nameEdid);
      assert r[0..128] == NamedBase(e[..128], nameEdid.value);
      CopiedName(e[..128], nameEdid.value);
    }
  }

  /** The name the sources see after LoadEdidData: that of the TX if the stored EDID has a name to replace, and
      for an EDID that was patched this has to be the one in the last slot. */
  lemma LoadedName(e: seq<byte>, nameEdid: Option<seq<byte>>, capsEdid: Option<seq<byte>>, txModes: seq<Mode>)
    requires |e| == 384
    requires (nameEdid.Some? ==> |nameEdid.value| == 256) && (capsEdid.Some? ==> |capsEdid.value| == 256)
    ensures var s := Block(e, 0);
      var own := if !Accepts(e) then NameOf(s) else if IsName(s, 0x6C) then Some(s[0x71..0x7E]) else None;
      NameOf(Block(Loaded(e, nameEdid, capsEdid, txModes), 0)) == Renamed(own, TxName(nameEdid))
  {
    hide PatchEdid, PatchBase, CopyName, FilterEdid, TxOf, NameOf, Block, IsName, Accepts, Renamed, TxName, FilterBase;
    var p := if Accepts(e) then PatchEdid(e) else e;
    if Accepts(e) {
      PatchedBlocks(e);
      PatchedName(Block(e, 0));
    }
    CopyRenames(p, nameEdid);
    var c := CopyName(p, nameEdid);
    if Knows(capsEdid, txModes) {
      var tx := TxOf(capsEdid.value, txModes);
      FilterByBlock(c, tx, 0);
      FilterKeepsName(Block(c, 0), tx.caps);
    }
  }

  /** A patched EDID shows the name of a TX that has one if and only if its last slot held a name. */
  lemma TxNameShownIff(e: seq<byte>, nameEdid: seq<byte>, capsEdid: Option<seq<byte>>, txModes: seq<Mode>)
    requires |e| == 384 && Accepts(e) && |nameEdid| == 256 && NameOf(nameEdid).Some?
    requires capsEdid.Some? ==> |capsEdid.value| == 256
    ensures NameOf(Block(Loaded(e, Some(nameEdid), capsEdid, txModes), 0)) == NameOf(nameEdid)
       <==> IsName(Block(e, 0), 0x6C)
  {
    hide Loaded, NameOf, Block, IsName, Accepts;
    LoadedName(e, Some(nameEdid), capsEdid, txModes);
  }

  /** A stored name in the first slot only is overwritten, and no name is shown at all. */
  lemma NameInFirstSlotIsLost(e: seq<byte>, nameEdid: seq<byte>, capsEdid: Option<seq<byte>>, txModes: seq<Mode>)
    requires |e| == 384 && Accepts(e) && |nameEdid| == 256
    requires capsEdid.Some? ==> |capsEdid.value| == 256
    requires Block(e, 0) == Zeros(0x36) + ([0, 0, 0, 0xFC, 0] + Zeros(13)) + Zeros(54) + [1, 0]
    ensures NameOf(Block(e, 0)) == Some(Zeros(13))
    ensures NameOf(Block(Loaded(e, Some(nameEdid), capsEdid, txModes), 0)) == None
  {
    hide Loaded, Block, Accepts, Zeros;
    var s := Block(e, 0);
    assert IsName(s, 0x36) && s[0x36 + 5..0x36 + 18] == Zeros(13);
    ZerosAt(54);
    assert s[0x6C + 3] == Zeros(54)[39];
    LoadedName(e, Some(nameEdid), capsEdid, txModes);
  }
}
