/** What the sources see: the EDID that LoadEdidData delivers, in terms of the stored one and the TX. */
module EdidLoaded {
  import opened Bytes
  import opened Timing
  import opened DataBlocks
  import opened Parsers
  import opened FilterLists
  import opened FeatureFilter
  import opened EdidFilter
  import opened EdidTheorems
  import opened EdidPatch
  import opened PatchTheorems
  import opened EdidPipeline

  // ----- The patched extensions -----

  /** The VICs a well-formed first extension has after the patch. */
  function PatchedVics(s: seq<byte>): set<int>
    requires |s| == 128
  {
    Vics(Blocks(s)) + if Patchable(Blocks(s), s[2]) then {63} else {}
  }

  lemma PatchedExtension(s: seq<byte>)
    requires WellFormed(s)
    ensures var p, bs, behind := PatchExtension(s), Blocks(s), Behind(s);
      && WellFormed(p)
      && (Patchable(bs, s[2]) ==>
            |behind| > 0 && Blocks(p) == AddVic(bs) && Behind(p) == behind[..|behind| - 1])
      && (!Patchable(bs, s[2]) ==> Blocks(p) == bs && Behind(p) == behind)
  {
    hide Print, Blocks, AddVic, Seal, InsertVic, Layout, FirstVideo, Lists63, Sealed;
    var p, bs, behind := PatchExtension(s), Blocks(s), Behind(s);
    InsertVicMeaning(s);
    if Patchable(bs, s[2]) {
      LayoutIsWellFormed(p, s[1], s[3], AddVic(bs), behind[..|behind| - 1]);
    } else {
      SameLayout(s, p);
    }
  }

  lemma {:induction false} VicsOfAdded(bs: seq<DataBlock>)
    requires AllValid(bs) && FirstVideo(bs) < |bs| && |bs[FirstVideo(bs)].payload| < 31
    ensures Vics(AddVic(bs)) == Vics(bs) + {63}
  {
    hide VicSet;
    var r := AddVic(bs);
    if bs[0].tag == 2 {
      VicSetNext(bs[0].payload, 63);
      assert r[1..] == bs[1..];
    } else {
      VicsOfAdded(bs[1..]);
      assert r[1..] == AddVic(bs[1..]) && r[0] == bs[0];
    }
  }

  lemma AddedAnnounces(bs: seq<DataBlock>, f: Feature)
    requires AllValid(bs) && FirstVideo(bs) < |bs| && |bs[FirstVideo(bs)].payload| < 31
    ensures AnyAnnounces(AddVic(bs), f) <==> AnyAnnounces(bs, f)
  {
    var k, r := FirstVideo(bs), AddVic(bs);
    assert forall i :: 0 <= i < |bs| && i != k ==> r[i] == bs[i];
    assert !Announces(r[k], f) && !Announces(bs[k], f);
  }

  lemma {:induction false} EncodedSlot(ts: seq<Timings>, k: nat)
    requires k < |ts|
    ensures Slot(EncodeAll(ts), k) == Encode(ts[k])
  {
    hide Encode;
    var m := |ts| - 1;
    var front := EncodeAll(ts[..m]);
    assert EncodeAll(ts) == front + Encode(ts[m]);
    if k < m {
      EncodedSlot(ts[..m], k);
    }
  }

  lemma SlotOfFront(s: seq<byte>, t: seq<byte>, k: nat)
    requires 18 * k + 18 <= |s|
    ensures Slot(s + t, k) == Slot(s, k)
  {
  }

  lemma SixModes()
    ensures |NEW_MODES| == 6 && |BASE_MODES| == 3
  {
  }

  lemma NewExtensionShape()
    ensures var n := NewExtension();
      && WellFormed(n) && Blocks(n) == [] && Behind(n) == EncodeAll(NEW_MODES) + Zeros(15)
  {
    hide EncodeAll, Zeros, Seal, Sealed, WellFormed, Blocks;
    var n, behind := NewExtension(), EncodeAll(NEW_MODES) + Zeros(15);
    SixModes();
    PrintNothing();
    ZerosAppend(15, 1);
    assert n[..127] == Layout(3, 0, [], behind);
    LayoutIsWellFormed(n, 3, 0, [], behind);
  }

  // ----- The patched EDID, as the parsers see it -----

  lemma TwoExtensions(e: seq<byte>)
    requires |e| >= 384 && IsCea(e, 0) && IsCea(e, 1)
    ensures EdidVics(e, 2) == Vics(Blocks(Block(e, 1))) + Vics(Blocks(Block(e, 2)))
    ensures forall f :: EdidAnnounces(e, 2, f)
                   <==> AnyAnnounces(Blocks(Block(e, 1)), f) || AnyAnnounces(Blocks(Block(e, 2)), f)
  {
    hide Vics, Blocks, AnyAnnounces, Block;
    assert EdidVics(e, 0) == {};
    assert EdidVics(e, 1) == Vics(Blocks(Block(e, 1)));
    forall f ensures EdidAnnounces(e, 2, f)
                <==> AnyAnnounces(Blocks(Block(e, 1)), f) || AnyAnnounces(Blocks(Block(e, 2)), f) {
      assert ExtensionAnnounces(e, 0, f) <==> AnyAnnounces(Blocks(Block(e, 1)), f);
      assert ExtensionAnnounces(e, 1, f) <==> AnyAnnounces(Blocks(Block(e, 2)), f);
    }
  }

  lemma PatchedBlocks(e: seq<byte>)
    requires Accepts(e)
    ensures var p := PatchEdid(e);
      && Block(p, 0) == PatchBase(Block(e, 0)) && Block(p, 1) == PatchExtension(Block(e, 1))
        && Block(p, 2) == NewExtension()
      && p[0x7E] == 2 && IsCea(p, 0) && IsCea(p, 1)
  {
    hide PatchBase, PatchExtension, NewExtension, Sealed, PatchEdid;
    PatchSeals(e);
    PatchedCount(e);
    PatchHeads(e[..128], e[128..256]);
    NewExtensionHead();
    var p := PatchEdid(e);
    assert p[128] == p[128..256][0] && p[256] == p[256..384][0];
    assert e[0..128] == e[..128] && p[0..128] == p[..128];
  }

  lemma NewExtensionHead()
    ensures NewExtension()[0] == 2
  {
    hide Blocks, Print;
    NewExtensionShape();
  }

  /** What the parsers find in the patched first extension. */
  lemma PatchedContents(s: seq<byte>)
    requires WellFormed(s)
    ensures |s| == 128 && Vics(Blocks(PatchExtension(s))) == PatchedVics(s)
    ensures forall f :: AnyAnnounces(Blocks(PatchExtension(s)), f) <==> AnyAnnounces(Blocks(s), f)
  {
    hide PatchExtension, WellFormed, Blocks, Vics, AnyAnnounces, AddVic, FirstVideo, Lists63, Print, Behind, Sealed;
    Is128(s);
    PatchedExtension(s);
    var bs := Blocks(s);
    if Patchable(bs, s[2]) {
      VicsOfAdded(bs);
      forall f ensures AnyAnnounces(AddVic(bs), f) <==> AnyAnnounces(bs, f) {
        AddedAnnounces(bs, f);
      }
    }
  }

  lemma WellFormedTwo(p: seq<byte>)
    requires |p| >= 384 && p[0x7E] == 2 && WellFormed(Block(p, 1)) && WellFormed(Block(p, 2))
    ensures WellFormedEdid(p)
  {
    hide WellFormed, Block;
  }

  /** After a successful patch the EDID is well formed, if its first extension was: it announces the VICs of
      this extension, 63 if there was room, and its features. */
  lemma PatchedEdid(e: seq<byte>)
    requires Accepts(e) && WellFormed(Block(e, 1))
    ensures var p, s := PatchEdid(e), Block(e, 1);
      && p[0x7E] == 2 && WellFormedEdid(p)
      && EdidVics(p, 2) == PatchedVics(s)
      && forall f :: EdidAnnounces(p, 2, f) <==> AnyAnnounces(Blocks(s), f)
  {
    hide PatchBase, PatchExtension, NewExtension, PatchEdid, Sealed, WellFormed, Blocks, Block, Vics, AnyAnnounces,
         EdidVics, EdidAnnounces, WellFormedEdid, PatchedVics, Behind, EncodeAll, Zeros, AddVic, Patchable;
    PatchedBlocks(e);
    PatchedExtension(Block(e, 1));
    PatchedContents(Block(e, 1));
    NewExtensionShape();
    TwoExtensions(PatchEdid(e));
    WellFormedTwo(PatchEdid(e));
    NoBlocks();
  }

  lemma NoBlocks()
    ensures Vics([]) == {} && forall f :: !AnyAnnounces([], f)
  {
  }

  // ----- The name copy changes none of this -----

  lemma {:induction false} SameExtensions(e: seq<byte>, r: seq<byte>, n: nat)
    requires |r| == |e| >= 128 && r[128..] == e[128..]
    ensures EdidVics(r, n) == EdidVics(e, n)
  {
    hide Vics, Blocks, Block;
    if n > 0 {
      SameExtensions(e, r, n - 1);
      SameExtension(e, r, n - 1);
    }
  }

  lemma SameExtension(e: seq<byte>, r: seq<byte>, i: nat)
    requires |r| == |e| >= 128 && r[128..] == e[128..]
    ensures IsCea(r, i) <==> IsCea(e, i)
    ensures IsCea(e, i) ==> Block(r, i + 1) == Block(e, i + 1)
  {
    hide Block;
    if 128 * i + 256 <= |e| {
      assert e[128..][128 * i] == e[128 * i + 128] && r[128..][128 * i] == r[128 * i + 128];
      SameBlock(e, r, i + 1);
    }
  }

  /** The name copy is invisible to both parsers. */
  lemma CopyNameUnseen(e: seq<byte>, txEdid: Option<seq<byte>>)
    requires |e| >= 128 && (txEdid.Some? ==> |txEdid.value| == 256)
    ensures var r, n := CopyName(e, txEdid), e[0x7E];
      && r[0x7E] == n && r[128..] == e[128..] && (WellFormedEdid(r) <==> WellFormedEdid(e))
      && EdidVics(r, n) == EdidVics(e, n) && forall f :: EdidAnnounces(r, n, f) <==> EdidAnnounces(e, n, f)
  {
    hide CopyName, Block, Blocks, WellFormed, EdidVics, AnyAnnounces, Sealed;
    var r, n := CopyName(e, txEdid), e[0x7E];
    CopyNameKeeps(e, txEdid);
    SameExtensions(e, r, n);
    forall i: nat ensures IsCea(r, i) <==> IsCea(e, i) ensures IsCea(e, i) ==> Block(r, i + 1) == Block(e, i + 1) {
      SameExtension(e, r, i);
    }
    forall f, i: nat ensures ExtensionAnnounces(r, i, f) <==> ExtensionAnnounces(e, i, f) {
      assert IsCea(r, i) <==> IsCea(e, i);
    }
  }

  // ----- What is delivered -----

  /** Whether the filter has something to go by. */
  predicate Knows(capsEdid: Option<seq<byte>>, txModes: seq<Mode>) {
    capsEdid.Some? && txModes != []
  }

  function Delivers(vics: set<int>, capsEdid: Option<seq<byte>>, txModes: seq<Mode>): set<int>
    requires capsEdid.Some? ==> |capsEdid.value| == 256
  {
    if Knows(capsEdid, txModes) then set v | v in vics && TxOf(capsEdid.value, txModes).caps.SupportsVic(v) else vics
  }

  predicate Allows(f: Feature, capsEdid: Option<seq<byte>>, txModes: seq<Mode>)
    requires capsEdid.Some? ==> |capsEdid.value| == 256
  {
    Knows(capsEdid, txModes) ==> Has(TxOf(capsEdid.value, txModes), f)
  }

  /** What the parsers find in the EDID delivered: of the stored VICs, and of 63 where the patch added it, those
      the TX supports; of the features announced, those the TX has. Without an answer of the TX nothing goes. */
  lemma LoadedEdid(e: seq<byte>, nameEdid: Option<seq<byte>>, capsEdid: Option<seq<byte>>, txModes: seq<Mode>)
    requires |e| == 384 && Accepts(e) && WellFormed(Block(e, 1))
    requires (nameEdid.Some? ==> |nameEdid.value| == 256) && (capsEdid.Some? ==> |capsEdid.value| == 256)
    ensures var r, s := Loaded(e, nameEdid, capsEdid, txModes), Block(e, 1);
      && r[0x7E] == 2 && WellFormedEdid(r)
      && EdidVics(r, 2) == Delivers(PatchedVics(s), capsEdid, txModes)
      && forall f :: EdidAnnounces(r, 2, f) <==> Allows(f, capsEdid, txModes) && AnyAnnounces(Blocks(s), f)
  {
    hide PatchEdid, CopyName, FilterEdid, TxOf, EdidVics, EdidAnnounces, AnyAnnounces, Blocks, Block, WellFormed,
         WellFormedEdid, Accepts, PatchedVics, Has;
    PatchedEdid(e);
    CopyNameUnseen(PatchEdid(e), nameEdid);
    if Knows(capsEdid, txModes) {
      FilteredEdid(CopyName(PatchEdid(e), nameEdid), TxOf(capsEdid.value, txModes));
    }
  }

  /** The same where the patch refuses the EDID. */
  lemma LoadedUnpatched(e: seq<byte>, nameEdid: Option<seq<byte>>, capsEdid: Option<seq<byte>>, txModes: seq<Mode>)
    requires |e| == 384 && !Accepts(e) && WellFormedEdid(e)
    requires (nameEdid.Some? ==> |nameEdid.value| == 256) && (capsEdid.Some? ==> |capsEdid.value| == 256)
    ensures var r, n := Loaded(e, nameEdid, capsEdid, txModes), e[0x7E];
      && r[0x7E] == n && WellFormedEdid(r)
      && EdidVics(r, n) == Delivers(EdidVics(e, n), capsEdid, txModes)
      && forall f :: EdidAnnounces(r, n, f) <==> Allows(f, capsEdid, txModes) && EdidAnnounces(e, n, f)
  {
    hide CopyName, FilterEdid, TxOf, EdidVics, EdidAnnounces, WellFormedEdid, Has, Accepts;
    CopyNameUnseen(e, nameEdid);
    if Knows(capsEdid, txModes) {
      FilteredEdid(CopyName(e, nameEdid), TxOf(capsEdid.value, txModes));
    }
  }

  // ----- The timings delivered -----

  /** The slots of the base block. */
  function BaseSlot(s: seq<byte>, k: nat): (d: seq<byte>)
    requires |s| == 128 && k < 4
    ensures |d| == 18
  {
    Slot(s[0x36..0x7E], k)
  }

  lemma PatchedBaseSlots(s: seq<byte>, k: nat)
    requires |s| == 128 && k < 3
    ensures BaseSlot(PatchBase(s), k) == Encode(BASE_MODES[k])
  {
    hide Encode, EncodeAll, Seal, Sealed;
    SixModes();
    var x, r := (s[..0x36] + EncodeAll(BASE_MODES) + s[0x6C..])[0x7E := 2], PatchBase(s);
    assert r[0x36..0x6C] == r[..127][0x36..0x6C] == x[..127][0x36..0x6C] == EncodeAll(BASE_MODES);
    assert r[0x36..0x7E] == EncodeAll(BASE_MODES) + r[0x6C..0x7E];
    SlotOfFront(EncodeAll(BASE_MODES), r[0x6C..0x7E], k);
    EncodedSlot(BASE_MODES, k);
  }

  lemma BaseModesAreTimings(k: nat)
    requires k < 3
    ensures BASE_MODES[k].InRange() && Encode(BASE_MODES[k])[0] != 0
  {
  }

  /** The name copy finds no name in the first three slots, so it does not touch them. */
  lemma NamedBaseSlots(s: seq<byte>, tx: seq<byte>, k: nat)
    requires |s| == 128 && |tx| >= 128 && k < 3
    requires s[0x36] != 0 && s[0x48] != 0 && s[0x5A] != 0
    ensures BaseSlot(NamedBase(s, tx), k) == BaseSlot(s, k)
  {
    hide FindName, Seal, Sealed;
    var from, to := FindName(tx, 0x36), FindName(s, 0x36);
    if from.Some? && to.Some? {
      LastSlotOnly(s);
      var x := s[..0x6C + 5] + tx[from.value + 5..from.value + 18] + s[0x6C + 18..];
      var r := NamedBase(s, tx);
      assert r[..0x6C] == r[..127][..0x6C] == x[..127][..0x6C] == s[..0x6C];
      BaseSlotIs(r, k);
      BaseSlotIs(s, k);
      SameFront(r, s, 0x6C, 0x36 + 18 * k, 0x36 + 18 * k + 18);
    }
  }

  lemma BaseSlotIs(s: seq<byte>, k: nat)
    requires |s| == 128 && k < 4
    ensures BaseSlot(s, k) == s[0x36 + 18 * k..0x36 + 18 * k + 18]
  {
    SliceIn(s, 0x36, 0x7E, 18 * k, 18 * k + 18);
  }

  lemma SameFront(r: seq<byte>, s: seq<byte>, n: nat, i: nat, j: nat)
    requires i <= j <= n <= |r| && n <= |s| && r[..n] == s[..n]
    ensures r[i..j] == s[i..j]
  {
    assert r[i..j] == r[..n][i..j] && s[i..j] == s[..n][i..j];
  }

  lemma LastSlotOnly(s: seq<byte>)
    requires |s| == 128 && s[0x36] != 0 && s[0x48] != 0 && s[0x5A] != 0
    ensures FindName(s, 0x36) == None || FindName(s, 0x36) == Some(0x6C)
  {
    assert FindName(s, 0x36) == FindName(s, 0x48) == FindName(s, 0x5A) == FindName(s, 0x6C);
    assert FindName(s, 0x6C + 18) == None;
  }

  lemma BaseSlotStarts(s: seq<byte>, k: nat)
    requires |s| == 128 && k < 4
    ensures BaseSlot(s, k)[0] == s[0x36 + 18 * k]
  {
    hide BaseSlot;
    BaseSlotIs(s, k);
  }

  lemma PatchedBaseStart(s: seq<byte>, k: nat)
    requires |s| == 128 && k < 3
    ensures PatchBase(s)[0x36 + 18 * k] != 0
  {
    hide PatchBase, Encode, EncodeAll, Sealed, BaseSlot;
    PatchedBaseSlots(s, k);
    BaseModesAreTimings(k);
    BaseSlotStarts(PatchBase(s), k);
  }

  lemma PatchedBaseStarts(s: seq<byte>)
    requires |s| == 128
    ensures var r := PatchBase(s); r[0x36] != 0 && r[0x48] != 0 && r[0x5A] != 0
  {
    hide PatchBase, Sealed;
    PatchedBaseStart(s, 0);
    PatchedBaseStart(s, 1);
    PatchedBaseStart(s, 2);
  }

  /** Named and patched, the base block still has the three high-refresh timings. */
  lemma NamedPatchSlots(e: seq<byte>, nameEdid: Option<seq<byte>>, k: nat)
    requires Accepts(e) && (nameEdid.Some? ==> |nameEdid.value| == 256) && k < 3
    ensures BaseSlot(Block(CopyName(PatchEdid(e), nameEdid), 0), k) == Encode(BASE_MODES[k])
  {
    hide PatchEdid, PatchBase, NamedBase, Encode, EncodeAll, Sealed, BaseSlot;
    var p := PatchEdid(e);
    PatchedBlocks(e);
    PatchedBaseSlots(Block(e, 0), k);
    assert p[0..128] == p[..128];
    if nameEdid.Some? {
      var r := CopyName(p, nameEdid);
      assert r[0..128] == NamedBase(p[..128], nameEdid.value);
      PatchedBaseStarts(Block(e, 0));
      NamedBaseSlots(p[..128], nameEdid.value, k);
    }
  }

  /** With an answer of the TX every timing delivered in the base block is one it supports, and of the three
      timings the patch puts there exactly the supported ones are delivered. */
  lemma LoadedBaseTimings(e: seq<byte>, nameEdid: Option<seq<byte>>, capsEdid: seq<byte>, txModes: seq<Mode>, k: nat)
    requires |e| == 384 && Accepts(e) && txModes != [] && k < 4
    requires (nameEdid.Some? ==> |nameEdid.value| == 256) && |capsEdid| == 256
    ensures var d := BaseSlot(Block(Loaded(e, nameEdid, Some(capsEdid), txModes), 0), k);
      var caps := TxOf(capsEdid, txModes).caps;
      Acceptable(d, caps) && (k < 3 ==> d == FilterSlot(Encode(BASE_MODES[k]), caps))
  {
    hide PatchEdid, CopyName, FilterEdid, FilterBase, TxOf, Block, PatchBase, Acceptable, FilterSlot, Encode,
         BaseSlot, Accepts, Loaded, Filtered, NamedBase;
    var tx := TxOf(capsEdid, txModes);
    var c := CopyName(PatchEdid(e), nameEdid);
    LoadedIs(e, nameEdid, capsEdid, txModes);
    FilterByBlock(c, tx, 0);
    BaseSlotFiltered(Block(c, 0), tx.caps, k);
    if k < 3 {
      NamedPatchSlots(e, nameEdid, k);
    }
  }

  lemma LoadedIs(e: seq<byte>, nameEdid: Option<seq<byte>>, capsEdid: seq<byte>, txModes: seq<Mode>)
    requires |e| == 384 && Accepts(e) && txModes != []
    requires (nameEdid.Some? ==> |nameEdid.value| == 256) && |capsEdid| == 256
    ensures Loaded(e, nameEdid, Some(capsEdid), txModes)
         == FilterEdid(CopyName(PatchEdid(e), nameEdid), TxOf(capsEdid, txModes))
  {
    hide PatchEdid, CopyName, FilterEdid, TxOf, Accepts;
  }

  /** The extensions delivered are the patched ones, filtered. */
  lemma LoadedExtensions(e: seq<byte>, nameEdid: Option<seq<byte>>, capsEdid: seq<byte>, txModes: seq<Mode>)
    requires |e| == 384 && Accepts(e) && txModes != []
    requires (nameEdid.Some? ==> |nameEdid.value| == 256) && |capsEdid| == 256
    ensures var r, tx := Loaded(e, nameEdid, Some(capsEdid), txModes), TxOf(capsEdid, txModes);
      && Block(r, 1) == FilterExtension(PatchExtension(Block(e, 1)), tx)
      && Block(r, 2) == FilterExtension(NewExtension(), tx)
  {
    hide PatchEdid, CopyName, FilterEdid, FilterExtension, FilterBase, TxOf, Block, PatchExtension, PatchBase,
         NewExtension, Accepts, Sealed, Loaded, Filtered, EdidVics, EdidAnnounces, WellFormedEdid, NamedBase;
    var p, tx := PatchEdid(e), TxOf(capsEdid, txModes);
    var c := CopyName(p, nameEdid);
    LoadedIs(e, nameEdid, capsEdid, txModes);
    PatchedBlocks(e);
    CopyNameKeeps(p, nameEdid);
    SameBlock(p, c, 1);
    SameBlock(p, c, 2);
    FilterByBlock(c, tx, 0);
    FilterByBlock(c, tx, 1);
  }

  /** In both extensions every timing delivered is one the TX supports; of the timings behind the blocks of the
      patched first extension, and of the six the patch puts into the second, exactly the supported ones are
      delivered. */
  lemma LoadedTimings(e: seq<byte>, nameEdid: Option<seq<byte>>, capsEdid: seq<byte>, txModes: seq<Mode>, k: nat,
                      p: seq<byte>, r1: seq<byte>, r2: seq<byte>, caps: TxCaps)
    requires |e| == 384 && Accepts(e) && WellFormed(Block(e, 1)) && txModes != []
    requires (nameEdid.Some? ==> |nameEdid.value| == 256) && |capsEdid| == 256
    requires p == PatchExtension(Block(e, 1)) && caps == TxOf(capsEdid, txModes).caps
    requires r1 == Block(Loaded(e, nameEdid, Some(capsEdid), txModes), 1)
    requires r2 == Block(Loaded(e, nameEdid, Some(capsEdid), txModes), 2)
    ensures WellFormed(p) && WellFormed(r1) && WellFormed(r2)
    ensures 18 * k + 18 <= |Behind(r1)| ==> Acceptable(Slot(Behind(r1), k), caps)
    ensures 18 * k + 18 <= |Behind(p)| ==>
      18 * k + 18 <= |Behind(r1)| && Slot(Behind(r1), k) == FilterSlot(Slot(Behind(p), k), caps)
    ensures 18 * k + 18 <= |Behind(r2)| ==> Acceptable(Slot(Behind(r2), k), caps)
    ensures k < 6 ==> 18 * k + 18 <= |Behind(r2)| && Slot(Behind(r2), k) == FilterSlot(Encode(NEW_MODES[k]), caps)
  {
    hide Loaded, FilterExtension, TxOf, Blocks, Block, WellFormed, PatchExtension, NewExtension, Acceptable,
         FilterSlot, Encode, EncodeAll, Slot, Behind, Zeros, Accepts, Sealed;
    var tx := TxOf(capsEdid, txModes);
    LoadedExtensions(e, nameEdid, capsEdid, txModes);
    PatchedExtension(Block(e, 1));
    ExtensionSlots(p, tx, k);
    NewExtensionShape();
    ExtensionSlots(NewExtension(), tx, k);
    if k < 6 {
      NewModeSlots(k);
    }
  }

  lemma BaseSlotFiltered(s: seq<byte>, caps: TxCaps, k: nat)
    requires |s| == 128 && k < 4
    ensures Acceptable(BaseSlot(FilterBase(s, caps), k), caps)
    ensures BaseSlot(FilterBase(s, caps), k) == FilterSlot(BaseSlot(s, k), caps)
  {
    hide FilterBase, FilterSlot, Acceptable, Slot, Zeros, Sealed;
    FilteredBaseSlots(s, caps, k);
    FilterSlotMeaning(BaseSlot(s, k), caps);
  }

  lemma ExtensionSlots(s: seq<byte>, tx: Tx, k: nat)
    requires WellFormed(s)
    ensures var r := FilterExtension(s, tx);
      && WellFormed(r)
      && (18 * k + 18 <= |Behind(r)| ==> Acceptable(Slot(Behind(r), k), tx.caps))
      && (18 * k + 18 <= |Behind(s)| ==>
            18 * k + 18 <= |Behind(r)| && Slot(Behind(r), k) == FilterSlot(Slot(Behind(s), k), tx.caps))
  {
    hide FilterExtension, FilterSlot, Acceptable, Slot, Zeros, Sealed, WellFormed, Behind;
    FilteredSlots(s, tx, k);
    if 18 * k + 18 <= |Behind(s)| {
      FilterSlotMeaning(Slot(Behind(s), k), tx.caps);
    }
  }

  lemma NewModeSlots(k: nat)
    requires k < 6 && WellFormed(NewExtension())
    ensures 18 * k + 18 <= |Behind(NewExtension())| && Slot(Behind(NewExtension()), k) == Encode(NEW_MODES[k])
  {
    hide Encode, EncodeAll, Slot, Zeros, Sealed, WellFormed, Behind, NewExtension;
    NewExtensionShape();
    SixModes();
    EncodedSlot(NEW_MODES, k);
    SlotOfFront(EncodeAll(NEW_MODES), Zeros(15), k);
  }

  /** A timing of the patch is delivered if and only if the TX supports its mode; otherwise its slot is blank. */
  lemma AddedTiming(t: Timings, caps: TxCaps)
    requires t in NEW_MODES || t in BASE_MODES
    ensures var rate := Fps(t.pixelClock, t.hActive + t.hBlank, t.vActive + t.vBlank);
      var mode := Mode(t.hActive, t.vActive, rate, false);
      FilterSlot(Encode(t), caps) == if caps.SupportsMode(mode) then Encode(t) else Zeros(18)
  {
    hide Encode, ToMode, Fps, Zeros;
    InRangeModes(t);
    WriteThenRead(t);
  }

  lemma InRangeModes(t: Timings)
    requires t in NEW_MODES || t in BASE_MODES
    ensures t.InRange() && t.pixelClock > 0 && t.hActive > 0 && t.vActive > 0 && t.flags < 128
  {
  }
}
