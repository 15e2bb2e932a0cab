/** The monitor name copy, and the order in which LoadEdidData runs the three passes. */
module EdidPipeline {
  import opened Bytes
  import opened Timing
  import opened DataBlocks
  import opened Passes
  import opened Parsers
  import opened FilterLists
  import opened FeatureFilter
  import opened EdidFilter
  import opened EdidTheorems
  import opened EdidPatch
  import opened PatchMethods
  import opened PatchTheorems

  /** A display descriptor with tag 0xFC at off. */
  predicate IsName(e: seq<byte>, off: nat)
    requires off + 18 <= |e|
  {
    e[off] == 0 && e[off + 1] == 0 && e[off + 3] == 0xFC
  }

  /** The first monitor name among the descriptor slots from off on. */
  function FindName(e: seq<byte>, off: nat): (r: Option<nat>)
    requires |e| >= 128 && off <= 0x6C + 18
    ensures r.Some? ==> off <= r.value <= 0x6C && IsName(e, r.value)
    decreases 0x6C + 18 - off
  {
    if off > 0x6C then None else if IsName(e, off) then Some(off) else FindName(e, off + 18)
  }

  method FindNameSlot(e: seq<byte>) returns (r: Option<nat>)
    requires |e| >= 128
    ensures r == FindName(e, 0x36)
  {
    var off := 0x36;
    while off <= 0x6C
      invariant off <= 0x6C + 18
      invariant FindName(e, 0x36) == FindName(e, off)
      decreases 0x6C + 18 - off
    {
      if e[off] == 0 && e[off + 1] == 0 && e[off + 3] == 0xFC {
        return Some(off);
      }
      off := off + 18;
    }
    return None;
  }

  /** The base block after the name payload of the TX EDID was copied into it. */
  function NamedBase(s: seq<byte>, tx: seq<byte>): (r: seq<byte>)
    requires |s| == 128 && |tx| >= 128
    ensures |r| == 128
  {
    var from, to := FindName(tx, 0x36), FindName(s, 0x36);
    if from.None? || to.None? then s
    else Seal(s[..to.value + 5] + tx[from.value + 5..from.value + 18] + s[to.value + 18..])
  }

  function CopyName(e: seq<byte>, txEdid: Option<seq<byte>>): (r: seq<byte>)
    requires |e| >= 128 && (txEdid.Some? ==> |txEdid.value| == 256)
    ensures |r| == |e|
  {
    if txEdid.None? then e else NamedBase(e[..128], txEdid.value) + e[128..]
  }

  lemma {:induction false} FindNameInBase(e: seq<byte>, off: nat)
    requires |e| >= 128 && off <= 0x6C + 18
    ensures FindName(e[..128], off) == FindName(e, off)
    decreases 0x6C + 18 - off
  {
    if off <= 0x6C {
      FindNameInBase(e, off + 18);
    }
  }

  lemma NameStores(e: seq<byte>, to: nat, name: seq<byte>)
    requires |e| >= 128 && to <= 0x6C && |name| == 13
    ensures var x, s := e[..to + 5] + name + e[to + 18..], e[..128];
      |x| == |e| && Splice(x, 0, Seal(x[0..128])) == Seal(s[..to + 5] + name + s[to + 18..]) + e[128..]
  {
    hide Seal, Sealed;
    var x, s := e[..to + 5] + name + e[to + 18..], e[..128];
    assert x[0..128] == s[..to + 5] + name + s[to + 18..];
    assert x[128..] == e[128..];
  }

  /** Without a TX EDID or without a name on either side nothing changes. */
  method PatchEdidMonitorName(a: array<byte>, txEdid: Option<seq<byte>>) returns (ret: int)
    requires txEdid.Some? ==> |txEdid.value| == 256
    modifies a
    ensures ret == if a.Length < 128 then -1 else 0
    ensures a[..] == if a.Length < 128 then old(a[..]) else CopyName(old(a[..]), txEdid)
  {
    hide FindName, Seal, Sealed, Splice;
    ghost var e := a[..];
    if a.Length < 128 {
      return -1;
    }
    if txEdid.None? {
      return 0;
    }
    FindNameInBase(e, 0x36);
    assert e == e[..128] + e[128..];
    var txNameOffset := FindNameSlot(txEdid.value);
    if txNameOffset.None? {
      return 0;
    }
    var rxNameOffset := FindNameSlot(a[..]);
    if rxNameOffset.None? {
      return 0;
    }
    var name := txEdid.value[txNameOffset.value + 5..txNameOffset.value + 18];
    NameStores(e, rxNameOffset.value, name);
    Store(a, rxNameOffset.value + 5, name);
    RecalculateEdidBlockChecksum(a, 0);
    return 0;
  }

  /** One part of LoadEdidData: the 2.0 EDID of a port. Each call asks the TX anew, hence three answers. */
  method LoadEdid20(a: array<byte>, nameEdid: Option<seq<byte>>, capsEdid: Option<seq<byte>>, txModes: seq<Mode>)
    requires a.Length == 384
    requires (nameEdid.Some? ==> |nameEdid.value| == 256) && (capsEdid.Some? ==> |capsEdid.value| == 256)
    modifies a
    ensures a[..] == Loaded(old(a[..]), nameEdid, capsEdid, txModes)
  {
    hide PatchEdid, CopyName, FilterEdid, TxOf;
    var ret := PatchEdidFor120Hz(a);
    ret := PatchEdidMonitorName(a, nameEdid);
    ret := FilterEdidByTxCapabilities(a, capsEdid, txModes);
  }

  function Filtered(e: seq<byte>, capsEdid: Option<seq<byte>>, txModes: seq<Mode>): (r: seq<byte>)
    requires |e| >= 128 && (capsEdid.Some? ==> |capsEdid.value| == 256)
    ensures |r| == |e|
  {
    if capsEdid.None? || txModes == [] then e else FilterEdid(e, TxOf(capsEdid.value, txModes))
  }

  function Loaded(e: seq<byte>, nameEdid: Option<seq<byte>>, capsEdid: Option<seq<byte>>,
                  txModes: seq<Mode>): (r: seq<byte>)
    requires |e| == 384
    requires (nameEdid.Some? ==> |nameEdid.value| == 256) && (capsEdid.Some? ==> |capsEdid.value| == 256)
    ensures |r| == |e|
  {
    Filtered(CopyName(if Accepts(e) then PatchEdid(e) else e, nameEdid), capsEdid, txModes)
  }

  // ----- Block by block -----

  lemma {:induction false} ExtensionAt(t: seq<byte>, n: nat, tx: Tx, i: nat)
    requires i < n && 128 * i + 128 <= |t|
    ensures FilterExtensions(t, n, tx)[128 * i..128 * i + 128] == FilterExtension(t[128 * i..128 * i + 128], tx)
    decreases n
  {
    hide FilterExtension;
    var r := FilterExtensions(t, n, tx);
    assert r == FilterExtension(t[..128], tx) + FilterExtensions(t[128..], n - 1, tx);
    if i > 0 {
      ExtensionAt(t[128..], n - 1, tx, i - 1);
      assert r[128..] == FilterExtensions(t[128..], n - 1, tx);
      SkipBlock(r, i);
      SkipBlock(t, i);
    } else {
      assert r[0..128] == FilterExtension(t[..128], tx) && t[0..128] == t[..128];
    }
  }

  lemma SkipBlock(t: seq<byte>, i: nat)
    requires i > 0 && 128 * i + 128 <= |t|
    ensures t[128..][128 * (i - 1)..128 * (i - 1) + 128] == t[128 * i..128 * i + 128]
  {
    assert t[128..] == t[128..|t|];
    SliceIn(t, 128, |t|, 128 * (i - 1), 128 * (i - 1) + 128);
  }

  /** The filter works block by block: the base block, then every extension counted that lies in the buffer. */
  lemma FilterByBlock(e: seq<byte>, tx: Tx, i: nat)
    requires |e| >= 128
    ensures var r := FilterEdid(e, tx);
      && r[0x7E] == e[0x7E] && Block(r, 0) == FilterBase(Block(e, 0), tx.caps)
      && (i < e[0x7E] && 128 * i + 256 <= |e| ==> Block(r, i + 1) == FilterExtension(Block(e, i + 1), tx))
  {
    hide FilterBase, FilterExtension, FilterExtensions, Sealed;
    var r := FilterEdid(e, tx);
    BaseCount(e, tx.caps);
    assert e[0..128] == e[..128] && r[0..128] == r[..128];
    if i < e[0x7E] && 128 * i + 256 <= |e| {
      var t, u := e[128..], r[128..];
      assert u == FilterExtensions(t, e[0x7E], tx);
      ExtensionAt(t, e[0x7E], tx, i);
      SkipBlock(e, i + 1);
      SkipBlock(r, i + 1);
    }
  }

  /** Every block the filter visits ends up sealed. */
  lemma FilterSeals(e: seq<byte>, tx: Tx, i: nat)
    requires |e| >= 128
    ensures Sealed(Block(FilterEdid(e, tx), 0))
    ensures i < e[0x7E] && 128 * i + 256 <= |e| ==> Sealed(Block(FilterEdid(e, tx), i + 1))
  {
    hide FilterEdid, Block, FilterBase, FilterExtension, Sealed;
    FilterByBlock(e, tx, i);
  }

  // ----- The three passes together -----

  /** The name copy keeps the base block sealed, the extension count, and everything behind. */
  lemma CopyNameKeeps(e: seq<byte>, txEdid: Option<seq<byte>>)
    requires |e| >= 128 && (txEdid.Some? ==> |txEdid.value| == 256)
    ensures var r := CopyName(e, txEdid);
      && (Sealed(Block(e, 0)) ==> Sealed(Block(r, 0)))
      && r[128..] == e[128..] && r[0x7E] == e[0x7E]
  {
    hide FindName, Seal, Sealed;
    var r := CopyName(e, txEdid);
    assert e[0..128] == e[..128] && r[0..128] == r[..128];
    if txEdid.Some? {
      var s, tx := e[..128], txEdid.value;
      assert r[..128] == NamedBase(s, tx) && r[128..] == e[128..];
      NamedBaseCount(s, tx);
    }
  }

  lemma SameBlock(e: seq<byte>, r: seq<byte>, i: nat)
    requires 0 < i && 128 * i + 128 <= |e| == |r| && e[128..] == r[128..]
    ensures Block(r, i) == Block(e, i)
  {
    SkipBlock(e, i);
    SkipBlock(r, i);
  }

  lemma NamedBaseCount(s: seq<byte>, tx: seq<byte>)
    requires |s| == 128 && |tx| >= 128
    ensures NamedBase(s, tx)[0x7E] == s[0x7E]
    ensures Sealed(s) ==> Sealed(NamedBase(s, tx))
  {
    hide FindName, Seal, Sealed;
    var from, to := FindName(tx, 0x36), FindName(s, 0x36);
    if from.Some? && to.Some? {
      var x := s[..to.value + 5] + tx[from.value + 5..from.value + 18] + s[to.value + 18..];
      assert Seal(x)[0x7E] == Seal(x)[..127][0x7E] == x[0x7E] == s[0x7E];
    }
  }

  /** If the patch accepts the EDID, the three blocks LoadEdidData delivers are sealed, whatever the bytes
      and whichever of the name and filter passes give up early. */
  lemma LoadedIsSealed(e: seq<byte>, nameEdid: Option<seq<byte>>, capsEdid: Option<seq<byte>>, txModes: seq<Mode>)
    requires |e| == 384 && Accepts(e)
    requires (nameEdid.Some? ==> |nameEdid.value| == 256) && (capsEdid.Some? ==> |capsEdid.value| == 256)
    ensures var r := Loaded(e, nameEdid, capsEdid, txModes);
      Sealed(Block(r, 0)) && Sealed(Block(r, 1)) && Sealed(Block(r, 2))
  {
    hide PatchEdid, CopyName, FilterEdid, TxOf, Sealed, Block, Seal, Accepts;
    PatchSeals(e);
    var p := PatchEdid(e);
    PatchedCount(e);
    CopyNameKeeps(p, nameEdid);
    var n := CopyName(p, nameEdid);
    SameBlock(p, n, 1);
    SameBlock(p, n, 2);
    if capsEdid.Some? && txModes != [] {
      FilterSeals(n, TxOf(capsEdid.value, txModes), 0);
      FilterSeals(n, TxOf(capsEdid.value, txModes), 1);
    }
  }

  lemma PatchedCount(e: seq<byte>)
    requires Accepts(e)
    ensures PatchEdid(e)[0x7E] == 2
  {
    hide PatchBase, PatchExtension, NewExtension, Sealed;
    PatchSeals(e);
    PatchHeads(e[..128], e[128..256]);
    assert PatchEdid(e)[0x7E] == PatchEdid(e)[..128][0x7E];
  }

  /** Whole-EDID form of FilterUndoesPatch: when extension block 1 after patch and filter is block 1 after the
      filter alone. */
  lemma FilterUndoesPatchEdid(e: seq<byte>, tx: Tx)
    requires Accepts(e) && WellFormed(Block(e, 1)) && !tx.caps.SupportsVic(63)
    ensures Block(FilterEdid(PatchEdid(e), tx), 1) == Block(FilterEdid(e, tx), 1) <==> NothingPushedOut(Block(e, 1), tx)
  {
    hide NothingPushedOut;
    hide PatchEdid, FilterEdid, FilterExtension, PatchExtension, WellFormed, Blocks, Patchable, Sealed;
    PatchSeals(e);
    PatchedCount(e);
    FilterByBlock(e, tx, 0);
    FilterByBlock(PatchEdid(e), tx, 0);
    FilterUndoesPatch(Block(e, 1), tx);
  }

  // ----- What the parsers find in a filtered EDID -----

  /** Every CEA extension the EDID counts is well formed. */
  predicate WellFormedEdid(e: seq<byte>) {
    && |e| >= 128
    && forall i :: 0 <= i < e[0x7E] && IsCea(e, i) ==> WellFormed(Block(e, i + 1))
  }

  lemma FilteredExtension(e: seq<byte>, tx: Tx, i: nat)
    requires WellFormedEdid(e) && i < e[0x7E] && 128 * i + 256 <= |e|
    ensures var r := FilterEdid(e, tx);
      && (IsCea(r, i) <==> IsCea(e, i))
      && (IsCea(e, i) ==>
            && WellFormed(Block(r, i + 1))
            && Vics(Blocks(Block(r, i + 1))) == (set v | v in Vics(Blocks(Block(e, i + 1))) && tx.caps.SupportsVic(v))
            && forall f ::
                 AnyAnnounces(Blocks(Block(r, i + 1)), f) <==> Has(tx, f) && AnyAnnounces(Blocks(Block(e, i + 1)), f))
  {
    hide FilterEdid, FilterExtension, RunFilter, AnyAnnounces, Vics, Blocks, WellFormed, Svds, KeepVics, RunOthers,
         Others;
    FilterByBlock(e, tx, i);
    var r, s := FilterEdid(e, tx), Block(e, i + 1);
    assert s[0] == e[128 * i + 128] && Block(r, i + 1)[0] == r[128 * i + 128];
    FilterKeepsKind(s, tx);
    if IsCea(e, i) {
      FilterExtensionMeaning(s, tx);
      FilteredVics(s, tx, false);
      forall f ensures AnyAnnounces(RunFilter(tx, Blocks(s)), f) <==> Has(tx, f) && AnyAnnounces(Blocks(s), f) {
        FilterAnnounces(tx, Blocks(s), f);
      }
    }
  }

  lemma FilterKeepsKind(s: seq<byte>, tx: Tx)
    requires |s| == 128
    ensures FilterExtension(s, tx)[0] == s[0]
  {
    hide SweepBlock, FilterSlots, Seal, Sealed;
    if s[0] == 2 {
      var x := SweepExtension(s, tx);
      assert x[0] == x[..2][0] == s[..2][0] by { SweepKeepsKind(s, tx); }
      var y := FilterTimings(x, tx.caps);
      assert y[0] == x[0];
      assert Seal(y)[0] == Seal(y)[..127][0] == y[0];
    } else {
      assert Seal(s)[0] == Seal(s)[..127][0] == s[0];
    }
  }

  lemma SweepKeepsKind(s: seq<byte>, tx: Tx)
    requires |s| == 128
    ensures SweepExtension(s, tx)[..2] == s[..2]
  {
    hide Sweep;
  }

  lemma {:induction false} FilteredVicsUpTo(e: seq<byte>, tx: Tx, n: nat)
    requires WellFormedEdid(e) && n <= e[0x7E]
    ensures EdidVics(FilterEdid(e, tx), n) == set v | v in EdidVics(e, n) && tx.caps.SupportsVic(v)
  {
    hide FilterEdid, Vics, Blocks, Block, WellFormedEdid;
    if n > 0 {
      FilteredVicsUpTo(e, tx, n - 1);
      if 128 * (n - 1) + 256 <= |e| {
        FilteredExtension(e, tx, n - 1);
      }
    }
  }

  /** The parsers on a filtered, well-formed EDID: the VICs are exactly the supported ones of those it had, a
      feature is announced iff the TX has it and the EDID announced it; and the result is well formed again. */
  lemma FilteredEdid(e: seq<byte>, tx: Tx)
    requires WellFormedEdid(e)
    ensures var r, n := FilterEdid(e, tx), e[0x7E];
      && r[0x7E] == n && WellFormedEdid(r)
      && EdidVics(r, n) == (set v | v in EdidVics(e, n) && tx.caps.SupportsVic(v))
      && forall f :: EdidAnnounces(r, n, f) <==> Has(tx, f) && EdidAnnounces(e, n, f)
  {
    hide FilterEdid, Blocks, Block, AnyAnnounces, WellFormed, Vics, EdidVics, Has;
    var r, n := FilterEdid(e, tx), e[0x7E];
    FilterByBlock(e, tx, 0);
    FilteredVicsUpTo(e, tx, n);
    forall i | 0 <= i < n && IsCea(r, i)
      ensures WellFormed(Block(r, i + 1))
    {
      FilteredExtension(e, tx, i);
    }
    forall f ensures EdidAnnounces(r, n, f) <==> Has(tx, f) && EdidAnnounces(e, n, f) {
      forall i | 0 <= i < n ensures ExtensionAnnounces(r, i, f) <==> Has(tx, f) && ExtensionAnnounces(e, i, f) {
        if 128 * i + 256 <= |e| {
          FilteredExtension(e, tx, i);
        }
      }
    }
  }

  // ----- Idempotence of the filter -----

  lemma FilterBaseTwice(s: seq<byte>, caps: TxCaps)
    requires |s| == 128
    ensures FilterBase(FilterBase(s, caps), caps) == FilterBase(s, caps)
  {
    hide FilterSlots, Seal, Sealed;
    var m := FilterSlots(s[0x36..0x7E], caps);
    var x := s[..0x36] + m + s[0x7E..];
    var r := FilterBase(s, caps);
    var y := r[..0x36] + FilterSlots(r[0x36..0x7E], caps) + r[0x7E..];
    assert r[..127] == x[..127];
    assert r[0x36..0x7E] == r[..127][0x36..0x7E] == x[..127][0x36..0x7E] == m;
    SlotsTwice(s[0x36..0x7E], caps);
    assert y == r;
    SealUnique(r, r);
  }

  /** The extensions of t that the filter visits are well formed or not CEA extensions. */
  predicate WellFormedUpTo(t: seq<byte>, n: nat) {
    n > 0 && |t| >= 128 ==> (t[0] == 2 ==> WellFormed(t[..128])) && WellFormedUpTo(t[128..], n - 1)
  }

  lemma {:induction false} FilterExtensionsTwice(t: seq<byte>, n: nat, tx: Tx)
    requires WellFormedUpTo(t, n)
    ensures FilterExtensions(FilterExtensions(t, n, tx), n, tx) == FilterExtensions(t, n, tx)
    decreases n
  {
    hide FilterExtension, WellFormed, Sealed;
    if n > 0 && |t| >= 128 {
      var r := FilterExtensions(t, n, tx);
      FilterExtensionTwice(t[..128], tx);
      FilterExtensionsTwice(t[128..], n - 1, tx);
      assert r[..128] == FilterExtension(t[..128], tx) && r[128..] == FilterExtensions(t[128..], n - 1, tx);
    }
  }

  lemma {:induction false} UpToFromEdid(e: seq<byte>, at: nat, i: nat, n: nat)
    requires WellFormedEdid(e) && at == 128 * i + 128 <= |e| && i + n == e[0x7E]
    ensures WellFormedUpTo(e[at..], n)
    decreases n
  {
    hide WellFormed;
    var t := e[at..];
    if n > 0 && |t| >= 128 {
      assert t[..128] == Block(e, i + 1) && t[0] == e[at];
      assert IsCea(e, i) <==> t[0] == 2;
      assert t[128..] == e[at + 128..];
      UpToFromEdid(e, at + 128, i + 1, n - 1);
    }
  }

  /** Filtering a filtered, well-formed EDID with the same TX changes nothing. */
  lemma FilterEdidTwice(e: seq<byte>, tx: Tx)
    requires WellFormedEdid(e)
    ensures FilterEdid(FilterEdid(e, tx), tx) == FilterEdid(e, tx)
  {
    hide FilterBase, FilterExtensions, Sealed, WellFormedEdid, WellFormedUpTo;
    assert |e| >= 128 by { LongEnough(e); }
    var r := FilterEdid(e, tx);
    FilterByBlock(e, tx, 0);
    FilterBaseTwice(e[..128], tx.caps);
    UpToFromEdid(e, 128, 0, e[0x7E]);
    FilterExtensionsTwice(e[128..], e[0x7E], tx);
    assert r[..128] == FilterBase(e[..128], tx.caps) && r[128..] == FilterExtensions(e[128..], e[0x7E], tx);
  }

  lemma LongEnough(e: seq<byte>)
    requires WellFormedEdid(e)
    ensures |e| >= 128
  {
  }

  /** The four descriptor slots of the base block after the filter: acceptable, and nothing acceptable lost. */
  lemma FilteredBaseSlots(s: seq<byte>, caps: TxCaps, k: nat)
    requires |s| == 128 && k < 4
    ensures var before, after := Slot(s[0x36..0x7E], k), Slot(FilterBase(s, caps)[0x36..0x7E], k);
      Acceptable(after, caps) && after == if Acceptable(before, caps) then before else Zeros(18)
  {
    hide FilterSlots, FilterSlot, Acceptable, Seal, Sealed, Zeros, Slot;
    var m := FilterSlots(s[0x36..0x7E], caps);
    var x, r := s[..0x36] + m + s[0x7E..], FilterBase(s, caps);
    assert r[0x36..0x7E] == r[..127][0x36..0x7E] == x[..127][0x36..0x7E] == m;
    FilteredSlot(s[0x36..0x7E], k, caps);
    FilterSlotMeaning(Slot(s[0x36..0x7E], k), caps);
  }

  /** The same of every CEA extension of a whole EDID, with its short video descriptors and its other blocks. */
  lemma FilteredEdidSlots(e: seq<byte>, tx: Tx, i: nat, k: nat)
    requires WellFormedEdid(e) && i < e[0x7E] && IsCea(e, i)
    ensures var s, r := Block(e, i + 1), Block(FilterEdid(e, tx), i + 1);
      && WellFormed(s) && WellFormed(r) && AllValid(Others(Blocks(s)))
      && (forall ycbcr420 :: Svds(ycbcr420, Blocks(r)) == KeepVics(Svds(ycbcr420, Blocks(s)), tx.caps))
      && Others(Blocks(r)) == RunOthers(tx, Others(Blocks(s)))
      && (18 * k + 18 <= |Behind(r)| ==> Acceptable(Slot(Behind(r), k), tx.caps))
      && (18 * k + 18 <= |Behind(s)| ==>
            && 18 * k + 18 <= |Behind(r)|
            && Slot(Behind(r), k) == if Acceptable(Slot(Behind(s), k), tx.caps) then Slot(Behind(s), k) else Zeros(18))
  {
    hide FilterEdid, FilterExtension, Acceptable, Slot, Blocks, WellFormed, Svds, KeepVics, RunOthers, Others, Zeros;
    FilterByBlock(e, tx, i);
    var s := Block(e, i + 1);
    FilteredSlots(s, tx, k);
    forall ycbcr420
      ensures Svds(ycbcr420, Blocks(FilterExtension(s, tx))) == KeepVics(Svds(ycbcr420, Blocks(s)), tx.caps)
    {
      FilteredVics(s, tx, ycbcr420);
    }
    FilteredVics(s, tx, false);
  }

  // ----- The patcher's walk against the others -----

  lemma {:induction false} VisitPastEnd(t: seq<byte>, limit: int, limit': int)
    requires limit >= |t| && limit' >= |t|
    ensures Visit(t, limit) == Visit(t, limit')
    decreases |t|
  {
    hide Head, Len;
    if Starts(t) {
      VisitPastEnd(Rest(t), limit - 1 - Len(t[0]), limit' - 1 - Len(t[0]));
    }
  }

  /** The patcher walks the same blocks as the filter and the parsers, except when byte 2 is below 4: there
      it sees none, while the others walk to offset 127. */
  lemma PatcherWalkAgrees(s: seq<byte>)
    requires |s| == 128
    ensures Visit(s[4..127], PatchLimit(s[2])) == Blocks(s) <==> s[2] >= 4 || Blocks(s) == []
  {
    VisitPastEnd(s[4..127], 123, if s[2] >= 127 then s[2] - 4 else 123);
  }

  /** With byte 2 zero the filter sees a video block that the patcher does not. */
  lemma PatcherCanMissBlocks()
    ensures var s := [2, 3, 0, 0, 0x41, 16] + Zeros(122);
      Visit(s[4..127], PatchLimit(s[2])) == [] && Blocks(s) != []
  {
    var s := [2, 3, 0, 0, 0x41, 16] + Zeros(122);
    var t := s[4..127];
    assert t[0] == 0x41 && Starts(t);
  }
}
