/** What the capability filter means for a well-formed EDID: soundness, completeness, idempotence. */
module EdidTheorems {
  import opened Bytes
  import opened Timing
  import opened DataBlocks
  import opened Passes
  import opened Parsers
  import opened FilterLists
  import opened FeatureFilter
  import opened EdidFilter

  /** The bytes behind the collection of a well-formed extension, up to its checksum. */
  function Behind(s: seq<byte>): seq<byte>
    requires WellFormed(s)
  {
    s[s[2]..127]
  }

  /** How many bytes the filter takes out of a list. */
  function Shrinkage(tx: Tx, bs: seq<DataBlock>): (n: nat)
    requires AllValid(bs)
    ensures n == |Print(bs)| - |Print(RunFilter(tx, bs))|
  {
    hide RewriteAll, Print;
    var b1 := RewriteAll(tx.Video(), bs);
    var b2 := RewriteAll(tx.Feature(), b1);
    PrintShrinks(tx.Video(), bs);
    PrintShrinks(tx.Feature(), b1);
    PrintShrinks(tx.Vendor(), b2);
    |Print(bs)| - |Print(RunFilter(tx, bs))|
  }

  lemma ZerosBehind(s: seq<byte>, m: nat, n: nat)
    ensures s + Zeros(m) + Zeros(n) == s + Zeros(m + n)
  {
    ZerosAppend(m, n);
  }

  /** The three sweeps together. */
  lemma SweepExtensionMeaning(s: seq<byte>, tx: Tx)
    requires WellFormed(s)
    ensures var r := SweepExtension(s, tx);
      && WellFormed(r) && Blocks(r) == RunFilter(tx, Blocks(s)) && r[1] == s[1] && r[3] == s[3]
      && Behind(r) == Behind(s) + Zeros(Shrinkage(tx, Blocks(s)))
  {
    hide SweepBlock, RewriteAll, Print, Blocks, WellFormed, Zeros, Layout;
    assert |s| == 128 by { Is128(s); }
    var bs := Blocks(s);
    var b1 := RewriteAll(tx.Video(), bs);
    var b2 := RewriteAll(tx.Feature(), b1);
    var s1 := SweepBlock(tx.Video(), s);
    var s2 := SweepBlock(tx.Feature(), s1);
    SweepStep(tx.Video(), s);
    SweepStep(tx.Feature(), s1);
    ZerosBehind(Behind(s), Lost(tx.Video(), bs), Lost(tx.Feature(), b1));
    if !tx.vrr {
      SweepStep(tx.Vendor(), s2);
      ZerosBehind(Behind(s), Lost(tx.Video(), bs) + Lost(tx.Feature(), b1), Lost(tx.Vendor(), b2));
    }
  }

  lemma Is128(s: seq<byte>)
    requires WellFormed(s)
    ensures |s| == 128
  {
  }

  lemma SweepStep(p: Pass, s: seq<byte>)
    requires WellFormed(s)
    ensures var r := SweepBlock(p, s);
      && WellFormed(r) && Blocks(r) == RewriteAll(p, Blocks(s)) && r[1] == s[1] && r[3] == s[3]
      && Behind(r) == Behind(s) + Zeros(Lost(p, Blocks(s)))
  {
    hide SweepBlock, RewriteAll, Blocks, Layout, Print;
    SweepBlockMeaning(p, s);
  }

  lemma FilterTimingsMeaning(s: seq<byte>, caps: TxCaps)
    requires WellFormed(s)
    ensures |Print(Blocks(s))| + |FilterSlots(Behind(s), caps)| == 123
    ensures FilterTimings(s, caps)[..127] == Layout(s[1], s[3], Blocks(s), FilterSlots(Behind(s), caps))
  {
    hide Print, Blocks, FilterSlots;
    WellFormedIsLayout(s);
    NoSlots(caps);
    assert s[..127] == s[..s[2]] + Behind(s);
  }

  lemma NoSlots(caps: TxCaps)
    ensures FilterSlots([], caps) == []
  {
  }

  /** A filtered extension is laid out from the filtered list and the filtered timing slots: header bytes
      stay, everything behind the collection moves left by what the list lost, zeros fill up. */
  lemma FilterExtensionMeaning(s: seq<byte>, tx: Tx)
    requires WellFormed(s)
    ensures var bs := RunFilter(tx, Blocks(s));
      var behind := FilterSlots(Behind(s) + Zeros(Shrinkage(tx, Blocks(s))), tx.caps);
      var r := FilterExtension(s, tx);
      && |Print(bs)| + |behind| == 123
      && r[..127] == Layout(s[1], s[3], bs, behind)
      && WellFormed(r) && Blocks(r) == bs && r[1] == s[1] && r[3] == s[3] && Behind(r) == behind
  {
    hide SweepExtension, FilterTimings, RunFilter, Print, Blocks, FilterSlots, Zeros, Layout, Shrinkage;
    var swept := SweepExtension(s, tx);
    SweepExtensionMeaning(s, tx);
    FilterTimingsMeaning(swept, tx.caps);
    var bs, behind := RunFilter(tx, Blocks(s)), FilterSlots(Behind(s) + Zeros(Shrinkage(tx, Blocks(s))), tx.caps);
    LayoutIsWellFormed(FilterExtension(s, tx), s[1], s[3], bs, behind);
  }

  // ----- Soundness and completeness of one extension -----

  /** Slot number k of a region. */
  function Slot(s: seq<byte>, k: nat): (d: seq<byte>)
    requires 18 * k + 18 <= |s|
    ensures |d| == 18
  {
    s[18 * k..18 * k + 18]
  }

  lemma NextSlot(s: seq<byte>, k: nat)
    requires 0 < k && 18 * k + 18 <= |s|
    ensures Slot(s[18..], k - 1) == Slot(s, k)
  {
    assert s[18..] == s[18..|s|];
    SliceIn(s, 18, |s|, 18 * (k - 1), 18 * (k - 1) + 18);
  }

  lemma {:induction false} FilteredSlot(s: seq<byte>, k: nat, caps: TxCaps)
    requires 18 * k + 18 <= |s|
    ensures Slot(FilterSlots(s, caps), k) == FilterSlot(Slot(s, k), caps)
    decreases k
  {
    hide FilterSlot;
    var r := FilterSlots(s, caps);
    assert r == FilterSlot(s[..18], caps) + FilterSlots(s[18..], caps);
    if k > 0 {
      FilteredSlot(s[18..], k - 1, caps);
      NextSlot(s, k);
      NextSlot(r, k);
      assert r[18..] == FilterSlots(s[18..], caps);
    } else {
      assert Slot(s, 0) == s[..18] && Slot(r, 0) == r[..18];
    }
  }

  /** A mode the TX can show, or not a timing at all: a display descriptor, or cleared. */
  predicate Acceptable(d: seq<byte>, caps: TxCaps)
    requires |d| == 18
  {
    ToMode(d).Some? ==> caps.SupportsMode(ToMode(d).value)
  }

  lemma FilterSlotMeaning(d: seq<byte>, caps: TxCaps)
    requires |d| == 18
    ensures Acceptable(FilterSlot(d, caps), caps)
    ensures FilterSlot(d, caps) == if Acceptable(d, caps) then d else Zeros(18)
  {
    ZeroSlot();
  }

  lemma ZeroSlot()
    ensures ToMode(Zeros(18)).None?
  {
  }

  lemma {:induction false} VicsOfSvds(bs: seq<DataBlock>, v: int)
    ensures v in Vics(bs) <==> exists x :: x in Svds(false, bs) && Vic(x) == v
  {
    if bs != [] {
      VicsOfSvds(bs[1..], v);
      assert Svds(false, bs) == SvdsOf(false, bs[0]) + Svds(false, bs[1..]);
      forall x: byte ensures x in Svds(false, bs) <==> x in SvdsOf(false, bs[0]) || x in Svds(false, bs[1..]) {
      }
      if bs[0].tag == 2 {
        assert SvdsOf(false, bs[0]) == bs[0].payload;
      }
    }
  }

  /** After the filter the VICs the parser collects are exactly the supported ones of those it collected
      before; in the video and in the 4:2:0 blocks every supported descriptor byte stays, in order; the
      other blocks see only the feature and vendor passes. */
  lemma FilteredVics(s: seq<byte>, tx: Tx, ycbcr420: bool)
    requires WellFormed(s)
    ensures var before, after := Blocks(s), Blocks(FilterExtension(s, tx));
      && Svds(ycbcr420, after) == KeepVics(Svds(ycbcr420, before), tx.caps)
      && AllValid(Others(before)) && Others(after) == RunOthers(tx, Others(before))
      && Vics(after) == set v | v in Vics(before) && tx.caps.SupportsVic(v)
  {
    hide KeepVics, Svds, Vics, FilterExtension, RunFilter, RunOthers, Others, Blocks, WellFormed;
    FilterExtensionMeaning(s, tx);
    Is128(s);
    var bs := Blocks(s);
    FilterMeaning(tx, bs, ycbcr420);
    FilterMeaning(tx, bs, false);
    var after := RunFilter(tx, bs);
    var kept := set v | v in Vics(bs) && tx.caps.SupportsVic(v);
    forall v: int ensures v in Vics(after) <==> v in kept {
      VicsOfSvds(bs, v);
      VicsOfSvds(after, v);
      KeptVic(bs, after, v, tx.caps);
    }
    assert Vics(after) == kept;
  }

  lemma KeptVic(before: seq<DataBlock>, after: seq<DataBlock>, v: int, caps: TxCaps)
    requires Svds(false, after) == KeepVics(Svds(false, before), caps)
    ensures (exists x :: x in Svds(false, after) && Vic(x) == v)
       <==> (exists x :: x in Svds(false, before) && Vic(x) == v) && caps.SupportsVic(v)
  {
    hide Svds, Vic;
    var p := Svds(false, before);
    if exists x :: x in Svds(false, after) && Vic(x) == v {
      var x :| x in KeepVics(p, caps) && Vic(x) == v;
      assert x in p;
    }
    if (exists x :: x in p && Vic(x) == v) && caps.SupportsVic(v) {
      var x :| x in p && Vic(x) == v;
      assert x in KeepVics(p, caps);
    }
  }

  /** After the filter every slot the filter scans is acceptable, and no acceptable slot was lost. */
  lemma FilteredSlots(s: seq<byte>, tx: Tx, k: nat)
    requires WellFormed(s)
    ensures var r := FilterExtension(s, tx);
      && WellFormed(r)
      && (18 * k + 18 <= |Behind(r)| ==> Acceptable(Slot(Behind(r), k), tx.caps))
      && (18 * k + 18 <= |Behind(s)| ==>
            && 18 * k + 18 <= |Behind(r)|
            && Slot(Behind(r), k) == if Acceptable(Slot(Behind(s), k), tx.caps) then Slot(Behind(s), k) else Zeros(18))
  {
    hide FilterExtension, FilterSlots, FilterSlot, Acceptable, Shrinkage, Zeros;
    FilterExtensionMeaning(s, tx);
    var all := Behind(s) + Zeros(Shrinkage(tx, Blocks(s)));
    if 18 * k + 18 <= |all| {
      FilteredSlot(all, k, tx.caps);
      FilterSlotMeaning(Slot(all, k), tx.caps);
      assert 18 * k + 18 <= |Behind(s)| ==> Slot(all, k) == Slot(Behind(s), k);
    }
  }

  // ----- Idempotence -----

  lemma {:induction false} SlotsTwice(s: seq<byte>, caps: TxCaps)
    ensures FilterSlots(FilterSlots(s, caps), caps) == FilterSlots(s, caps)
  {
    hide FilterSlot;
    if |s| >= 18 {
      SlotsTwice(s[18..], caps);
      FilterSlotTwice(s[..18], caps);
      var r := FilterSlots(s, caps);
      assert r[..18] == FilterSlot(s[..18], caps) && r[18..] == FilterSlots(s[18..], caps);
    }
  }

  lemma FilterSlotTwice(d: seq<byte>, caps: TxCaps)
    requires |d| == 18
    ensures FilterSlot(FilterSlot(d, caps), caps) == FilterSlot(d, caps)
  {
    hide Zeros;
    FilterSlotMeaning(d, caps);
    FilterSlotMeaning(FilterSlot(d, caps), caps);
  }

  lemma FilterExtensionTwice(s: seq<byte>, tx: Tx)
    requires |s| == 128 && (s[0] == 2 ==> WellFormed(s))
    ensures FilterExtension(FilterExtension(s, tx), tx) == FilterExtension(s, tx)
  {
    hide SweepExtension, FilterTimings, RunFilter, Print, Blocks, FilterSlots, Zeros, Seal;
    var r := FilterExtension(s, tx);
    if s[0] == 2 {
      var bs := Blocks(s);
      FilterExtensionMeaning(s, tx);
      FilterExtensionMeaning(r, tx);
      FilterTwice(tx, bs);
      assert Shrinkage(tx, Blocks(r)) == 0;
      NoZeros(Behind(r));
      SlotsTwice(Behind(s) + Zeros(Shrinkage(tx, bs)), tx.caps);
      FilterExtensionSealed(r, tx);
      SealUnique(FilterExtension(r, tx), r);
    } else {
      assert r[0] == r[..127][0] == s[0];
      SealUnique(r, r);
    }
  }

  lemma FilterExtensionSealed(s: seq<byte>, tx: Tx)
    requires |s| == 128
    ensures FilterExtension(s, tx) == Seal(FilterExtension(s, tx))
  {
    SealUnique(FilterExtension(s, tx), FilterExtension(s, tx));
  }
}
