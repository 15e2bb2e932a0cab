/** What the passes over an EDID leave as it was. */
module Untouched {
  import opened Bytes
  import opened Timing
  import opened FilterLists
  import opened EdidFilter
  import opened EdidPatch
  import opened EdidPipeline
  import opened EdidLoaded

  /** Sealing changes the last byte at most. */
  lemma SealedByte(x: seq<byte>, i: nat)
    requires |x| == 128 && i < 127
    ensures Seal(x)[i] == x[i]
  {
    hide Seal, Sealed;
    var r := Seal(x);
    assert r[i] == r[..127][i] == x[..127][i];
  }

  /** The filter of the base block changes its four slots and the checksum only. */
  lemma FilterBaseKeeps(s: seq<byte>, caps: TxCaps, i: nat)
    requires |s| == 128 && (i < 0x36 || i == 0x7E)
    ensures FilterBase(s, caps)[i] == s[i]
  {
    hide FilterSlots, Seal, Sealed;
    SealedByte(s[..0x36] + FilterSlots(s[0x36..0x7E], caps) + s[0x7E..], i);
  }

  /** An extension of another kind only gets its checksum. */
  lemma OtherKindKept(s: seq<byte>, tx: Tx, i: nat)
    requires |s| == 128 && s[0] != 2 && i < 127
    ensures FilterExtension(s, tx)[i] == s[i]
  {
    hide Seal, Sealed;
    SealedByte(s, i);
  }

  lemma {:induction false} BehindExtensions(t: seq<byte>, n: nat, tx: Tx, i: nat)
    requires i < |t| && (i >= 128 * n || i >= |t| / 128 * 128)
    ensures FilterExtensions(t, n, tx)[i] == t[i]
    decreases n
  {
    hide FilterExtension, Sealed;
    if n > 0 && |t| >= 128 {
      var r := FilterExtensions(t, n, tx);
      assert r == FilterExtension(t[..128], tx) + FilterExtensions(t[128..], n - 1, tx);
      BehindExtensions(t[128..], n - 1, tx, i - 128);
    }
  }

  /** The filter leaves alone what lies behind the extensions counted, and a last part of less than a block. */
  lemma FilterKeepsBehind(e: seq<byte>, tx: Tx, i: nat)
    requires 128 <= i < |e| && (i >= 128 + 128 * (e[0x7E] as int) || i >= |e| / 128 * 128)
    ensures FilterEdid(e, tx)[i] == e[i]
  {
    hide FilterBase, FilterExtensions, Sealed;
    var r := FilterEdid(e, tx);
    assert r[128..] == FilterExtensions(e[128..], e[0x7E], tx);
    BehindExtensions(e[128..], e[0x7E], tx, i - 128);
  }

  /** The name copy changes the 13 bytes of the name and the checksum only. */
  lemma NamedBaseKeeps(s: seq<byte>, tx: seq<byte>, i: nat)
    requires |s| == 128 && |tx| >= 128 && i < 127
    requires var at := FindName(s, 0x36); at.Some? ==> !(at.value + 5 <= i < at.value + 18)
    ensures NamedBase(s, tx)[i] == s[i]
  {
    hide FindName, Seal, Sealed;
    var from, to := FindName(tx, 0x36), FindName(s, 0x36);
    if from.Some? && to.Some? {
      var at, name := to.value, tx[from.value + 5..from.value + 18];
      var x := s[..at + 5] + name + s[at + 18..];
      SealedByte(x, i);
      assert x[i] == s[i];
    }
  }

  /** The patch changes the first three slots of the base block, its extension count and its checksum only. */
  lemma PatchBaseKeeps(s: seq<byte>, i: nat)
    requires |s| == 128 && (i < 0x36 || 0x6C <= i < 0x7E)
    ensures PatchBase(s)[i] == s[i]
  {
    hide EncodeAll, Seal, Sealed;
    SixModes();
    var y := s[..0x36] + EncodeAll(BASE_MODES) + s[0x6C..];
    SealedByte(y[0x7E := 2], i);
    assert y[i] == s[i];
  }

  /** The head of the second extension: kind, revision, timings from byte 4 on, no flags. */
  lemma NewExtensionStart()
    ensures var n := NewExtension(); n[0] == 2 && n[1] == 3 && n[2] == 4 && n[3] == 0
  {
    hide EncodeAll, Seal, Sealed, Zeros;
    SixModes();
    var x := [0x02, 0x03, 4, 0x00] + EncodeAll(NEW_MODES) + Zeros(16);
    SealedByte(x, 0);
    SealedByte(x, 1);
    SealedByte(x, 2);
    SealedByte(x, 3);
  }

  /** Through all three passes the head of the base block stays: header, identity, version, colours and
      established and standard timings (bytes 0 to 0x35). */
  lemma LoadedKeepsIdentity(e: seq<byte>, nameEdid: Option<seq<byte>>, capsEdid: Option<seq<byte>>,
                            txModes: seq<Mode>, i: nat)
    requires |e| == 384 && i < 0x36
    requires (nameEdid.Some? ==> |nameEdid.value| == 256) && (capsEdid.Some? ==> |capsEdid.value| == 256)
    ensures Loaded(e, nameEdid, capsEdid, txModes)[i] == e[i]
  {
    hide PatchEdid, CopyName, FilterEdid, TxOf, Accepts;
    var p := if Accepts(e) then PatchEdid(e) else e;
    if Accepts(e) {
      PatchedByte(e, i);
    }
    CopiedByte(p, nameEdid, i);
    var c := CopyName(p, nameEdid);
    if Knows(capsEdid, txModes) {
      FilteredByte(c, TxOf(capsEdid.value, txModes), i);
    }
  }

  lemma PatchedByte(e: seq<byte>, i: nat)
    requires Accepts(e) && i < 0x36
    ensures PatchEdid(e)[i] == e[i]
  {
    hide PatchBase, PatchExtension, NewExtension, Sealed;
    PatchBaseKeeps(e[..128], i);
  }

  lemma CopiedByte(e: seq<byte>, nameEdid: Option<seq<byte>>, i: nat)
    requires |e| >= 128 && i < 0x36 && (nameEdid.Some? ==> |nameEdid.value| == 256)
    ensures CopyName(e, nameEdid)[i] == e[i]
  {
    hide NamedBase;
    if nameEdid.Some? {
      NamedBaseKeeps(e[..128], nameEdid.value, i);
    }
  }

  lemma FilteredByte(e: seq<byte>, tx: Tx, i: nat)
    requires |e| >= 128 && i < 0x36
    ensures FilterEdid(e, tx)[i] == e[i]
  {
    hide FilterBase, FilterExtensions;
    FilterBaseKeeps(e[..128], tx.caps, i);
  }
}
