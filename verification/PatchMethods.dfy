/** The in-place form of the patcher, proved against EdidPatch. */
module PatchMethods {
  import opened Bytes
  import opened Timing
  import opened DataBlocks
  import opened Passes
  import opened CeaFilter
  import opened EdidFilter
  import opened EdidPatch

  /** at + d for a hit found d bytes further on. */
  function Shift(at: Option<nat>, d: nat): Option<nat> {
    match at
    case None => None
    case Some(k) => Some(k + d)
  }

  lemma VideoRoundAt(t: seq<byte>, limit: int, d: nat)
    ensures !(limit > 0 && Starts(t)) ==> VideoAt(t, limit) == None
    ensures limit > 0 && Starts(t) && Tag(t[0]) == 2 ==> VideoAt(t, limit) == Some(0)
    ensures limit > 0 && Starts(t) && Tag(t[0]) != 2 ==>
      Shift(VideoAt(t, limit), d) == Shift(VideoAt(Rest(t), limit - 1 - Len(t[0])), d + (Len(t[0]) + 1))
  {
    hide Len, Tag;
  }

  /** The patcher's walk to the first video block, as an offset in the extension. */
  method FindVideoBlock(a: array<byte>, base: nat, dtdStart: nat) returns (found: Option<nat>)
    requires base + 128 <= a.Length
    requires dtdStart == if a[base + 2] < 4 then 4 else a[base + 2]
    ensures found == Shift(VideoAt(Window(a[..], base, 4), PatchLimit(a[base + 2])), 4)
  {
    hide VideoAt, Len, Tag, Starts, Head, Rest, Window;
    ghost var x := a[..];
    ghost var goal := Shift(VideoAt(Window(x, base, 4), PatchLimit(x[base + 2])), 4);
    var offset := 4;
    while offset < dtdStart && offset < 127
      invariant 4 <= offset <= 127
      invariant goal == Shift(VideoAt(Window(x, base, offset), dtdStart - offset), offset)
      decreases 127 - offset
    {
      BlockAhead(x, base, offset);
      VideoRoundAt(Window(x, base, offset), dtdStart - offset, offset);
      var tag, length := Tag(a[base + offset]), Len(a[base + offset]);
      if length == 0 || offset + length + 1 > 127 {
        return None;
      }
      if tag == 2 {
        return Some(offset);
      }
      RestAhead(x, base, offset);
      offset := offset + (length + 1);
    }
    EmptyWindow(x, base, offset, dtdStart);
    return None;
  }

  lemma EmptyWindow(x: seq<byte>, base: nat, offset: nat, dtdStart: nat)
    requires base + 128 <= |x| && 4 <= offset <= 127 && (offset >= dtdStart || offset == 127)
    ensures VideoAt(Window(x, base, offset), dtdStart - offset) == None
  {
  }

  lemma RestAhead(x: seq<byte>, base: nat, offset: nat)
    requires base + 128 <= |x| && 4 <= offset < 127 && Starts(Window(x, base, offset))
    ensures offset + (Len(x[base + offset]) + 1) <= 127
    ensures Rest(Window(x, base, offset)) == Window(x, base, offset + (Len(x[base + offset]) + 1))
  {
    var n := Len(x[base + offset]);
    SliceOfSlice(x, base + offset, base + 127, 1 + n);
  }

  lemma HasVic63(p: seq<byte>, n: nat)
    requires n <= |p|
    ensures Lists63(p[..n]) <==> exists i :: 0 <= i < n && Vic(p[i]) == 63
  {
    if exists i :: 0 <= i < n && Vic(p[i]) == 63 {
      var i :| 0 <= i < n && Vic(p[i]) == 63;
      assert p[..n][i] == p[i];
    }
    if Lists63(p[..n]) {
      var i :| 0 <= i < |p[..n]| && Vic(p[..n][i]) == 63;
      assert p[i] == p[..n][i];
    }
  }

  method PayloadLists63(a: array<byte>, first: nat, length: nat) returns (present: bool)
    requires first + length <= a.Length
    ensures present <==> Lists63(a[..][first..first + length])
  {
    hide Lists63, Vic;
    ghost var p := a[..][first..first + length];
    present := false;
    for i := 0 to length
      invariant present <==> exists j :: 0 <= j < i && Vic(p[j]) == 63
    {
      assert p[i] == a[first + i];
      if Vic(a[first + i]) == 63 {
        present := true;
        break;
      }
    }
    HasVic63(p, length);
    assert p[..length] == p;
  }

  /** Step 1 of the patcher: VIC 63 into the first video block of the extension at base. */
  method AddVic63(a: array<byte>, base: nat)
    requires base + 128 <= a.Length
    modifies a
    ensures a[..] == Splice(old(a[..]), base, InsertVic(old(a[..])[base..base + 128]))
  {
    hide VideoAt, Len, Tag, Header, Lists63, InsertAt, Splice, InsertVic, Shifted, PatchLimit, Window;
    ghost var e := a[..];
    var byte2: int := a[base + 2];
    var dtdStart: int := if byte2 < 4 then 4 else byte2;
    var found := FindVideoBlock(a, base, dtdStart);
    Found(e, base, found);
    if found.None? {
      return;
    }
    var at := found.value;
    var length := Len(a[base + at]);
    var vic63Present := PayloadLists63(a, base + at + 1, length);
    if !vic63Present && length < 31 {
      var insertPos := base + at + 1 + length;
      if base + 127 - insertPos > 0 && dtdStart + 1 <= 127 {
        InsertStores(e, base, at, length, insertPos);
        ShiftRight(a, insertPos, base + 127);
        ghost var x := a[..];
        a[insertPos] := 63;
        a[base + at] := Header(Tag(a[base + at]), length + 1);
        a[base + 2] := Byte(dtdStart + 1);
        ghost var inserted: seq<byte> := x[insertPos := 63];
        ghost var headed: seq<byte> := inserted[base + at := Header(Tag(x[base + at]), length + 1)];
        assert a[..] == headed[base + 2 := Byte(dtdStart + 1)];
      }
    }
  }

  /** What the patcher's decision means for the extension at base. */
  lemma Found(e: seq<byte>, base: nat, found: Option<nat>)
    requires base + 128 <= |e|
    requires found == Shift(VideoAt(Window(e, base, 4), PatchLimit(e[base + 2])), 4)
    ensures var s := e[base..base + 128];
      match found
      case None => e == Splice(e, base, InsertVic(s))
      case Some(at) =>
        && 4 <= at && at + 1 + Len(e[base + at]) <= 127 && e[base + 2] >= 4
        && var room := !Lists63(e[base + at + 1..base + at + 1 + Len(e[base + at])]) && Len(e[base + at]) < 31
                       && at + 1 + Len(e[base + at]) < 127 && e[base + 2] < 127;
           if room then s[at] == e[base + at] < 255 && s[2] == e[base + 2] && InsertVic(s) == InsertAt(s, at)
           else e == Splice(e, base, InsertVic(s))
  {
    hide VideoAt, Len, Lists63, InsertAt, Splice;
    var s := e[base..base + 128];
    SpliceTwice(e, base, s, s);
    assert s[4..127] == Window(e, base, 4) by { SliceIn(e, base, base + 128, 4, 127); }
    if found.Some? {
      var at := found.value;
      assert Window(e, base, 4)[at - 4] == e[base + at] == s[at];
      SliceIn(e, base, base + 128, at + 1, at + 1 + Len(e[base + at]));
    }
  }

  /** memmove of a[at..end] one byte to the right. */
  method ShiftRight(a: array<byte>, at: nat, end: nat)
    requires at <= end < a.Length
    modifies a
    ensures a[..] == Shifted(old(a[..]), at, end)
  {
    forall i | at < i <= end { a[i] := a[i - 1]; }
  }

  function Shifted(e: seq<byte>, at: nat, end: nat): (r: seq<byte>)
    requires at <= end < |e|
    ensures |r| == |e|
  {
    e[..at + 1] + e[at..end] + e[end + 1..]
  }

  lemma ShiftedAt(e: seq<byte>, at: nat, end: nat, i: nat)
    requires at <= end < |e| && i < |e|
    ensures Shifted(e, at, end)[i] == if at < i <= end then e[i - 1] else e[i]
  {
  }

  lemma InsertStores(e: seq<byte>, base: nat, at: nat, n: nat, pos: nat)
    requires base + 128 <= |e| && 4 <= at && at + 1 + n < 127 && n == Len(e[base + at]) < 31 && e[base + 2] < 127
    requires pos == base + at + 1 + n
    ensures var s, x := e[base..base + 128], Shifted(e, pos, base + 127);
      && s[at] == e[base + at] && s[2] == e[base + 2] && s[at] < 255
      && x[pos := 63][base + at := Header(Tag(x[base + at]), n + 1)][base + 2 := Byte(e[base + 2] + 1)]
         == Splice(e, base, InsertAt(s, at))
  {
    var s, x := e[base..base + 128], Shifted(e, pos, base + 127);
    assert Len(s[at]) == n;
    assert x[base + at] == e[base + at] && Header(Tag(e[base + at]), n + 1) == s[at] + 1;
    var inserted: seq<byte> := x[pos := 63];
    var r := s[..at + 1 + n] + [63] + s[at + 1 + n..127];
    forall i | 0 <= i < |e| ensures inserted[i] == Splice(e, base, r)[i] {
      ShiftedAt(e, pos, base + 127, i);
      if base <= i < base + 128 {
        var j := i - base;
        assert Splice(e, base, r)[i] == r[j];
        assert r[j] == if i < pos then s[j] else if i == pos then 63 else s[j - 1];
      }
    }
    assert inserted == Splice(e, base, r);
  }

  // ----- The rest of the patcher -----

  lemma EncodeNext(ts: seq<Timings>, i: nat)
    requires i < |ts|
    ensures EncodeAll(ts[..i + 1]) == EncodeAll(ts[..i]) + Encode(ts[i])
    ensures EncodeAll(ts[..0]) == []
  {
    hide Encode;
    assert ts[..i + 1][..i] == ts[..i];
  }

  lemma OverlayAppend(e: seq<byte>, at: nat, p: seq<byte>, d: seq<byte>)
    requires at + |p| + |d| <= |e|
    ensures var x, next := Overlay(e, at, p), at + |p|;
      x[..next] + d + x[next + |d|..] == Overlay(e, at, p + d)
    ensures Overlay(e, at, []) == e
  {
  }

  /** Step 1b: the base modes over consecutive slots from `at` on. */
  method WriteBaseModes(a: array<byte>, at: nat, ts: seq<Timings>)
    requires at + 18 * |ts| <= a.Length
    modifies a
    ensures a[..] == Overlay(old(a[..]), at, EncodeAll(ts))
  {
    hide Encode, EncodeAll, Overlay;
    ghost var e := a[..];
    NoModes(e, at);
    for i := 0 to |ts|
      invariant a[..] == Overlay(e, at, EncodeAll(ts[..i]))
    {
      EncodeNext(ts, i);
      OverlayAppend(e, at, EncodeAll(ts[..i]), Encode(ts[i]));
      WriteDetailedTiming(a, at + 18 * i, ts[i]);
    }
    assert ts[..|ts|] == ts;
  }

  lemma NoModes(e: seq<byte>, at: nat)
    requires at <= |e|
    ensures Overlay(e, at, EncodeAll([])) == e
  {
  }

  /** Step 2: the same through the inline encoder, as long as slots are free before `end`. */
  method WriteNewModes(a: array<byte>, at: nat, end: nat, ts: seq<Timings>) returns (addedCount: nat)
    requires at + 18 * |ts| <= end <= a.Length
    requires forall i :: 0 <= i < |ts| ==> ts[i].hImageSize == 800 && ts[i].vImageSize == 450
    modifies a
    ensures a[..] == Overlay(old(a[..]), at, EncodeAll(ts)) && addedCount == |ts|
  {
    hide Encode, EncodeAll, Overlay, InlineEncode;
    ghost var e := a[..];
    NoModes(e, at);
    addedCount := 0;
    for m := 0 to |ts|
      invariant a[..] == Overlay(e, at, EncodeAll(ts[..m]))
      invariant addedCount == m
    {
      if at + 18 * m + 18 > end {
        break;
      }
      EncodeNext(ts, m);
      OverlayAppend(e, at, EncodeAll(ts[..m]), Encode(ts[m]));
      InlineEncoderAgrees(ts[m]);
      assert ts[m].(hImageSize := 800, vImageSize := 450) == ts[m];
      Store(a, at + 18 * m, InlineEncode(ts[m]));
      addedCount := addedCount + 1;
    }
    assert ts[..|ts|] == ts;
  }

  /** Three blocks and what follows them. */
  function Parts(b0: seq<byte>, b1: seq<byte>, b2: seq<byte>, rest: seq<byte>): seq<byte> {
    b0 + b1 + b2 + rest
  }

  lemma PartsOf(b0: seq<byte>, b1: seq<byte>, b2: seq<byte>, rest: seq<byte>, x: seq<byte>)
    requires |b0| == |b1| == |b2| == |x| == 128
    ensures var e := Parts(b0, b1, b2, rest);
      && |e| >= 384
      && e[0..128] == b0 && e[128..256] == b1 && e[256..384] == b2
      && Splice(e, 0, x) == Parts(x, b1, b2, rest)
      && Splice(e, 128, x) == Parts(b0, x, b2, rest)
      && Splice(e, 256, x) == Parts(b0, b1, x, rest)
  {
    var e := Parts(b0, b1, b2, rest);
    assert e[128..] == b1 + b2 + rest && e[256..] == b2 + rest && e[384..] == rest;
    assert e[..256] == b0 + b1;
  }

  lemma PartsSplit(e: seq<byte>)
    requires |e| >= 384
    ensures e == Parts(e[..128], e[128..256], e[256..384], e[384..])
  {
  }

  lemma BaseParts(b0: seq<byte>, b1: seq<byte>, b2: seq<byte>, rest: seq<byte>, at: nat, m: seq<byte>)
    requires |b0| == 128 && at + |m| <= 128
    ensures Overlay(Parts(b0, b1, b2, rest), at, m) == Parts(Overlay(b0, at, m), b1, b2, rest)
  {
  }

  lemma CountParts(b0: seq<byte>, b1: seq<byte>, b2: seq<byte>, rest: seq<byte>)
    requires |b0| == 128
    ensures Parts(b0, b1, b2, rest)[0x7E := 2] == Parts(b0[0x7E := 2], b1, b2, rest)
  {
  }

  lemma BaseResult(s: seq<byte>)
    requires |s| == 128
    ensures |BASE_MODES| == 3
    ensures Seal(Seal(Overlay(s, 0x36, EncodeAll(BASE_MODES)))[0x7E := 2]) == PatchBase(s)
  {
    hide EncodeAll, Seal;
    assert |BASE_MODES| == 3;
    var x := Overlay(s, 0x36, EncodeAll(BASE_MODES));
    var y := Seal(x)[0x7E := 2];
    assert y[..127] == Seal(x)[..127][0x7E := 2] == x[..127][0x7E := 2] == x[0x7E := 2][..127];
    SealUnique(y, x[0x7E := 2]);
  }

  /** The second extension written from scratch over block 2. */
  method WriteNewExtension(a: array<byte>, ghost b0: seq<byte>, ghost b1: seq<byte>, ghost b2: seq<byte>,
                           ghost rest: seq<byte>)
    returns (addedCount: nat)
    requires |b0| == |b1| == |b2| == 128 && a[..] == Parts(b0, b1, b2, rest)
    modifies a
    ensures a[..] == Parts(b0, b1, [0x02, 0x03, 4, 0x00] + EncodeAll(NEW_MODES) + Zeros(16), rest)
    ensures addedCount == 6
  {
    hide EncodeAll, Overlay;
    var header: seq<byte> := [0x02, 0x03, 4, 0x00];
    NewModesFit();
    ghost var e := a[..];
    Store(a, 256, Zeros(128));
    Store(a, 256, header);
    ghost var x := a[..];
    addedCount := WriteNewModes(a, 260, 256 + 127, NEW_MODES);
    NewParts(b0, b1, b2, rest, header, EncodeAll(NEW_MODES), e, x);
  }

  lemma NewModesFit()
    ensures |NEW_MODES| == 6
    ensures forall i :: 0 <= i < |NEW_MODES| ==> NEW_MODES[i].hImageSize == 800 && NEW_MODES[i].vImageSize == 450
  {
  }

  lemma NewParts(b0: seq<byte>, b1: seq<byte>, b2: seq<byte>, rest: seq<byte>, header: seq<byte>, m: seq<byte>,
                 e: seq<byte>, x: seq<byte>)
    requires |b0| == |b1| == |b2| == 128 && e == Parts(b0, b1, b2, rest) && |header| == 4 && |m| == 108
    requires var y := e[..256] + Zeros(128) + e[384..]; x == y[..256] + header + y[260..]
    ensures Overlay(x, 260, m) == Parts(b0, b1, header + m + Zeros(16), rest)
  {
    PartsOf(b0, b1, b2, rest, b0);
    var y := e[..256] + Zeros(128) + e[384..];
    assert e[..256] == b0 + b1 && e[384..] == rest;
    assert y == b0 + b1 + Zeros(128) + rest;
    assert x == b0 + b1 + header + Zeros(124) + rest;
  }

  /** The number of the first CEA extension whose 128 bytes lie in the first 256: only number 0 can. */
  method FindCea(a: array<byte>, numExtensions: nat) returns (extOffset: Option<nat>)
    requires a.Length >= 256
    ensures extOffset == if numExtensions > 0 && a[128] == 2 then Some(128) else None
  {
    var ext := 0;
    while ext < numExtensions
      invariant 0 <= ext <= 1
      invariant ext == 1 ==> a[128] != 2
      invariant ext == 1 ==> numExtensions > 0
    {
      var testOffset := 128 + ext * 128;
      if testOffset + 128 > 256 {
        break;
      }
      if a[testOffset] == 2 {
        return Some(testOffset);
      }
      ext := ext + 1;
    }
    return None;
  }

  /** Return value and buffer: an EDID that is not accepted stays as it is. */
  method PatchEdidFor120Hz(a: array<byte>) returns (ret: int)
    modifies a
    ensures ret == if Accepts(old(a[..])) then 0 else -1
    ensures ret == 0 <==> a.Length >= 384 && old(a[..])[0x7E] > 0 && old(a[..])[128] == 0x02
    ensures a[..] == if Accepts(old(a[..])) then PatchEdid(old(a[..])) else old(a[..])
  {
    hide PatchBase, PatchExtension, NewExtension, InsertVic, Overlay, EncodeAll, Seal, Sealed, Splice, Parts;
    ghost var e := a[..];
    if a.Length < 384 {
      return -1;
    }
    if a[0x7E] == 0 {
      return -1;
    }
    var extOffset := FindCea(a, a[0x7E]);
    if extOffset.None? {
      return -1;
    }
    ghost var rest := e[384..];
    PartsSplit(e);
    var addedCount := PatchAccepted(a, e[..128], e[128..256], e[256..384], rest);
    PatchParts(e);
    return if addedCount > 0 then 0 else -1;
  }

  lemma PatchParts(e: seq<byte>)
    requires Accepts(e)
    ensures PatchEdid(e) == Parts(PatchBase(e[..128]), PatchExtension(e[128..256]), NewExtension(), e[384..])
  {
  }

  /** The stores of an accepted patch, on the parts of the buffer. */
  method PatchAccepted(a: array<byte>, ghost b0: seq<byte>, ghost b1: seq<byte>, ghost b2: seq<byte>,
                       ghost rest: seq<byte>)
    returns (addedCount: nat)
    requires a.Length >= 384 && |b0| == |b1| == |b2| == 128 && a[..] == Parts(b0, b1, b2, rest)
    modifies a
    ensures a[..] == Parts(PatchBase(b0), PatchExtension(b1), NewExtension(), rest) && addedCount == 6
  {
    hide InsertVic, Overlay, EncodeAll, Seal, Sealed, Splice, Parts, PatchBase;
    ghost var m := Overlay(b0, 0x36, EncodeAll(BASE_MODES));
    BaseResult(b0);
    PartsOf(b0, b1, b2, rest, InsertVic(b1));
    AddVic63(a, 128);
    PartsOf(b0, InsertVic(b1), b2, rest, PatchExtension(b1));
    RecalculateEdidBlockChecksum(a, 128);
    BaseParts(b0, PatchExtension(b1), b2, rest, 0x36, EncodeAll(BASE_MODES));
    WriteBaseModes(a, 0x36, BASE_MODES);
    PartsOf(m, PatchExtension(b1), b2, rest, Seal(m));
    RecalculateEdidBlockChecksum(a, 0);
    addedCount := FinishPatch(a, Seal(m), PatchExtension(b1), b2, rest);
  }

  method FinishPatch(a: array<byte>, ghost b0: seq<byte>, ghost b1: seq<byte>, ghost b2: seq<byte>,
                     ghost rest: seq<byte>)
    returns (addedCount: nat)
    requires a.Length >= 384 && |b0| == |b1| == |b2| == 128 && a[..] == Parts(b0, b1, b2, rest)
    modifies a
    ensures a[..] == Parts(Seal(b0[0x7E := 2]), b1, NewExtension(), rest) && addedCount == 6
  {
    hide EncodeAll, Seal, Sealed, Splice, Parts;
    ghost var x := [0x02, 0x03, 4, 0x00] + EncodeAll(NEW_MODES) + Zeros(16);
    NewModesFit();
    addedCount := WriteNewExtension(a, b0, b1, b2, rest);
    CountParts(b0, b1, x, rest);
    ghost var y := a[..];
    a[0x7E] := 2;
    assert a[..] == y[0x7E := 2];
    PartsOf(b0[0x7E := 2], b1, x, rest, Seal(b0[0x7E := 2]));
    RecalculateEdidBlockChecksum(a, 0);
    PartsOf(Seal(b0[0x7E := 2]), b1, x, rest, NewExtension());
    RecalculateEdidBlockChecksum(a, 256);
  }
}
