/** PatchEdidFor120Hz: VIC 63 into the first video block, timings into the base block, a second extension. */
module EdidPatch {
  import opened Bytes
  import opened Timing
  import opened DataBlocks
  import opened Passes

  /** Where the patcher's own walk stops: a byte 2 below 4 means no data blocks here, unlike in the filter. */
  function PatchLimit(byte2: byte): (limit: nat)
  {
    if byte2 < 4 then 0 else byte2 - 4
  }

  /** The offset in t of the first video block the patcher's walk meets. */
  function VideoAt(t: seq<byte>, limit: int): (at: Option<nat>)
    ensures at.Some? ==>
      at.value < |t| && at.value + 1 + Len(t[at.value]) <= |t| && at.value < limit && Tag(t[at.value]) == 2
    decreases |t|
  {
    if limit <= 0 || !Starts(t) then None
    else if Tag(t[0]) == 2 then Some(0)
    else
      match VideoAt(Rest(t), limit - 1 - Len(t[0]))
      case None => None
      case Some(k) => Some(k + 1 + Len(t[0]))
  }

  predicate Lists63(payload: seq<byte>) {
    exists i :: 0 <= i < |payload| && Vic(payload[i]) == 63
  }

  /** The video block at `at` may take one more VIC. */
  predicate HasRoom(s: seq<byte>, at: nat)
    requires |s| == 128 && 4 <= at < 127 && at + 1 + Len(s[at]) <= 127
  {
    && !Lists63(s[at + 1..at + 1 + Len(s[at])])
    && Len(s[at]) < 31
    && at + 1 + Len(s[at]) < 127
    && s[2] < 127
  }

  /** The extension with 63 appended to the block at `at`: everything behind moves right by one,
      byte 126 into the checksum slot. */
  function InsertAt(s: seq<byte>, at: nat): (r: seq<byte>)
    requires |s| == 128 && 4 <= at < 127 && at + 1 + Len(s[at]) < 127 && s[at] < 255 && s[2] < 255
    ensures |r| == 128
  {
    var pos := at + 1 + Len(s[at]);
    (s[..pos] + [63] + s[pos..127])[at := s[at] + 1][2 := s[2] + 1]
  }

  function InsertVic(s: seq<byte>): (r: seq<byte>)
    requires |s| == 128
    ensures |r| == 128
  {
    match VideoAt(s[4..127], PatchLimit(s[2]))
    case None => s
    case Some(k) =>
      assert s[4..127][k] == s[4 + k];
      if HasRoom(s, 4 + k) then InsertAt(s, 4 + k) else s
  }

  // ----- On a block list -----

  /** The number of the first video block, or |bs|. */
  function FirstVideo(bs: seq<DataBlock>): (k: nat)
    ensures k <= |bs| && (k < |bs| ==> bs[k].tag == 2)
    ensures forall i :: 0 <= i < k ==> bs[i].tag != 2
  {
    if bs == [] || bs[0].tag == 2 then 0 else 1 + FirstVideo(bs[1..])
  }

  /** The patch applies: there is a video block without VIC 63 and with a free length, and byte 2 can grow. */
  predicate Patchable(bs: seq<DataBlock>, byte2: byte) {
    var k := FirstVideo(bs);
    k < |bs| && !Lists63(bs[k].payload) && |bs[k].payload| < 31 && byte2 < 127
  }

  /** bs with VIC 63 appended to its first video block. */
  function AddVic(bs: seq<DataBlock>): (r: seq<DataBlock>)
    requires AllValid(bs) && FirstVideo(bs) < |bs| && |bs[FirstVideo(bs)].payload| < 31
    ensures AllValid(r)
  {
    var k := FirstVideo(bs);
    bs[k := DataBlock(2, bs[k].payload + [63])]
  }

  lemma {:induction false} VideoAtPrinted(bs: seq<DataBlock>, behind: seq<byte>)
    requires AllValid(bs)
    ensures VideoAt(Print(bs) + behind, |Print(bs)|)
         == if FirstVideo(bs) < |bs| then Some(|Print(bs[..FirstVideo(bs)])|) else None
  {
    hide Print, Len, Starts, Head, Rest, Tag;
    PrintNothing();
    if bs != [] {
      var b, tail := bs[0], bs[1..];
      PrintCons(bs);
      var t := Print(bs) + behind;
      assert t == b.Encode() + (Print(tail) + behind);
      StartsEncoded(b, Print(tail) + behind);
      HeaderOf(b, Print(tail) + behind);
      if b.tag != 2 {
        VideoAtPrinted(tail, behind);
        if FirstVideo(tail) < |tail| {
          var k := FirstVideo(tail);
          assert bs[..k + 1][1..] == tail[..k];
          PrintCons(bs[..k + 1]);
        }
      } else {
        assert bs[..0] == [];
      }
    }
  }

  lemma HeaderOf(b: DataBlock, rest: seq<byte>)
    requires b.Valid()
    ensures var t := b.Encode() + rest; Tag(t[0]) == b.tag && Len(t[0]) == |b.payload|
  {
  }

  lemma PrintSplit(bs: seq<DataBlock>, k: nat)
    requires AllValid(bs) && k < |bs|
    ensures Print(bs) == Print(bs[..k]) + bs[k].Encode() + Print(bs[k + 1..])
  {
    hide Print, DataBlock.Encode;
    var tail := bs[k..];
    assert bs == bs[..k] + tail && tail[0] == bs[k] && tail[1..] == bs[k + 1..];
    PrintAppend(bs[..k], tail);
    PrintCons(tail);
  }

  /** On a well-formed extension the patcher finds the first video block of the list. */
  lemma VideoFound(s: seq<byte>)
    requires WellFormed(s)
    ensures var bs := Blocks(s);
      var k := FirstVideo(bs);
      VideoAt(s[4..127], PatchLimit(s[2])) == if k < |bs| then Some(|Print(bs[..k])|) else None
  {
    hide Print, Blocks, VideoAt;
    assert s[4..127] == Print(Blocks(s)) + s[s[2]..127];
    VideoAtPrinted(Blocks(s), s[s[2]..127]);
  }

  /** Byte for byte: front, the header and payload of the block, then the rest up to the checksum. */
  lemma InsertReads(s: seq<byte>, front: seq<byte>, h: byte, payload: seq<byte>, rest: seq<byte>)
    requires |s| == 128 && 4 <= |front| && Len(h) == |payload| && |front| + 1 + |payload| + |rest| == 127
    requires s[..127] == front + [h] + payload + rest
    ensures s[|front|] == h && s[|front| + 1..|front| + 1 + |payload|] == payload && s[2] == front[2]
  {
    hide Len;
    var t, at := s[..127], |front|;
    assert s[at] == t[at];
    assert s[at + 1..at + 1 + |payload|] == t[at + 1..at + 1 + |payload|];
    assert s[2] == t[2];
  }

  lemma InsertWrites(s: seq<byte>, front: seq<byte>, h: byte, payload: seq<byte>, rest: seq<byte>)
    requires |s| == 128 && 4 <= |front| && Len(h) == |payload| && |front| + 1 + |payload| + |rest| == 127
    requires s[..127] == front + [h] + payload + rest && |rest| > 0 && h < 255 && front[2] < 255
    requires s[|front|] == h && s[2] == front[2]
    ensures InsertAt(s, |front|)[..127]
         == front[2 := front[2] + 1] + [h + 1] + payload + [63] + rest[..|rest| - 1]
  {
    hide Len;
    var t, at, pos := s[..127], |front|, |front| + 1 + |payload|;
    assert s[..pos] == t[..pos] == front + [h] + payload;
    assert s[pos..127] == t[pos..] == rest;
  }

  lemma Flatten(byte1: byte, byte3: byte, pre: seq<byte>, b: DataBlock, post: seq<byte>, behind: seq<byte>)
    requires b.Valid() && b.tag == 2 && |pre| + (1 + |b.payload|) + |post| <= 123
    ensures var n := 4 + (|pre| + (1 + |b.payload|) + |post|);
      [2, byte1, n, byte3] + (pre + b.Encode() + post) + behind
      == ([2, byte1, n, byte3] + pre) + [64 + |b.payload|] + b.payload + (post + behind)
    ensures Len(64 + |b.payload|) == |b.payload|
  {
  }

  lemma InsertBytes(s: seq<byte>, byte1: byte, byte3: byte, pre: seq<byte>, b: DataBlock, post: seq<byte>,
                    behind: seq<byte>)
    requires |s| == 128 && b.Valid() && b.tag == 2 && |b.payload| < 31
    requires |behind| > 0 && |pre| + (1 + |b.payload|) + |post| + |behind| == 123
    requires s[..127]
      == [2, byte1, 4 + (|pre| + (1 + |b.payload|) + |post|), byte3] + (pre + b.Encode() + post) + behind
    ensures var at := 4 + |pre|;
      && Len(s[at]) == |b.payload| && s[at + 1..at + 1 + |b.payload|] == b.payload && s[at] < 255 && s[2] < 127
      && InsertAt(s, at)[..127]
         == [2, byte1, 4 + (|pre| + (2 + |b.payload|) + |post|), byte3]
            + (pre + DataBlock(2, b.payload + [63]).Encode() + post) + behind[..|behind| - 1]
  {
    hide Len, InsertAt;
    var n, c := 4 + (|pre| + (1 + |b.payload|) + |post|), DataBlock(2, b.payload + [63]);
    var front, rest := [2, byte1, n, byte3] + pre, post + behind;
    Flatten(byte1, byte3, pre, b, post, behind);
    Flatten(byte1, byte3, pre, c, post, behind[..|behind| - 1]);
    InsertReads(s, front, 64 + |b.payload|, b.payload, rest);
    InsertWrites(s, front, 64 + |b.payload|, b.payload, rest);
    assert rest[..|rest| - 1] == post + behind[..|behind| - 1];
    assert front[2 := n + 1] == [2, byte1, n + 1, byte3] + pre;
  }

  lemma AddVicPrint(bs: seq<DataBlock>)
    requires AllValid(bs) && FirstVideo(bs) < |bs| && |bs[FirstVideo(bs)].payload| < 31
    ensures var k := FirstVideo(bs);
      Print(AddVic(bs)) == Print(bs[..k]) + DataBlock(2, bs[k].payload + [63]).Encode() + Print(bs[k + 1..])
    ensures |Print(AddVic(bs))| == |Print(bs)| + 1
  {
    hide Print, FirstVideo;
    var k, cs := FirstVideo(bs), AddVic(bs);
    PrintSplit(bs, k);
    PrintSplit(cs, k);
    assert cs[..k] == bs[..k] && cs[k + 1..] == bs[k + 1..];
  }

  /** What the VIC insertion means for a well-formed extension: the list changes only by 63 at the end of the
      first video block, byte 2 grows by one, and everything behind moves right by one, its last byte lost. */
  lemma InsertVicMeaning(s: seq<byte>)
    requires WellFormed(s)
    ensures var bs, behind := Blocks(s), s[s[2]..127];
      if Patchable(bs, s[2]) then
        && |behind| > 0 && |Print(AddVic(bs))| + |behind[..|behind| - 1]| == 123
        && InsertVic(s)[..127] == Layout(s[1], s[3], AddVic(bs), behind[..|behind| - 1])
      else InsertVic(s) == s
  {
    hide Print, Blocks, VideoAt, FirstVideo, Lists63, AddVic, Layout, InsertAt, Len;
    var bs, behind := Blocks(s), s[s[2]..127];
    var k := FirstVideo(bs);
    VideoFound(s);
    if k < |bs| {
      PrintSplit(bs, k);
      FoundBytes(s, bs, k);
      if Patchable(bs, s[2]) {
        AddVicPrint(bs);
        InsertedLayout(s, bs, k);
      }
    }
  }

  lemma FoundBytes(s: seq<byte>, bs: seq<DataBlock>, k: nat)
    requires WellFormed(s) && bs == Blocks(s) && k < |bs| && bs[k].tag == 2
    requires Print(bs) == Print(bs[..k]) + bs[k].Encode() + Print(bs[k + 1..])
    ensures var at := 4 + |Print(bs[..k])|;
      && at + 1 + |bs[k].payload| <= s[2] && Len(s[at]) == |bs[k].payload|
      && s[at + 1..at + 1 + |bs[k].payload|] == bs[k].payload
  {
    hide Print, Blocks, Len;
    var b, behind := bs[k], s[s[2]..127];
    var pre, post := Print(bs[..k]), Print(bs[k + 1..]);
    WellFormedIsLayout(s);
    Flatten(s[1], s[3], pre, b, post, behind);
    var front := [2, s[1], 4 + (|pre| + (1 + |b.payload|) + |post|), s[3]] + pre;
    InsertReads(s, front, 64 + |b.payload|, b.payload, post + behind);
  }

  lemma InsertedLayout(s: seq<byte>, bs: seq<DataBlock>, k: nat)
    requires WellFormed(s) && bs == Blocks(s) && Patchable(bs, s[2]) && k == FirstVideo(bs)
    requires |Print(AddVic(bs))| + |s[s[2]..126]| == 123
    ensures var at := 4 + |Print(bs[..k])|;
      && at + 1 + |bs[k].payload| <= s[2] && Len(s[at]) == |bs[k].payload| && s[at] < 255
      && InsertAt(s, at)[..127] == Layout(s[1], s[3], AddVic(bs), s[s[2]..127][..127 - s[2] - 1])
  {
    hide Print, Blocks, FirstVideo, Lists63, InsertAt, Len, AddVic;
    var behind := s[s[2]..127];
    PrintSplit(bs, k);
    AddVicPrint(bs);
    WellFormedIsLayout(s);
    InsertBytes(s, s[1], s[3], Print(bs[..k]), bs[k], Print(bs[k + 1..]), behind);
  }

  // ----- The whole EDID -----

  function PatchExtension(s: seq<byte>): (r: seq<byte>)
    requires |s| == 128
    ensures |r| == 128 && Sealed(r)
  {
    Seal(InsertVic(s))
  }

  /** 2560 by 1440 at the given clock. */
  function Wide(pixelClock: nat, vBlank: nat): Timings {
    Timings(pixelClock, 2560, 160, 48, 32, 1440, vBlank, 3, 5, 800, 450, 0x1E)
  }

  function FullHd(pixelClock: nat): Timings {
    Timings(pixelClock, 1920, 280, 88, 44, 1080, 45, 4, 5, 800, 450, 0x1E)
  }

  const BASE_MODES: seq<Timings> := [Wide(57104, 18), Wide(49775, 85), Wide(24150, 41)]

  const NEW_MODES: seq<Timings> := [
    Wide(49775, 85), Wide(24150, 41), FullHd(35640), FullHd(59400),
    Timings(31975, 3440, 160, 48, 32, 1440, 49, 3, 5, 800, 450, 0x1E), Wide(57104, 18) ]

  function EncodeAll(ts: seq<Timings>): (r: seq<byte>)
    ensures |r| == 18 * |ts|
  {
    if ts == [] then [] else EncodeAll(ts[..|ts| - 1]) + Encode(ts[|ts| - 1])
  }

  /** Three descriptors over the first three slots of the base block, and two extensions announced. */
  function PatchBase(s: seq<byte>): (r: seq<byte>)
    requires |s| == 128
    ensures |r| == 128 && Sealed(r)
  {
    Seal((s[..0x36] + EncodeAll(BASE_MODES) + s[0x6C..])[0x7E := 2])
  }

  /** The second extension: no data blocks, six descriptors from offset 4 on. */
  function NewExtension(): (r: seq<byte>)
    ensures |r| == 128 && Sealed(r)
  {
    Seal([0x02, 0x03, 4, 0x00] + EncodeAll(NEW_MODES) + Zeros(16))
  }

  predicate Accepts(e: seq<byte>) {
    |e| >= 384 && e[0x7E] != 0 && e[128] == 2
  }

  function PatchEdid(e: seq<byte>): (r: seq<byte>)
    requires Accepts(e)
    ensures |r| == |e|
  {
    PatchBase(e[..128]) + PatchExtension(e[128..256]) + NewExtension() + e[384..]
  }

  /** After a patch the three blocks are sealed. */
  lemma PatchSeals(e: seq<byte>)
    requires Accepts(e)
    ensures var r := PatchEdid(e);
      && r[..128] == PatchBase(e[..128]) && r[128..256] == PatchExtension(e[128..256]) && r[256..384] == NewExtension()
      && r[384..] == e[384..]
      && Sealed(Block(r, 0)) && Sealed(Block(r, 1)) && Sealed(Block(r, 2))
  {
    hide PatchBase, PatchExtension, NewExtension, Sealed;
    var r := PatchEdid(e);
    assert r[..128] == PatchBase(e[..128]);
    assert r[128..256] == PatchExtension(e[128..256]);
    assert r[256..384] == NewExtension();
    assert r[0..128] == r[..128];
  }

  // ----- Idempotence, for every accepted buffer -----

  lemma VideoRound(t: seq<byte>, limit: int, at: nat)
    requires VideoAt(t, limit) == Some(at)
    ensures limit > 0 && Starts(t) && (at == 0 <==> Tag(t[0]) == 2)
    ensures at > 0 ==> at >= 1 + Len(t[0]) && VideoAt(Rest(t), limit - 1 - Len(t[0])) == Some(at - 1 - Len(t[0]))
  {
    hide Len;
  }

  lemma VideoStep(t: seq<byte>, limit: int, at: nat)
    requires limit > 0 && Starts(t)
    ensures Tag(t[0]) == 2 ==> VideoAt(t, limit) == Some(0)
    ensures Tag(t[0]) != 2 && VideoAt(Rest(t), limit - 1 - Len(t[0])) == Some(at) ==>
      VideoAt(t, limit) == Some(at + 1 + Len(t[0]))
  {
    hide Len;
  }

  /** The walk looks only at what it passes: bytes that agree in front of the hit give the same hit. */
  lemma {:induction false} VideoAtStable(t: seq<byte>, u: seq<byte>, limit: int, limit': int, at: nat)
    requires VideoAt(t, limit) == Some(at) && |u| == |t| && limit' >= limit
    requires at <= |t| && u[..at] == t[..at] && Starts(u[at..]) && Tag(u[at]) == 2
    ensures VideoAt(u, limit') == Some(at)
    decreases |t|
  {
    hide Tag, Len, VideoAt;
    VideoRound(t, limit, at);
    if at == 0 {
      assert u[0..] == u;
      VideoStep(u, limit', 0);
    } else {
      var n := 1 + Len(t[0]);
      assert u[0] == u[..at][0] == t[0];
      RestAgrees(t, u, at, n);
      VideoAtStable(Rest(t), Rest(u), limit - n, limit' - n, at - n);
      VideoStep(u, limit', at - n);
    }
  }

  lemma RestAgrees(t: seq<byte>, u: seq<byte>, at: nat, n: nat)
    requires Starts(t) && |u| == |t| && n == 1 + Len(t[0]) && n <= at < |t| && u[..at] == t[..at] && u[0] == t[0]
    ensures Starts(u) && |Rest(u)| == |Rest(t)| < |t|
    ensures Rest(u)[..at - n] == Rest(t)[..at - n] && Rest(u)[at - n] == u[at] && Rest(u)[at - n..] == u[at..]
  {
    assert u[n..][..at - n] == u[..at][n..] && t[n..][..at - n] == t[..at][n..];
  }
}
