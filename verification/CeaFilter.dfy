/** The walkers of CHDMIRxManager that edit an extension in place, each proved against its sweep.
    The extension is the 128 bytes of `a` that start at `base`. */
module CeaFilter {
  import opened Bytes
  import opened Timing
  import opened DataBlocks
  import opened Passes

  /** e with n bytes at `at` gone: the bytes up to `end` close up and zeros fill the gap. */
  function Closed(e: seq<byte>, at: nat, n: nat, end: nat): (r: seq<byte>)
    requires at + n <= end <= |e|
    ensures |r| == |e|
  {
    e[..at] + e[at + n..end] + Zeros(n) + e[end..]
  }

  /** e with s written over it from `at` on. */
  function Overlay(e: seq<byte>, at: nat, s: seq<byte>): (r: seq<byte>)
    requires at + |s| <= |e|
    ensures |r| == |e|
  {
    e[..at] + s + e[at + |s|..]
  }

  /** e with the block at `at` replaced by `out` and closed up. */
  function Replaced(e: seq<byte>, at: nat, out: seq<byte>, end: nat): (r: seq<byte>)
    requires at < end <= |e| && Starts(e[at..end]) && |out| <= 1 + Len(e[at])
    ensures |r| == |e|
  {
    Closed(Overlay(e, at, out), at + |out|, 1 + Len(e[at]) - |out|, end)
  }

  /** memmove of a[at + n..end] down to `at`. */
  method ShiftLeft(a: array<byte>, at: nat, n: nat, end: nat)
    requires at + n <= end <= a.Length
    modifies a
    ensures a[..] == Overlay(old(a[..]), at, old(a[..])[at + n..end])
  {
    forall i | at <= i < end - n { a[i] := a[i + n]; }
  }

  /** memset of a[from..end] to zero. */
  method ClearBytes(a: array<byte>, from: nat, end: nat)
    requires from <= end <= a.Length
    modifies a
    ensures a[..] == Overlay(old(a[..]), from, Zeros(end - from))
  {
    forall i | from <= i < end { a[i] := 0; }
  }

  lemma ClosedInSteps(e: seq<byte>, at: nat, n: nat, end: nat)
    requires at + n <= end <= |e|
    ensures Overlay(Overlay(e, at, e[at + n..end]), end - n, Zeros(n)) == Closed(e, at, n, end)
  {
    var x := Overlay(e, at, e[at + n..end]);
    assert x[..end - n] == e[..at] + e[at + n..end];
    assert x[end..] == e[end..];
  }

  /** The memmove and memset after a removal. */
  method CloseGap(a: array<byte>, at: nat, n: nat, end: nat)
    requires at + n <= end <= a.Length
    modifies a
    ensures a[..] == Closed(old(a[..]), at, n, end)
  {
    hide Overlay, Closed, Zeros;
    ClosedInSteps(a[..], at, n, end);
    ShiftLeft(a, at, n, end);
    ClearBytes(a, end - n, end);
  }

  lemma KeepVicsPrefix(s: seq<byte>, k: nat, caps: TxCaps)
    requires k < |s|
    ensures var kept := KeepVics(s[..k], caps);
      KeepVics(s[..k + 1], caps) == if caps.SupportsVic(Vic(s[k])) then kept + [s[k]] else kept
    ensures KeepVics(s[..0], caps) == []
  {
    assert s[..k + 1][..k] == s[..k];
  }

  lemma OverlayPush(e: seq<byte>, first: nat, kept: seq<byte>, src: nat)
    requires first + |kept| <= src <= |e|
    ensures Overlay(e, first, []) == e
    ensures src < |e| ==> Overlay(e, first, kept)[src] == e[src]
    ensures src < |e| ==> Overlay(e, first, kept)[first + |kept| := e[src]] == Overlay(e, first, kept + [e[src]])
  {
  }

  /** The inner src/dst loop: the supported VICs of a[first..last] packed to the front, in order. */
  method CompactVics(a: array<byte>, first: nat, last: nat, caps: TxCaps) returns (dst: nat)
    requires first <= last <= a.Length
    modifies a
    ensures var kept := KeepVics(old(a[..])[first..last], caps);
      dst == first + |kept| && a[..] == Overlay(old(a[..]), first, kept)
  {
    hide KeepVics, Overlay;
    ghost var e := a[..];
    OverlayPush(e, first, [], first);
    ghost var s := e[first..last];
    dst := first;
    for src := first to last
      invariant first <= dst <= src
      invariant dst == first + |KeepVics(s[..src - first], caps)|
      invariant a[..] == Overlay(e, first, KeepVics(s[..src - first], caps))
    {
      KeepVicsPrefix(s, src - first, caps);
      OverlayPush(e, first, KeepVics(s[..src - first], caps), src);
      assert a[..][src] == e[src] == s[src - first];
      var supported := TxSupportsVic(a[src] % 128, caps);
      if supported {
        ghost var now := a[..];
        a[dst] := a[src];
        assert a[..] == now[dst := e[src]];
        dst := dst + 1;
      }
    }
    assert s[..last - first] == s;
  }

  lemma {:induction false} KeepAll(p: seq<byte>, caps: TxCaps)
    requires |KeepVics(p, caps)| == |p|
    ensures KeepVics(p, caps) == p
  {
    hide KeepVics;
    KeepVicsEmpty(caps);
    if p != [] {
      var q, v := p[..|p| - 1], p[|p| - 1];
      assert p == q + [v];
      KeepVicsLast(q, v, caps);
      KeepAll(q, caps);
    }
  }

  /** The three outcomes for a video block, by the length of what is kept; the first `skip` payload
      bytes are not VICs. */
  lemma VideoRemains(b: DataBlock, skip: nat, kept: seq<byte>, caps: TxCaps)
    requires b.Valid() && (b.tag == 2 || IsYcbcr420(b)) && skip == (if b.tag == 2 then 0 else 1)
    requires kept == KeepVics(b.payload[skip..], caps)
    ensures var newLen := skip + |kept|;
      var out := Remains(VideoPass(caps), b);
      if newLen == |b.payload| then out == b.Encode() && kept == b.payload[skip..]
      else if kept == [] then out == []
      else newLen < 32 && out == [b.tag * 32 + newLen] + b.payload[..skip] + kept
  {
    hide KeepVics;
    var p := b.payload;
    assert p == p[..skip] + p[skip..];
    if skip == 1 {
      assert p[..1] == [0x0e];
    }
    if skip + |kept| == |p| {
      KeepAll(p[skip..], caps);
    }
  }

  /** The block at `at`, and the two outcomes that change nothing or remove it all. */
  lemma BlockAt(e: seq<byte>, at: nat, end: nat)
    requires at < end <= |e| && Starts(e[at..end])
    ensures Head(e[at..end]) == DataBlock(Tag(e[at]), e[at + 1..at + 1 + Len(e[at])])
    ensures Replaced(e, at, Head(e[at..end]).Encode(), end) == e
    ensures Replaced(e, at, [], end) == Closed(e, at, 1 + Len(e[at]), end)
  {
    hide Overlay, Closed;
    var t, n := e[at..end], Len(e[at]);
    SliceOfSlice(e, at, end, 1);
    SliceOfSlice(e, at, end, 1 + n);
    SliceOfSlice(e, at + 1, end, n);
    assert t[..1 + n] == [e[at]] + e[at + 1..at + 1 + n];
    OverlaySame(e, at, t[..1 + n]);
    OverlaySame(e, at, []);
    ClosedNothing(e, at + 1 + n, end);
  }

  lemma ClosedNothing(e: seq<byte>, at: nat, end: nat)
    requires at <= end <= |e|
    ensures Closed(e, at, 0, end) == e
  {
  }

  lemma OverlaySame(e: seq<byte>, at: nat, s: seq<byte>)
    requires at + |s| <= |e| && s == e[at..at + |s|]
    ensures Overlay(e, at, s) == e
  {
  }

  /** The compacted payload with a new header is the shrunk block written over the old one. */
  lemma OverlayHeader(e: seq<byte>, at: nat, header: byte, skip: nat, kept: seq<byte>)
    requires at + 1 + skip + |kept| <= |e|
    ensures Overlay(e, at + 1 + skip, kept)[at := header] == Overlay(e, at, [header] + e[at + 1..at + 1 + skip] + kept)
  {
  }

  /** The header byte of a block, as an unsigned char. */
  function Header(tag: nat, len: nat): byte {
    (tag * 32 + len) % 256
  }

  /** After the compaction from `first` on has left `packed`, with `dst` behind the last kept VIC: what
      the stores below come to in each of the three outcomes. */
  lemma VideoPlan(e: seq<byte>, at: nat, last: nat, end: nat, caps: TxCaps, first: nat, dst: nat, packed: seq<byte>)
    requires at < end <= |e| && Starts(e[at..end]) && last == at + 1 + Len(e[at])
    requires var b := Head(e[at..end]); (b.tag == 2 && first == at + 1) || (IsYcbcr420(b) && first == at + 2)
    requires first <= last <= end
    requires dst == first + |KeepVics(e[first..last], caps)|
      && packed == Overlay(e, first, KeepVics(e[first..last], caps))
    ensures var out := Remains(VideoPass(caps), Head(e[at..end]));
      && at < dst <= last
      && |out| == (if dst != last && dst == first then 0 else dst - at)
      && Replaced(e, at, out, end) ==
           if dst == last then packed
           else if dst == first then Closed(packed, at, last - at, end)
           else Closed(packed[at := Header(Tag(e[at]), dst - (at + 1))], dst, last - dst, end)
  {
    hide KeepVics, Overlay, Closed, Remains, Zeros;
    var b, skip := Head(e[at..end]), first - (at + 1);
    var kept := KeepVics(e[first..last], caps);
    BlockAt(e, at, end);
    SliceOfSlice(e, at + 1, last, skip);
    VideoRemains(b, skip, kept, caps);
    if dst == last || dst == first {
      OverlaySame(e, first, kept);
    } else {
      OverlayHeader(e, at, Header(b.tag, skip + |kept|), skip, kept);
    }
  }

  lemma VideoShape(e: seq<byte>, at: nat, end: nat)
    requires at < end <= |e| && Starts(e[at..end])
    requires var b := Head(e[at..end]); b.tag == 2 || IsYcbcr420(b)
    ensures var b, tag, len := Head(e[at..end]), Tag(e[at]), Len(e[at]);
      && at + 1 + len <= end && 1 <= len && (tag == 2 || (tag == 7 && len >= 2))
      && (tag == 2 ==> b.tag == 2) && (tag == 7 ==> IsYcbcr420(b))
  {
    BlockAt(e, at, end);
  }

  /** One video block of FilterCeaVideoDataBlocks: compacted, re-headed or removed. `size` is what stays of it. */
  method FilterVideoBlock(a: array<byte>, at: nat, end: nat, caps: TxCaps) returns (size: nat)
    requires at < end <= a.Length && Starts(a[..][at..end])
    requires var b := Head(a[..][at..end]); b.tag == 2 || IsYcbcr420(b)
    modifies a
    ensures var out := Remains(VideoPass(caps), Head(old(a[..])[at..end]));
      size == |out| && a[..] == Replaced(old(a[..]), at, out, end)
  {
    hide *;
    ghost var e := a[..];
    VideoShape(e, at, end);
    var tag, len := Tag(a[at]), Len(a[at]);
    var payloadStart, last := if tag == 2 then at + 1 else at + 2, at + 1 + len;
    var dst := CompactVics(a, payloadStart, last, caps);
    VideoPlan(e, at, last, end, caps, payloadStart, dst, a[..]);
    var newLen := dst - (at + 1);
    if newLen == len {
      return len + 1;
    }
    if (tag == 2 && newLen == 0) || (tag == 7 && newLen <= 1) {
      CloseGap(a, at, last - at, end);
      return 0;
    }
    ghost var packed := a[..];
    a[at] := Header(tag, newLen);
    assert a[..] == packed[at := Header(tag, newLen)];
    CloseGap(a, dst, last - dst, end);
    return newLen + 1;
  }

  /** The bytes of the extension at `base` from an offset up to its checksum. */
  function Window(x: seq<byte>, base: nat, offset: nat): (t: seq<byte>)
    requires base + 128 <= |x| && offset <= 127
    ensures |t| == 127 - offset
  {
    x[base + offset..base + 127]
  }

  /** The data blocks of the extension in front of an offset. */
  function Front(x: seq<byte>, base: nat, offset: nat): (t: seq<byte>)
    requires base + 128 <= |x| && 4 <= offset <= 127
    ensures |t| == offset - 4
  {
    x[base + 4..base + offset]
  }

  /** x differs from e in byte 2 and bytes 4..126 of the extension at most, and byte 2 is dtd as an unsigned char. */
  ghost predicate Untouched(e: seq<byte>, x: seq<byte>, base: nat, dtd: int) {
    && base + 128 <= |e| == |x|
    && x[..base + 2] == e[..base + 2] && x[base + 2] == Byte(dtd) && x[base + 3] == e[base + 3]
    && x[base + 127..] == e[base + 127..]
  }

  /** Finishing the sweep on t, behind the bytes already done, gives `whole`. */
  ghost predicate Progress(p: Pass, whole: Swept, done: seq<byte>, t: seq<byte>, limit: int, dtd: int) {
    var todo := Sweep(p, t, limit, dtd);
    whole == Swept(done + todo.bytes, todo.dtd)
  }

  /** The sweep of the extension at base. */
  function Whole(p: Pass, e: seq<byte>, base: nat): Swept
    requires base + 128 <= |e|
  {
    Sweep(p, Window(e, base, 4), DataEnd(e[base + 2]) - 4, e[base + 2])
  }

  /** The walkers' loop invariant. From the bytes e a sweep has reached `offset` with the bytes x:
      finishing it from here gives the sweep of e, and nothing outside was touched. */
  ghost predicate Reaches(p: Pass, e: seq<byte>, x: seq<byte>, base: nat, offset: nat, dataEnd: int, dtd: int) {
    && Untouched(e, x, base, dtd) && 4 <= offset <= 127 && dataEnd <= 127
    && Progress(p, Whole(p, e, base), Front(x, base, offset), Window(x, base, offset), dataEnd - offset, dtd)
  }

  lemma ReachesStart(p: Pass, e: seq<byte>, base: nat)
    requires base + 128 <= |e|
    ensures Reaches(p, e, e, base, 4, DataEnd(e[base + 2]), e[base + 2])
  {
    hide Sweep;
  }

  lemma Associate(x: seq<byte>, y: seq<byte>, z: seq<byte>)
    ensures x + (y + z) == (x + y) + z
  {
  }

  lemma ProgressStep(p: Pass, whole: Swept, done: seq<byte>, t: seq<byte>, limit: int, dtd: int,
                     out: seq<byte>, lost: nat, limit': int, dtd': int)
    requires Progress(p, whole, done, t, limit, dtd) && limit > 0 && Starts(t)
    requires out == Remains(p, Head(t)) && lost == 1 + Len(t[0]) - |out|
    requires dtd' == if dtd != 0 then dtd - lost else 0
    requires limit' == (if dtd != 0 then limit - lost else limit) - |out|
    ensures Progress(p, whole, done + out, Rest(t) + Zeros(lost), limit', dtd')
  {
    hide Remains, Zeros, Sweep, Starts, Head, Rest;
    SweepRound(p, t, limit, dtd, lost, limit', dtd');
    Associate(done, out, Sweep(p, Rest(t) + Zeros(lost), limit', dtd').bytes);
  }

  /** The bytes after one round: the block at `offset` replaced by `out`, byte 2 set to dtd. */
  function Round(x: seq<byte>, base: nat, offset: nat, out: seq<byte>, dtd: int): seq<byte>
    requires base + 128 <= |x| && offset <= 127 && Starts(Window(x, base, offset))
    requires |out| <= 1 + Len(Window(x, base, offset)[0])
  {
    Replaced(x, base + offset, out, base + 127)[base + 2 := Byte(dtd)]
  }

  lemma RoundUntouched(e: seq<byte>, x: seq<byte>, base: nat, dtd: int, offset: nat, out: seq<byte>, dtd': int)
    requires Untouched(e, x, base, dtd) && 4 <= offset <= 127 && Starts(Window(x, base, offset))
    requires |out| <= 1 + Len(Window(x, base, offset)[0])
    ensures Untouched(e, Round(x, base, offset, out, dtd'), base, dtd')
  {
    var at := base + offset;
    var r := Replaced(x, at, out, base + 127);
    assert at >= base + 4 && Overlay(x, at, out)[..base + 4] == x[..base + 4];
    assert r[..base + 4] == x[..base + 4] && r[base + 127..] == x[base + 127..];
    var y := Round(x, base, offset, out, dtd');
    assert y[..base + 2] == r[..base + 2] == r[..base + 4][..base + 2];
    assert y[base + 127..] == r[base + 127..];
  }

  lemma RoundWindow(x: seq<byte>, base: nat, offset: nat, out: seq<byte>, dtd: int, lost: nat)
    requires base + 128 <= |x| && 4 <= offset <= 127 && Starts(Window(x, base, offset))
    requires lost == 1 + Len(Window(x, base, offset)[0]) - |out|
    ensures var y := Round(x, base, offset, out, dtd);
      && |y| == |x| && offset + |out| <= 127
      && Window(y, base, offset + |out|) == Rest(Window(x, base, offset)) + Zeros(lost)
      && Front(y, base, offset + |out|) == Front(x, base, offset) + out
  {
    var at, end := base + offset, base + 127;
    var n, next := at + 1 + Len(x[at]), at + |out|;
    SliceOfSlice(x, at, end, 1 + Len(x[at]));
    var o := Overlay(x, at, out);
    assert o[next + lost..end] == x[n..end];
    var r := Replaced(x, at, out, end);
    var y := Round(x, base, offset, out, dtd);
    assert y[next..end] == r[next..end] == o[next + lost..end] + Zeros(lost);
    assert y[base + 4..next] == x[base + 4..at] + out;
  }

  /** One round keeps the invariant, and the number of non-zero bytes ahead falls. */
  lemma ReachesStep(p: Pass, e: seq<byte>, x: seq<byte>, base: nat, offset: nat, dataEnd: int, dtd: int,
                    out: seq<byte>, lost: nat, dataEnd': int, dtd': int)
    requires Reaches(p, e, x, base, offset, dataEnd, dtd) && base + 128 <= |x| && offset < dataEnd
    requires Starts(Window(x, base, offset)) && out == Remains(p, Head(Window(x, base, offset)))
    requires lost == 1 + Len(Window(x, base, offset)[0]) - |out|
    requires dtd' == if dtd != 0 then dtd - lost else 0
    requires dataEnd' == if dtd != 0 then dataEnd - lost else dataEnd
    ensures var y := Round(x, base, offset, out, dtd');
      && Reaches(p, e, y, base, offset + |out|, dataEnd', dtd')
      && NonZero(Window(y, base, offset + |out|)) < NonZero(Window(x, base, offset))
  {
    hide Remains, NonZero, Zeros, Head, Rest, Untouched, Starts, Progress, Whole, Len, Byte, Window, Front, Round;
    var t := Window(x, base, offset);
    RoundUntouched(e, x, base, dtd, offset, out, dtd');
    RoundWindow(x, base, offset, out, dtd', lost);
    SweepDecreases(t, lost);
    ProgressStep(p, Whole(p, e, base), Front(x, base, offset), t, dataEnd - offset, dtd, out, lost,
                 dataEnd' - (offset + |out|), dtd');
  }

  lemma ReachesEnd(p: Pass, e: seq<byte>, x: seq<byte>, base: nat, offset: nat, dataEnd: int, dtd: int)
    requires Reaches(p, e, x, base, offset, dataEnd, dtd)
    requires base + 128 <= |e| == |x| && (offset >= dataEnd || !Starts(Window(x, base, offset)))
    requires e[base] == 2
    ensures x == Splice(e, base, SweepBlock(p, e[base..base + 128]))
  {
    hide Sweep, SweepBlock, Untouched, Whole, Starts, Splice, Front, Window;
    SweepStops(p, Window(x, base, offset), dataEnd - offset, dtd);
    SweptExtension(p, e, base);
    WindowSplit(x, base, offset);
    Reassemble(e, x, base, dtd);
  }

  lemma WindowSplit(x: seq<byte>, base: nat, offset: nat)
    requires base + 128 <= |x| && 4 <= offset <= 127
    ensures Front(x, base, offset) + Window(x, base, offset) == Window(x, base, 4)
  {
  }

  lemma SweptExtension(p: Pass, e: seq<byte>, base: nat)
    requires base + 128 <= |e| && e[base] == 2
    ensures SweepBlock(p, e[base..base + 128])
         == e[base..base + 2] + [Byte(Whole(p, e, base).dtd), e[base + 3]] + Whole(p, e, base).bytes + [e[base + 127]]
  {
    hide Sweep;
    var s := e[base..base + 128];
    SliceOfSlice(e, base, base + 128, 127);
    SliceOfSlice(e, base, base + 127, 4);
    assert s[4..127] == Window(e, base, 4);
  }

  lemma Reassemble(e: seq<byte>, x: seq<byte>, base: nat, dtd: int)
    requires Untouched(e, x, base, dtd)
    ensures x == Splice(e, base, e[base..base + 2] + [Byte(dtd), e[base + 3]] + Window(x, base, 4) + [e[base + 127]])
  {
    assert x[base..base + 2] == x[..base + 2][base..] && x[..base] == x[..base + 2][..base];
    assert x[base + 127] == x[base + 127..][0] && x[base + 128..] == x[base + 127..][1..];
    assert e[base + 127] == e[base + 127..][0] && e[base + 128..] == e[base + 127..][1..];
  }

  /** The walkers' guard and the fields they read, in terms of the block at an offset. */
  lemma BlockAhead(x: seq<byte>, base: nat, offset: nat)
    requires base + 128 <= |x| && offset < 127
    ensures var t, h := Window(x, base, offset), x[base + offset];
      && t == x[base + offset..base + 127] && t[0] == h
      && (Starts(t) <==> !(Len(h) == 0 || offset + Len(h) >= 127))
      && (Starts(t) ==>
            Head(t) == DataBlock(Tag(h), x[base + offset + 1..base + offset + 1 + Len(h)]))
  {
    if Starts(Window(x, base, offset)) {
      BlockAt(x, base + offset, base + 127);
    }
  }

  /** The byte-2 store of the removing walkers completes a round. */
  lemma RoundDone(e: seq<byte>, x: seq<byte>, base: nat, offset: nat, dtd: int, out: seq<byte>, lost: nat,
                  r: seq<byte>, y: seq<byte>)
    requires Untouched(e, x, base, dtd) && base + 128 <= |x| && 4 <= offset <= 127
    requires Starts(Window(x, base, offset)) && lost == 1 + Len(Window(x, base, offset)[0]) - |out|
    requires r == Replaced(x, base + offset, out, base + 127)
    requires y == if dtd != 0 then r[base + 2 := Byte(r[base + 2] - lost)] else r
    ensures y == Round(x, base, offset, out, if dtd != 0 then dtd - lost else 0)
  {
    hide Starts, Len, Byte, Zeros;
    ReplacedKeepsByte2(x, base, offset, out);
    Byte2Falls(dtd, lost);
  }

  lemma ReplacedKeepsByte2(x: seq<byte>, base: nat, offset: nat, out: seq<byte>)
    requires base + 128 <= |x| && 4 <= offset <= 127 && Starts(Window(x, base, offset))
    requires |out| <= 1 + Len(Window(x, base, offset)[0])
    ensures var r := Replaced(x, base + offset, out, base + 127);
      r[base + 2] == x[base + 2] && r == r[base + 2 := x[base + 2]]
  {
    assert Overlay(x, base + offset, out)[base + 2] == x[base + 2];
  }

  lemma Byte2Falls(dtd: int, lost: nat)
    ensures Byte(Byte(dtd) - lost) == Byte(dtd - lost)
  {
  }

  /** A block the pass keeps as it is. */
  lemma RoundSame(p: Pass, x: seq<byte>, base: nat, offset: nat)
    requires base + 128 <= |x| && 4 <= offset <= 127
    requires Starts(Window(x, base, offset))
    requires Rewrite(p, Head(Window(x, base, offset))) == Some(Head(Window(x, base, offset)))
    ensures var out := Remains(p, Head(Window(x, base, offset)));
      |out| == 1 + Len(x[base + offset]) && x == Replaced(x, base + offset, out, base + 127)
  {
    hide Rewrite, Replaced;
    BlockAt(x, base + offset, base + 127);
  }

  method FilterCeaVideoDataBlocks(a: array<byte>, base: nat, caps: TxCaps)
    requires base + 128 <= a.Length
    modifies a
    ensures a[..] == Splice(old(a[..]), base, SweepBlock(VideoPass(caps), old(a[..])[base..base + 128]))
  {
    hide *;
    ghost var e := a[..];
    ghost var p := VideoPass(caps);
    if a[base] != 2 {
      NotCea(p, e, base);
      return;
    }
    var dtdStart: int := a[base + 2];
    var dataEnd: int := if dtdStart != 0 then dtdStart else 127;
    if dataEnd < 4 || dataEnd > 127 {
      dataEnd := 127;
    }
    WalkStart(p, e, base, dataEnd);
    var offset := 4;
    while offset < dataEnd
      invariant 4 <= offset <= 127 && dataEnd <= 127
      invariant Reaches(p, e, a[..], base, offset, dataEnd, dtdStart)
      decreases NonZero(Window(a[..], base, offset))
    {
      ghost var x := a[..];
      BlockAhead(x, base, offset);
      var tag, len := Tag(a[base + offset]), Len(a[base + offset]);
      if len == 0 || offset + len >= 127 {
        break;
      }
      ghost var b := Head(Window(x, base, offset));
      ghost var out := Remains(p, b);
      var size := len + 1;
      if tag == 2 || (tag == 7 && len >= 2 && a[base + offset + 1] == 0x0e) {
        Video(b);
        size := FilterVideoBlock(a, base + offset, base + 127, caps);
      } else {
        NotVideo(b, caps);
        RoundSame(p, x, base, offset);
      }
      ghost var r := a[..];
      var removeBytes := len + 1 - size;
      if dtdStart != 0 {
        a[base + 2] := Byte(a[base + 2] - removeBytes);
      }
      WalkStep(p, e, x, base, offset, dataEnd, dtdStart, out, removeBytes, r, a[..]);
      if dtdStart != 0 {
        dtdStart := dtdStart - removeBytes;
        dataEnd := dataEnd - removeBytes;
      }
      offset := offset + size;
    }
    ReachesEnd(p, e, a[..], base, offset, dataEnd, dtdStart);
  }

  lemma Video(b: DataBlock)
    requires b.tag == 2 || (b.tag == 7 && |b.payload| >= 2 && b.payload[0] == 0x0e)
    ensures b.tag == 2 || IsYcbcr420(b)
  {
  }

  lemma NotVideo(b: DataBlock, caps: TxCaps)
    requires b.Valid() && !(b.tag == 2 || (b.tag == 7 && |b.payload| >= 2 && b.payload[0] == 0x0e))
    ensures Rewrite(VideoPass(caps), b) == Some(b)
  {
  }

  lemma WalkStart(p: Pass, e: seq<byte>, base: nat, dataEnd: int)
    requires base + 128 <= |e|
    requires dataEnd == if 4 <= e[base + 2] <= 127 then e[base + 2] else 127
    ensures Reaches(p, e, e, base, 4, dataEnd, e[base + 2])
  {
    hide Sweep;
    ReachesStart(p, e, base);
  }

  lemma WalkStep(p: Pass, e: seq<byte>, x: seq<byte>, base: nat, offset: nat, dataEnd: int, dtd: int,
                 out: seq<byte>, lost: nat, r: seq<byte>, y: seq<byte>)
    requires Reaches(p, e, x, base, offset, dataEnd, dtd) && base + 128 <= |x| && offset < dataEnd
    requires Starts(Window(x, base, offset)) && out == Remains(p, Head(Window(x, base, offset)))
    requires lost == 1 + Len(Window(x, base, offset)[0]) - |out|
    requires r == Replaced(x, base + offset, out, base + 127)
    requires y == if dtd != 0 then r[base + 2 := Byte(r[base + 2] - lost)] else r
    ensures offset + |out| <= 127 && |y| == |x|
    ensures Reaches(p, e, y, base, offset + |out|, if dtd != 0 then dataEnd - lost else dataEnd,
                    if dtd != 0 then dtd - lost else 0)
    ensures NonZero(Window(y, base, offset + |out|)) < NonZero(Window(x, base, offset))
  {
    hide Remains, NonZero, Sweep, Progress, Whole, Window, Front, Round, Replaced, Untouched, Len, Byte, Starts, Head;
    RoundDone(e, x, base, offset, dtd, out, lost, r, y);
    RoundWindow(x, base, offset, out, if dtd != 0 then dtd - lost else 0, lost);
    ReachesStep(p, e, x, base, offset, dataEnd, dtd, out, lost,
                if dtd != 0 then dataEnd - lost else dataEnd, if dtd != 0 then dtd - lost else 0);
  }

  lemma NotCea(p: Pass, e: seq<byte>, base: nat)
    requires base + 128 <= |e| && e[base] != 2
    ensures e == Splice(e, base, SweepBlock(p, e[base..base + 128]))
  {
  }

  method RemoveCeaDataBlocksByOui(a: array<byte>, base: nat, oui0: byte, oui1: byte, oui2: byte)
    requires base + 128 <= a.Length
    modifies a
    ensures a[..] == Splice(old(a[..]), base, SweepBlock(VendorPass(oui0, oui1, oui2), old(a[..])[base..base + 128]))
  {
    hide *;
    ghost var e := a[..];
    ghost var p := VendorPass(oui0, oui1, oui2);
    if a[base] != 2 {
      NotCea(p, e, base);
      return;
    }
    var dtdStart: int := a[base + 2];
    var dataEnd: int := if dtdStart != 0 then dtdStart else 127;
    if dataEnd < 4 || dataEnd > 127 {
      dataEnd := 127;
    }
    WalkStart(p, e, base, dataEnd);
    var offset := 4;
    while offset < dataEnd
      invariant 4 <= offset <= 127 && dataEnd <= 127
      invariant Reaches(p, e, a[..], base, offset, dataEnd, dtdStart)
      decreases NonZero(Window(a[..], base, offset))
    {
      ghost var x := a[..];
      BlockAhead(x, base, offset);
      var tag, len := Tag(a[base + offset]), Len(a[base + offset]);
      if len == 0 || offset + len >= 127 {
        break;
      }
      ghost var b := Head(Window(x, base, offset));
      ghost var out := Remains(p, b);
      if tag == 3 && len >= 3
        && a[base + offset + 1] == oui0 && a[base + offset + 2] == oui1 && a[base + offset + 3] == oui2
      {
        var removeBytes := len + 1;
        VendorMatch(b, oui0, oui1, oui2);
        RoundEmpty(x, base, offset);
        CloseGap(a, base + offset, removeBytes, base + 127);
        ghost var r := a[..];
        if dtdStart != 0 {
          a[base + 2] := Byte(a[base + 2] - removeBytes);
        }
        WalkStep(p, e, x, base, offset, dataEnd, dtdStart, out, removeBytes, r, a[..]);
        if dtdStart != 0 {
          dtdStart := dtdStart - removeBytes;
          dataEnd := dataEnd - removeBytes;
        }
        continue;
      }
      VendorOther(b, oui0, oui1, oui2);
      KeptRound(p, e, x, base, offset, dataEnd, dtdStart);
      offset := offset + (len + 1);
    }
    ReachesEnd(p, e, a[..], base, offset, dataEnd, dtdStart);
  }

  lemma VendorMatch(b: DataBlock, oui0: byte, oui1: byte, oui2: byte)
    requires b.Valid() && b.tag == 3 && |b.payload| >= 3
    requires b.payload[0] == oui0 && b.payload[1] == oui1 && b.payload[2] == oui2
    ensures Remains(VendorPass(oui0, oui1, oui2), b) == []
  {
    assert b.payload[..3] == [oui0, oui1, oui2];
  }

  lemma VendorOther(b: DataBlock, oui0: byte, oui1: byte, oui2: byte)
    requires b.Valid()
    requires !(b.tag == 3 && |b.payload| >= 3 && b.payload[0] == oui0 && b.payload[1] == oui1 && b.payload[2] == oui2)
    ensures Rewrite(VendorPass(oui0, oui1, oui2), b) == Some(b)
  {
    if |b.payload| >= 3 {
      assert b.payload[..3][0] == b.payload[0] && b.payload[..3][1] == b.payload[1]
        && b.payload[..3][2] == b.payload[2];
    }
  }

  lemma RoundEmpty(x: seq<byte>, base: nat, offset: nat)
    requires base + 128 <= |x| && 4 <= offset <= 127 && Starts(Window(x, base, offset))
    ensures Replaced(x, base + offset, [], base + 127)
      == Closed(x, base + offset, Len(x[base + offset]) + 1, base + 127)
  {
    BlockAt(x, base + offset, base + 127);
  }

  /** A round that keeps the block: only the offset moves. */
  lemma KeptRound(p: Pass, e: seq<byte>, x: seq<byte>, base: nat, offset: nat, dataEnd: int, dtd: int)
    requires Reaches(p, e, x, base, offset, dataEnd, dtd) && base + 128 <= |x| && offset < dataEnd
    requires Starts(Window(x, base, offset))
    requires Rewrite(p, Head(Window(x, base, offset))) == Some(Head(Window(x, base, offset)))
    ensures offset + (Len(x[base + offset]) + 1) <= 127
    ensures Reaches(p, e, x, base, offset + (Len(x[base + offset]) + 1), dataEnd, dtd)
    ensures NonZero(Window(x, base, offset + (Len(x[base + offset]) + 1))) < NonZero(Window(x, base, offset))
  {
    hide Remains, NonZero, Sweep, Progress, Whole, Window, Front, Round, Replaced, Len, Starts, Head, Rewrite;
    RoundSame(p, x, base, offset);
    BlockAhead(x, base, offset);
    var out := Remains(p, Head(Window(x, base, offset)));
    assert dtd != 0 ==> x == x[base + 2 := Byte(x[base + 2] - 0)];
    WalkStep(p, e, x, base, offset, dataEnd, dtd, out, 0, x, x);
  }

  lemma OverlaySet(e: seq<byte>, at: nat, p: seq<byte>, i: nat, v: byte)
    requires at + |p| <= |e| && i < |p|
    ensures Overlay(e, at, p)[at + i := v] == Overlay(e, at, p[i := v]) && Overlay(e, at, p)[at + i] == p[i]
  {
  }

  /** FilterHfScdbCapabilities: `count` payload bytes from `at` on. */
  method FilterHfScdbCapabilities(a: array<byte>, at: nat, count: nat, allm: bool, vrr: bool)
    requires at + count <= a.Length
    modifies a
    ensures a[..] == Overlay(old(a[..]), at, ClearFeatures(old(a[..])[at..at + count], allm, vrr))
  {
    hide ClearBit, HasBit, Overlay;
    ghost var e := a[..];
    ghost var p := e[at..at + count];
    OverlaySame(e, at, p);
    if count >= 8 && !allm {
      OverlaySet(e, at, p, 7, ClearBit(p[7], 1));
      a[at + 7] := ClearBit(a[at + 7], 1);
      p := p[7 := ClearBit(p[7], 1)];
      assert a[..] == e[at + 7 := p[7]];
    }
    assert a[..] == Overlay(e, at, p);
    if count >= 10 && !vrr {
      ghost var v := ClearBit(ClearBit(ClearBit(p[7], 3), 5), 6);
      OverlaySet(e, at, p, 7, v);
      OverlaySet(e, at, p[7 := v], 8, 0);
      OverlaySet(e, at, p[7 := v][8 := 0], 9, 0);
      ghost var now := a[..];
      a[at + 7] := ClearBit(ClearBit(ClearBit(a[at + 7], 3), 5), 6);
      a[at + 8] := 0;
      a[at + 9] := 0;
      assert a[..] == now[at + 7 := v][at + 8 := 0][at + 9 := 0];
    }
  }

  method FilterCeaHfScdb(a: array<byte>, base: nat, allm: bool, vrr: bool)
    requires base + 128 <= a.Length
    modifies a
    ensures a[..] == Splice(old(a[..]), base, SweepBlock(FeaturePass(allm, vrr), old(a[..])[base..base + 128]))
  {
    hide *;
    ghost var e := a[..];
    ghost var p := FeaturePass(allm, vrr);
    if a[base] != 2 {
      NotCea(p, e, base);
      return;
    }
    var dtdStart: int := a[base + 2];
    var dataEnd: int := if dtdStart != 0 then dtdStart else 127;
    if dataEnd < 4 || dataEnd > 127 {
      dataEnd := 127;
    }
    WalkStart(p, e, base, dataEnd);
    var offset := 4;
    while offset < dataEnd
      invariant 4 <= offset <= 127 && dataEnd <= 127
      invariant Reaches(p, e, a[..], base, offset, dataEnd, dtdStart)
      decreases dataEnd - offset
    {
      ghost var x := a[..];
      BlockAhead(x, base, offset);
      var tag, len := Tag(a[base + offset]), Len(a[base + offset]);
      if len == 0 || offset + len >= 127 {
        break;
      }
      ghost var b := Head(Window(x, base, offset));
      if tag == 3 && len >= 3
        && a[base + offset + 1] == 0xd8 && a[base + offset + 2] == 0x5d && a[base + offset + 3] == 0xc4
      {
        FeatureStep(p, e, x, base, offset, dataEnd, dtdStart, allm, vrr);
        FilterHfScdbCapabilities(a, base + offset + 1, len, allm, vrr);
      } else if tag == 7 && len >= 1 && a[base + offset + 1] == 0x79 {
        FeatureStep(p, e, x, base, offset, dataEnd, dtdStart, allm, vrr);
        FilterHfScdbCapabilities(a, base + offset + 1, len, allm, vrr);
      } else {
        FeatureOther(b, allm, vrr);
        KeptRound(p, e, x, base, offset, dataEnd, dtdStart);
      }
      offset := offset + (len + 1);
    }
    ReachesEnd(p, e, a[..], base, offset, dataEnd, dtdStart);
  }

  lemma FeatureOther(b: DataBlock, allm: bool, vrr: bool)
    requires b.Valid()
    requires !(b.tag == 3 && |b.payload| >= 3 && b.payload[0] == 0xd8 && b.payload[1] == 0x5d && b.payload[2] == 0xc4)
    requires !(b.tag == 7 && |b.payload| >= 1 && b.payload[0] == 0x79)
    ensures Rewrite(FeaturePass(allm, vrr), b) == Some(b)
  {
    if |b.payload| >= 3 {
      assert b.payload[..3][0] == b.payload[0] && b.payload[..3][1] == b.payload[1]
        && b.payload[..3][2] == b.payload[2];
    }
  }

  lemma FeatureMatch(b: DataBlock, allm: bool, vrr: bool)
    requires b.Valid()
    requires || (b.tag == 3 && |b.payload| >= 3 && b.payload[0] == 0xd8 && b.payload[1] == 0x5d && b.payload[2] == 0xc4)
             || (b.tag == 7 && |b.payload| >= 1 && b.payload[0] == 0x79)
    ensures Remains(FeaturePass(allm, vrr), b) == [b.Encode()[0]] + ClearFeatures(b.payload, allm, vrr)
  {
    hide ClearFeatures;
    if b.tag == 3 {
      assert b.payload[..3] == [0xd8, 0x5d, 0xc4];
    }
  }

  /** A round over an HDMI Forum block: the payload is overwritten, nothing moves. */
  lemma FeatureStep(p: Pass, e: seq<byte>, x: seq<byte>, base: nat, offset: nat, dataEnd: int, dtd: int,
                    allm: bool, vrr: bool)
    requires p == FeaturePass(allm, vrr)
    requires Reaches(p, e, x, base, offset, dataEnd, dtd) && base + 128 <= |x| && 4 <= offset < dataEnd <= 127
    requires Starts(Window(x, base, offset))
    requires var b := Head(Window(x, base, offset));
      || (b.tag == 3 && |b.payload| >= 3 && b.payload[0] == 0xd8 && b.payload[1] == 0x5d && b.payload[2] == 0xc4)
      || (b.tag == 7 && |b.payload| >= 1 && b.payload[0] == 0x79)
    ensures var at, len := base + offset + 1, Len(x[base + offset]);
      && offset + (len + 1) <= 127
      && var y := Overlay(x, at, ClearFeatures(x[at..at + len], allm, vrr));
        Reaches(p, e, y, base, offset + (len + 1), dataEnd, dtd)
  {
    hide Remains, NonZero, Reaches, Len, Tag, ClearFeatures, Starts, Head, Rewrite, Window, Byte, Overlay, Replaced;
    var at, len := base + offset + 1, Len(x[base + offset]);
    BlockAhead(x, base, offset);
    var b := Head(Window(x, base, offset));
    FeatureMatch(b, allm, vrr);
    var out := Remains(p, b);
    var y := Overlay(x, at, ClearFeatures(b.payload, allm, vrr));
    FeatureBytes(x, base, offset, ClearFeatures(b.payload, allm, vrr), out, y);
    WalkStep(p, e, x, base, offset, dataEnd, dtd, out, 0, y, y);
  }

  lemma FeatureBytes(x: seq<byte>, base: nat, offset: nat, cleared: seq<byte>, out: seq<byte>, y: seq<byte>)
    requires base + 128 <= |x| && 4 <= offset < 127 && Starts(Window(x, base, offset))
    requires |cleared| == Len(x[base + offset]) && y == Overlay(x, base + offset + 1, cleared)
    requires out == [Head(Window(x, base, offset)).Encode()[0]] + cleared
    ensures y == Replaced(x, base + offset, out, base + 127) == y[base + 2 := Byte(y[base + 2] - 0)]
    ensures |out| == Len(x[base + offset]) + 1
  {
    hide Byte, Overlay, Closed, Head;
    var at, end := base + offset, base + 127;
    BlockAt(x, at, end);
    OverlayBehind(x, at, cleared);
    assert out == [x[at]] + cleared by { HeaderByte(Window(x, base, offset)); }
    ClosedNothing(Overlay(x, at, out), at + |out|, end);
    ByteOfByte(y[base + 2]);
  }

  lemma HeaderByte(t: seq<byte>)
    requires Starts(t)
    ensures Head(t).Encode()[0] == t[0]
  {
    assert t[..1 + Len(t[0])][0] == t[0];
  }

  lemma OverlayBehind(x: seq<byte>, at: nat, s: seq<byte>)
    requires at + 1 + |s| <= |x|
    ensures Overlay(x, at, [x[at]] + s) == Overlay(x, at + 1, s)
  {
  }

  lemma ByteOfByte(b: byte)
    ensures Byte(b) == b
  {
  }
}
