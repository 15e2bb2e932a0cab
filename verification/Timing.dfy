/** Video modes, the TX capability test and the 18-byte detailed timing codec
    (section 3.10.2 of VESA E-EDID Standard Release A Rev. 2). */
module Timing {
  import opened Arith
  import opened Bytes

  datatype Mode = Mode(width: int, height: int, fps: int, interlaced: bool)

  /** What is known of the TX sink: the VICs its EDID lists and the modes its driver lists. */
  datatype TxCaps = TxCaps(vics: set<int>, modes: seq<Mode>) {
    predicate SupportsMode(m: Mode) {
      m in modes
    }

    predicate SupportsVic(vic: int) {
      || (0 < vic < 256 && vic in vics)
      || (VicToMode(vic).Some? && SupportsMode(VicToMode(vic).value))
    }
  }

  function VicToMode(vic: int): Option<Mode> {
    match vic
    case 1 => Some(Mode(640, 480, 60, false))
    case 2 => Some(Mode(720, 480, 60, false))
    case 3 => Some(Mode(720, 480, 60, false))
    case 4 => Some(Mode(1280, 720, 60, false))
    case 5 => Some(Mode(1920, 1080, 60, true))
    case 16 => Some(Mode(1920, 1080, 60, false))
    case 17 => Some(Mode(720, 576, 50, false))
    case 18 => Some(Mode(720, 576, 50, false))
    case 19 => Some(Mode(1280, 720, 50, false))
    case 20 => Some(Mode(1920, 1080, 50, true))
    case 31 => Some(Mode(1920, 1080, 50, false))
    case 32 => Some(Mode(1920, 1080, 24, false))
    case 33 => Some(Mode(1920, 1080, 25, false))
    case 34 => Some(Mode(1920, 1080, 30, false))
    case 63 => Some(Mode(1920, 1080, 120, false))
    case 64 => Some(Mode(1920, 1080, 100, false))
    case 93 => Some(Mode(3840, 2160, 24, false))
    case 94 => Some(Mode(3840, 2160, 25, false))
    case 95 => Some(Mode(3840, 2160, 30, false))
    case 96 => Some(Mode(3840, 2160, 50, false))
    case 97 => Some(Mode(3840, 2160, 60, false))
    case 98 => Some(Mode(4096, 2160, 24, false))
    case 99 => Some(Mode(4096, 2160, 25, false))
    case 100 => Some(Mode(4096, 2160, 30, false))
    case 101 => Some(Mode(4096, 2160, 50, false))
    case 102 => Some(Mode(4096, 2160, 60, false))
    case _ => None
  }

  method ModeSupportedByDispCap(modes: seq<Mode>, m: Mode) returns (found: bool)
    ensures found <==> m in modes
  {
    for i := 0 to |modes|
      invariant m !in modes[..i]
    {
      if modes[i] == m {
        return true;
      }
    }
    return false;
  }

  method TxSupportsVic(vic: int, caps: TxCaps) returns (supported: bool)
    ensures supported <==> caps.SupportsVic(vic)
  {
    if 0 < vic < 256 && vic in caps.vics {
      return true;
    }
    var mode := VicToMode(vic);
    if mode.Some? {
      supported := ModeSupportedByDispCap(caps.modes, mode.value);
    } else {
      return false;
    }
  }

  /** The arguments of the encoder; pixelClock counts units of 10 kHz. */
  datatype Timings = Timings(
    pixelClock: nat,
    hActive: nat, hBlank: nat, hFrontPorch: nat, hSync: nat,
    vActive: nat, vBlank: nat, vFrontPorch: nat, vSync: nat,
    hImageSize: nat, vImageSize: nat, flags: byte)
  {
    /** Every field fits the bits the descriptor has for it. */
    predicate InRange() {
      && pixelClock < 0x1_0000
      && hActive < 0x1000 && hBlank < 0x1000 && hFrontPorch < 0x400 && hSync < 0x400
      && vActive < 0x1000 && vBlank < 0x1000 && vFrontPorch < 0x40 && vSync < 0x40
      && hImageSize < 0x1000 && vImageSize < 0x1000
    }
  }

  function Encode(t: Timings): (d: seq<byte>)
    ensures |d| == 18
  {
    [ t.pixelClock % 256,
      t.pixelClock / 256 % 256,
      t.hActive % 256,
      t.hBlank % 256,
      t.hActive / 256 % 16 * 16 + t.hBlank / 256 % 16,
      t.vActive % 256,
      t.vBlank % 256,
      t.vActive / 256 % 16 * 16 + t.vBlank / 256 % 16,
      t.hFrontPorch % 256,
      t.hSync % 256,
      t.vFrontPorch % 16 * 16 + t.vSync % 16,
      t.hFrontPorch / 256 % 4 * 64 + t.hSync / 256 % 4 * 16 + t.vFrontPorch / 16 % 4 * 4 + t.vSync / 16 % 4,
      t.hImageSize % 256,
      t.vImageSize % 256,
      t.hImageSize / 256 % 16 * 16 + t.vImageSize / 256 % 16,
      0,
      0,
      t.flags ]
  }

  function Word(low: int, high: int): int {
    low + 256 * high
  }

  /** The inverse of Encode, field by field, as section 3.10.2 lays the descriptor out. */
  function Decode(d: seq<byte>): Timings
    requires |d| == 18
  {
    Timings(
      Word(d[0], d[1]),
      Word(d[2], d[4] / 16), Word(d[3], d[4] % 16), Word(d[8], d[11] / 64), Word(d[9], d[11] / 16 % 4),
      Word(d[5], d[7] / 16), Word(d[6], d[7] % 16), d[10] / 16 + 16 * (d[11] / 4 % 4), d[10] % 16 + 16 * (d[11] % 4),
      Word(d[12], d[14] / 16), Word(d[13], d[14] % 16), d[17])
  }

  lemma TwoBytes(x: nat)
    requires x < 0x1_0000
    ensures Word(x % 256, x / 256 % 256) == x
  {
  }

  lemma Nibbles(x: nat, y: nat)
    requires x < 0x1000 && y < 0x1000
    ensures var b := x / 256 % 16 * 16 + y / 256 % 16;
      Word(x % 256, b / 16) == x && Word(y % 256, b % 16) == y
  {
  }

  lemma Pairs(a: nat, b: nat, c: nat, d: nat)
    requires a < 4 && b < 4 && c < 4 && d < 4
    ensures var x := a * 64 + b * 16 + c * 4 + d;
      x / 64 == a && x / 16 % 4 == b && x / 4 % 4 == c && x % 4 == d
  {
  }

  lemma Porches(hf: nat, hs: nat, vf: nat, vs: nat)
    requires hf < 0x400 && hs < 0x400 && vf < 0x40 && vs < 0x40
    ensures var b := hf / 256 % 4 * 64 + hs / 256 % 4 * 16 + vf / 16 % 4 * 4 + vs / 16 % 4;
      var c := vf % 16 * 16 + vs % 16;
      && Word(hf % 256, b / 64) == hf && Word(hs % 256, b / 16 % 4) == hs
      && c / 16 + 16 * (b / 4 % 4) == vf && c % 16 + 16 * (b % 4) == vs
  {
    Pairs(hf / 256 % 4, hs / 256 % 4, vf / 16 % 4, vs / 16 % 4);
  }

  /** The codec loses nothing on its field ranges, hence the encoder is injective on them. */
  lemma DecodeEncode(t: Timings)
    requires t.InRange()
    ensures Decode(Encode(t)) == t
  {
    hide Word;
    TwoBytes(t.pixelClock);
    Nibbles(t.hActive, t.hBlank);
    Nibbles(t.vActive, t.vBlank);
    Nibbles(t.hImageSize, t.vImageSize);
    Porches(t.hFrontPorch, t.hSync, t.vFrontPorch, t.vSync);
  }

  lemma EncodeInjective(t: Timings, u: Timings)
    requires t.InRange() && u.InRange() && Encode(t) == Encode(u)
    ensures t == u
  {
    DecodeEncode(t);
    DecodeEncode(u);
  }

  /** The refresh rate of a timing: clock * 10000 / pixels per frame, rounded by adding half the divisor. */
  function Fps(pixelClock: nat, hTotal: nat, vTotal: nat): nat
    requires hTotal > 0 && vTotal > 0
  {
    (pixelClock * 10000 + hTotal * vTotal / 2) / (hTotal * vTotal)
  }

  /** DetailedTimingToMode: None stands for its return value -1. */
  function ToMode(d: seq<byte>): Option<Mode>
    requires |d| == 18
  {
    var t := Decode(d);
    var hTotal := t.hActive + t.hBlank;
    var vTotal := t.vActive + t.vBlank;
    if t.pixelClock == 0 || hTotal <= 0 || vTotal <= 0 then None
    else Some(Mode(t.hActive, t.vActive, Fps(t.pixelClock, hTotal, vTotal), d[17] / 128 == 1))
  }

  /** Reading back a written descriptor gives the written mode, with the scan flag in bit 7 of the flags. */
  lemma WriteThenRead(t: Timings)
    requires t.InRange()
    ensures ToMode(Encode(t)).Some? <==> t.pixelClock > 0 && t.hActive + t.hBlank > 0 && t.vActive + t.vBlank > 0
    ensures ToMode(Encode(t)).Some? ==>
      ToMode(Encode(t)).value
      == Mode(t.hActive, t.vActive, Fps(t.pixelClock, t.hActive + t.hBlank, t.vActive + t.vBlank), t.flags >= 128)
  {
    DecodeEncode(t);
  }

  lemma ProductAtLeast(k: int, d: nat)
    requires k >= 1
    ensures k * d >= d
  {
  }

  /** Fps is a nearest integer to the exact rate: no k has k * hTotal * vTotal closer to the clock. */
  lemma FpsIsNearest(pixelClock: nat, hTotal: nat, vTotal: nat, k: int)
    requires hTotal > 0 && vTotal > 0
    ensures var total := hTotal * vTotal;
      Abs(Fps(pixelClock, hTotal, vTotal) * total - pixelClock * 10000) <= Abs(k * total - pixelClock * 10000)
  {
    var total, rate, clock := hTotal * vTotal, Fps(pixelClock, hTotal, vTotal), pixelClock * 10000;
    assert rate * total <= clock + total / 2 < rate * total + total by {
      Division(clock + total / 2, total);
    }
    if k > rate {
      ProductAtLeast(k - rate, total);
      assert k * total - rate * total == (k - rate) * total;
    } else if k < rate {
      ProductAtLeast(rate - k, total);
      assert rate * total - k * total == (rate - k) * total;
    }
  }

  /** Halfway between two integers the rate is the higher one. */
  lemma FpsRoundsUp(pixelClock: nat, hTotal: nat, vTotal: nat)
    requires hTotal > 0 && vTotal > 0
    ensures var total, rate := hTotal * vTotal, Fps(pixelClock, hTotal, vTotal);
      2 * (rate * total) - total <= 2 * (pixelClock * 10000) < 2 * (rate * total) + total
  {
    var total, clock := hTotal * vTotal, pixelClock * 10000;
    Division(clock + total / 2, total);
  }

  lemma Division(n: nat, d: nat)
    requires d > 0
    ensures n / d * d <= n < n / d * d + d
  {
    assert n == n / d * d + n % d;
  }

  lemma ProductAtMost(x: nat, y: nat, m: nat)
    requires x <= m && y <= m
    ensures x * y <= m * m
  {
    assert x * y <= x * m <= m * m;
  }

  lemma DecodedBounds(d: seq<byte>)
    requires |d| == 18
    ensures var t := Decode(d);
      t.pixelClock < 0x1_0000 && t.hActive < 0x1000 && t.hBlank < 0x1000 && t.vActive < 0x1000 && t.vBlank < 0x1000
  {
  }

  /** For any 18 bytes no intermediate of the refresh computation leaves a 32-bit int. */
  lemma NoOverflow(d: seq<byte>, t: Timings, total: int)
    requires |d| == 18 && t == Decode(d)
    requires total == (t.hActive + t.hBlank) * (t.vActive + t.vBlank)
    ensures 0 <= t.pixelClock * 10000 + total / 2 < 0x8000_0000 && 0 <= total < 0x8000_0000
  {
    hide Decode;
    DecodedBounds(d);
    ProductAtMost(t.hActive + t.hBlank, t.vActive + t.vBlank, 8190);
  }

  method DetailedTimingToMode(a: array<byte>, at: nat) returns (mode: Option<Mode>)
    requires at + 18 <= a.Length
    ensures mode == ToMode(a[at..at + 18])
  {
    hide Fps;
    var dtd := a[at..at + 18];
    var pixelClock: int := Word(dtd[0], dtd[1]);
    if pixelClock == 0 {
      return None;
    }
    var hActive: int := Word(dtd[2], dtd[4] / 16);
    var hBlank: int := Word(dtd[3], dtd[4] % 16);
    var vActive: int := Word(dtd[5], dtd[7] / 16);
    var vBlank: int := Word(dtd[6], dtd[7] % 16);
    var hTotal, vTotal := hActive + hBlank, vActive + vBlank;
    if hTotal <= 0 || vTotal <= 0 {
      return None;
    }
    return Some(Mode(hActive, vActive, Fps(pixelClock, hTotal, vTotal), dtd[17] / 128 == 1));
  }

  /** A run of consecutive byte stores. */
  method Store(a: array<byte>, at: nat, d: seq<byte>)
    requires at + |d| <= a.Length
    modifies a
    ensures a[..] == old(a[..at]) + d + old(a[at + |d|..])
  {
    forall i | 0 <= i < |d| { a[at + i] := d[i]; }
  }

  method WriteDetailedTiming(a: array<byte>, at: nat, t: Timings)
    requires at + 18 <= a.Length
    modifies a
    ensures a[..] == old(a[..at]) + Encode(t) + old(a[at + 18..])
  {
    Store(a, at, [
      t.pixelClock % 256,
      t.pixelClock / 256 % 256,
      t.hActive % 256,
      t.hBlank % 256,
      t.hActive / 256 % 16 * 16 + t.hBlank / 256 % 16,
      t.vActive % 256,
      t.vBlank % 256,
      t.vActive / 256 % 16 * 16 + t.vBlank / 256 % 16,
      t.hFrontPorch % 256,
      t.hSync % 256,
      t.vFrontPorch % 16 * 16 + t.vSync % 16,
      t.hFrontPorch / 256 % 4 * 64 + t.hSync / 256 % 4 * 16 + t.vFrontPorch / 16 % 4 * 4 + t.vSync / 16 % 4,
      t.hImageSize % 256,
      t.vImageSize % 256,
      t.hImageSize / 256 % 16 * 16 + t.vImageSize / 256 % 16,
      0,
      0,
      t.flags]);
  }

  /** The encoder written out a second time inside the patcher, with the image size as byte constants. */
  function InlineEncode(t: Timings): seq<byte> {
    var pc, hA, hB, hF, hS := t.pixelClock, t.hActive, t.hBlank, t.hFrontPorch, t.hSync;
    var vA, vB, vF, vS := t.vActive, t.vBlank, t.vFrontPorch, t.vSync;
    [ pc % 256,
      pc / 256 % 256,
      hA % 256,
      hB % 256,
      hA / 256 % 16 * 16 + hB / 256 % 16,
      vA % 256,
      vB % 256,
      vA / 256 % 16 * 16 + vB / 256 % 16,
      hF % 256,
      hS % 256,
      vF % 16 * 16 + vS % 16,
      hF / 256 % 4 * 64 + hS / 256 % 4 * 16 + vF / 16 % 4 * 4 + vS / 16 % 4,
      0x20,
      0xC2,
      0x31,
      0x00,
      0x00,
      t.flags ]
  }

  /** The second encoder is the first one with an image of 800 by 450 mm, for every argument. */
  lemma InlineEncoderAgrees(t: Timings)
    ensures InlineEncode(t) == Encode(t.(hImageSize := 800, vImageSize := 450))
  {
    var u := t.(hImageSize := 800, vImageSize := 450);
    assert Encode(u)[..12] == InlineEncode(t)[..12];
    assert Encode(u)[12..] == InlineEncode(t)[12..];
    assert Encode(u) == Encode(u)[..12] + Encode(u)[12..];
  }

  /** What FilterDetailedTimings leaves of one 18-byte slot. */
  function FilterSlot(d: seq<byte>, caps: TxCaps): (r: seq<byte>)
    requires |d| == 18
    ensures |r| == 18
  {
    if ToMode(d).Some? && !caps.SupportsMode(ToMode(d).value) then Zeros(18) else d
  }

  /** The region cut into 18-byte slots, each one filtered; a shorter rest is kept. */
  function FilterSlots(s: seq<byte>, caps: TxCaps): (r: seq<byte>)
    ensures |r| == |s|
  {
    if |s| < 18 then s else FilterSlot(s[..18], caps) + FilterSlots(s[18..], caps)
  }

  /** One round of the loop below, on the bytes `now` it works on and the bytes e it started from. */
  lemma SlotsStep(e: seq<byte>, start: nat, done: seq<byte>, offset: nat, end: nat, now: seq<byte>, caps: TxCaps)
    requires start <= offset && offset + 18 <= end <= |e| && |done| == offset - start
    requires now == e[..start] + done + e[offset..]
    ensures var slot := FilterSlot(e[offset..offset + 18], caps);
      && now[offset..offset + 18] == e[offset..offset + 18]
      && now[..offset] + slot + now[offset + 18..] == e[..start] + (done + slot) + e[offset + 18..]
      && done + FilterSlots(e[offset..end], caps) == (done + slot) + FilterSlots(e[offset + 18..end], caps)
  {
    hide FilterSlot;
    assert e[offset..end][..18] == e[offset..offset + 18] && e[offset..end][18..] == e[offset + 18..end];
  }

  method FilterDetailedTimings(a: array<byte>, start: nat, end: nat, caps: TxCaps)
    requires start <= end <= a.Length
    modifies a
    ensures a[..] == old(a[..start]) + FilterSlots(old(a[start..end]), caps) + old(a[end..])
  {
    hide FilterSlot, FilterSlots;
    ghost var e := a[..];
    ghost var done: seq<byte> := [];
    var offset := start;
    while offset + 18 <= end
      invariant start <= offset <= end
      invariant |done| == offset - start
      invariant a[..] == e[..start] + done + e[offset..]
      invariant FilterSlots(e[start..end], caps) == done + FilterSlots(e[offset..end], caps)
      decreases end - offset
    {
      SlotsStep(e, start, done, offset, end, a[..], caps);
      FilterSlotAt(a, offset, caps);
      done := done + FilterSlot(e[offset..offset + 18], caps);
      offset := offset + 18;
    }
    SlotsEnd(e, start, done, offset, end, caps);
  }

  lemma SlotsEnd(e: seq<byte>, start: nat, done: seq<byte>, offset: nat, end: nat, caps: TxCaps)
    requires start <= offset <= end <= |e| && end < offset + 18 && |done| == offset - start
    ensures e[..start] + done + e[offset..] == e[..start] + (done + FilterSlots(e[offset..end], caps)) + e[end..]
  {
  }

  /** The body of the loop above, for the slot at one offset. */
  method FilterSlotAt(a: array<byte>, offset: nat, caps: TxCaps)
    requires offset + 18 <= a.Length
    modifies a
    ensures a[..] == old(a[..offset]) + FilterSlot(old(a[offset..offset + 18]), caps) + old(a[offset + 18..])
  {
    hide ToMode, Zeros;
    var mode := DetailedTimingToMode(a, offset);
    if mode.Some? {
      var supported := ModeSupportedByDispCap(caps.modes, mode.value);
      if !supported {
        Store(a, offset, Zeros(18));
      }
    }
  }
}
