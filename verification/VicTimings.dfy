/** The modes of the VIC table and of the patcher's tables against the timings behind them. */
module VicTimings {
  import opened Bytes
  import opened Timing
  import opened EdidPatch

  /** A video timing as CTA-861-G lists it: clock in units of 10 kHz, active and total pixels and lines. For an
      interlaced one the lines are those of a field, as a detailed timing descriptor has them. */
  datatype Listed = Listed(clock: nat, hActive: nat, hTotal: nat, vActive: nat, vTotal: nat, interlaced: bool)

  /** The timings of the VICs the source knows (table 1 in section 4.1 of CTA-861-G). */
  function TimingOf(vic: int): Option<Listed> {
    match vic
    case 1 => Some(Listed(2520, 640, 800, 480, 525, false))
    case 2 => Some(Listed(2700, 720, 858, 480, 525, false))
    case 3 => Some(Listed(2700, 720, 858, 480, 525, false))
    case 4 => Some(Listed(7425, 1280, 1650, 720, 750, false))
    case 5 => Some(Listed(7425, 1920, 2200, 540, 562, true))
    case 16 => Some(Listed(14850, 1920, 2200, 1080, 1125, false))
    case 17 => Some(Listed(2700, 720, 864, 576, 625, false))
    case 18 => Some(Listed(2700, 720, 864, 576, 625, false))
    case 19 => Some(Listed(7425, 1280, 1980, 720, 750, false))
    case 20 => Some(Listed(7425, 1920, 2640, 540, 562, true))
    case 31 => Some(Listed(14850, 1920, 2640, 1080, 1125, false))
    case 32 => Some(Listed(7425, 1920, 2750, 1080, 1125, false))
    case 33 => Some(Listed(7425, 1920, 2640, 1080, 1125, false))
    case 34 => Some(Listed(7425, 1920, 2200, 1080, 1125, false))
    case 63 => Some(Listed(29700, 1920, 2200, 1080, 1125, false))
    case 64 => Some(Listed(29700, 1920, 2640, 1080, 1125, false))
    case 93 => Some(Listed(29700, 3840, 5500, 2160, 2250, false))
    case 94 => Some(Listed(29700, 3840, 5280, 2160, 2250, false))
    case 95 => Some(Listed(29700, 3840, 4400, 2160, 2250, false))
    case 96 => Some(Listed(59400, 3840, 5280, 2160, 2250, false))
    case 97 => Some(Listed(59400, 3840, 4400, 2160, 2250, false))
    case 98 => Some(Listed(29700, 4096, 5500, 2160, 2250, false))
    case 99 => Some(Listed(29700, 4096, 5280, 2160, 2250, false))
    case 100 => Some(Listed(29700, 4096, 4400, 2160, 2250, false))
    case 101 => Some(Listed(59400, 4096, 5280, 2160, 2250, false))
    case 102 => Some(Listed(59400, 4096, 4400, 2160, 2250, false))
    case _ => None
  }

  /** A listed timing as a descriptor; porches and image size do not matter to the mode. */
  function Descriptor(l: Listed): (d: seq<byte>)
    requires l.hTotal >= l.hActive && l.vTotal >= l.vActive
    ensures |d| == 18
  {
    Encode(Timings(l.clock, l.hActive, l.hTotal - l.hActive, 0, 0, l.vActive, l.vTotal - l.vActive, 0, 0, 0, 0,
                   if l.interlaced then 0x80 else 0))
  }

  /** Whether a timing fits the fields of a descriptor. */
  predicate Encodable(l: Listed) {
    && 0 < l.clock < 0x1_0000
    && 0 < l.hActive <= l.hTotal && l.hActive < 0x1000 && l.hTotal - l.hActive < 0x1000
    && 0 < l.vActive <= l.vTotal && l.vActive < 0x1000 && l.vTotal - l.vActive < 0x1000
  }

  lemma DescriptorMode(l: Listed)
    requires Encodable(l)
    ensures ToMode(Descriptor(l))
         == Some(Mode(l.hActive, l.vActive, Fps(l.clock, l.hTotal, l.vTotal), l.interlaced))
  {
    hide ToMode, Encode, Fps;
    WriteThenRead(Timings(l.clock, l.hActive, l.hTotal - l.hActive, 0, 0, l.vActive, l.vTotal - l.vActive, 0, 0, 0, 0,
                          if l.interlaced then 0x80 else 0));
  }

  /** The rates of all listed timings, worked out. */
  lemma ListedRates()
    ensures Fps(2520, 800, 525) == 60 && Fps(2700, 858, 525) == 60 && Fps(7425, 1650, 750) == 60
    ensures Fps(7425, 2200, 562) == 60 && Fps(14850, 2200, 1125) == 60 && Fps(2700, 864, 625) == 50
    ensures Fps(7425, 1980, 750) == 50 && Fps(7425, 2640, 562) == 50 && Fps(14850, 2640, 1125) == 50
    ensures Fps(7425, 2750, 1125) == 24 && Fps(7425, 2640, 1125) == 25 && Fps(7425, 2200, 1125) == 30
    ensures Fps(29700, 2200, 1125) == 120 && Fps(29700, 2640, 1125) == 100
    ensures Fps(29700, 5500, 2250) == 24 && Fps(29700, 5280, 2250) == 25 && Fps(29700, 4400, 2250) == 30
    ensures Fps(59400, 5280, 2250) == 50 && Fps(59400, 4400, 2250) == 60
  {
  }

  /** The mode of a listed timing: its rate, and the lines of both fields. */
  function ModeOf(l: Listed): Mode
    requires l.hTotal > 0 && l.vTotal > 0
  {
    Mode(l.hActive, if l.interlaced then 2 * l.vActive else l.vActive, Fps(l.clock, l.hTotal, l.vTotal), l.interlaced)
  }

  /** The mode of a VIC is that of its timing; where the timing fits a descriptor, which 4096 pixels do not, it
      is what this descriptor reads as, with the lines of both fields. */
  lemma VicIsItsTiming(vic: int)
    ensures VicToMode(vic).Some? <==> vic in {1, 2, 3, 4, 5, 16, 17, 18, 19, 20, 31, 32, 33, 34, 63, 64,
                                              93, 94, 95, 96, 97, 98, 99, 100, 101, 102}
    ensures VicToMode(vic).Some? <==> TimingOf(vic).Some?
    ensures TimingOf(vic).Some? ==>
      var l := TimingOf(vic).value;
      && l.hTotal >= l.hActive > 0 && l.vTotal >= l.vActive > 0
      && VicToMode(vic) == Some(ModeOf(l))
      && (Encodable(l) <==> l.hActive < 4096)
      && (Encodable(l) ==>
            ToMode(Descriptor(l)).Some?
            && var m := ToMode(Descriptor(l)).value;
              VicToMode(vic) == Some(m.(height := if l.interlaced then 2 * m.height else m.height)))
  {
    hide ToMode, Encode, Fps, Descriptor;
    ListedRates();
    if TimingOf(vic).Some? && Encodable(TimingOf(vic).value) {
      DescriptorMode(TimingOf(vic).value);
    }
  }

  /** TxSupportsVic in these terms: a VIC counts if the TX lists it, or if the driver lists the mode of its
      timing. */
  lemma SupportedByTiming(vic: int, caps: TxCaps)
    ensures caps.SupportsVic(vic)
       <==> || (0 < vic < 256 && vic in caps.vics)
            || (TimingOf(vic).Some?
                && var l := TimingOf(vic).value;
                  l.hTotal > 0 && l.vTotal > 0 && ModeOf(l) in caps.modes)
  {
    hide Fps, ModeOf, VicToMode, TimingOf;
    VicIsItsTiming(vic);
  }

  /** A descriptor has the lines of one field, so the timing filter looks for another mode than the VIC filter:
      on a driver that lists an interlaced mode the VIC stays, and the same timing as a descriptor goes. */
  lemma InterlacedDescriptorGoes(caps: TxCaps, vic: int)
    requires vic in {5, 20} && caps.modes == [VicToMode(vic).value]
    ensures caps.SupportsVic(vic) && TimingOf(vic).Some? && Encodable(TimingOf(vic).value)
    ensures FilterSlot(Descriptor(TimingOf(vic).value), caps) == Zeros(18)
  {
    hide ToMode, Encode, Fps, Descriptor, Zeros;
    ListedRates();
    DescriptorMode(TimingOf(vic).value);
  }

  /** A timing that fits a descriptor is kept as one exactly where the driver lists the mode of its VIC, if and
      only if it is progressive. */
  lemma FiltersAgreeIff(vic: int)
    requires TimingOf(vic).Some? && Encodable(TimingOf(vic).value)
    ensures (forall caps: TxCaps ::
               FilterSlot(Descriptor(TimingOf(vic).value), caps) == Descriptor(TimingOf(vic).value)
               <==> caps.SupportsMode(VicToMode(vic).value))
       <==> !TimingOf(vic).value.interlaced
  {
    hide ToMode, Encode, Fps, Descriptor, Zeros;
    var l := TimingOf(vic).value;
    VicIsItsTiming(vic);
    DescriptorMode(l);
    NoDescriptorIsZero(l);
    if l.interlaced {
      var caps := TxCaps({}, [VicToMode(vic).value]);
      InterlacedDescriptorGoes(caps, vic);
      assert caps.SupportsMode(VicToMode(vic).value);
    }
  }

  lemma NoDescriptorIsZero(l: Listed)
    requires Encodable(l)
    ensures Descriptor(l) != Zeros(18)
  {
    var d := Descriptor(l);
    assert Word(d[0], d[1]) == l.clock;
    assert Zeros(18)[0] == 0 && Zeros(18)[1] == 0;
  }

  // ----- The tables of the patcher -----

  /** The rates of the patcher's timings, worked out. */
  lemma AddedRates()
    ensures Fps(57104, 2720, 1458) == 144 && Fps(49775, 2720, 1525) == 120 && Fps(24150, 2720, 1481) == 60
    ensures Fps(35640, 2200, 1125) == 144 && Fps(59400, 2200, 1125) == 240 && Fps(31975, 3600, 1489) == 60
  {
  }

  /** The timings the patch adds are the modes their names in the source say. */
  lemma AddedModes()
    ensures |BASE_MODES| == 3 && |NEW_MODES| == 6
    ensures ToMode(Encode(BASE_MODES[0])) == Some(Mode(2560, 1440, 144, false))
    ensures ToMode(Encode(BASE_MODES[1])) == Some(Mode(2560, 1440, 120, false))
    ensures ToMode(Encode(BASE_MODES[2])) == Some(Mode(2560, 1440, 60, false))
    ensures ToMode(Encode(NEW_MODES[0])) == Some(Mode(2560, 1440, 120, false))
    ensures ToMode(Encode(NEW_MODES[1])) == Some(Mode(2560, 1440, 60, false))
    ensures ToMode(Encode(NEW_MODES[2])) == Some(Mode(1920, 1080, 144, false))
    ensures ToMode(Encode(NEW_MODES[3])) == Some(Mode(1920, 1080, 240, false))
    ensures ToMode(Encode(NEW_MODES[4])) == Some(Mode(3440, 1440, 60, false))
    ensures ToMode(Encode(NEW_MODES[5])) == Some(Mode(2560, 1440, 144, false))
  {
    hide ToMode, Encode, Fps;
    AddedRates();
    WriteThenRead(Wide(57104, 18));
    WriteThenRead(Wide(49775, 85));
    WriteThenRead(Wide(24150, 41));
    WriteThenRead(FullHd(35640));
    WriteThenRead(FullHd(59400));
    WriteThenRead(NEW_MODES[4]);
  }

  // ----- Where the bytes lie -----

  /** The descriptor of 1920x1080p60 (VIC 16), as EDIDs carry it. */
  lemma FullHdBytes()
    ensures Encode(Timings(14850, 1920, 280, 88, 44, 1080, 45, 4, 5, 1600, 900, 0x1E))
         == [0x02, 0x3A, 0x80, 0x18, 0x71, 0x38, 0x2D, 0x40, 0x58, 0x2C, 0x45, 0x00, 0x40, 0x84, 0x63, 0x00, 0x00, 0x1E]
  {
  }

  /** Every field with digits of its own, so that each shows where its high bits lie. */
  lemma HighBits()
    ensures Encode(Timings(0xABCD, 0x123, 0x456, 0x1EF, 0x2DA, 0x789, 0xABC, 0x3E, 0x07, 0x321, 0x654, 0x9A))
         == [0xCD, 0xAB, 0x23, 0x56, 0x14, 0x89, 0xBC, 0x7A, 0xEF, 0xDA, 0xE7, 0x6C, 0x21, 0x54, 0x36, 0x00, 0x00, 0x9A]
  {
  }
}
