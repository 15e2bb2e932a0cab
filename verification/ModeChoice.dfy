/** The TX mode of the streambox UI: fallback choice among the sink's modes, and mode names. */
module ModeChoice {
  import opened Arith
  import opened Bytes
  import opened Timing

  const FITS: int := 1000000000
  const SAME_FPS: int := 2000000000
  const LOWER_FPS: int := 500000000

  function Pixels(m: Mode): int {
    m.width * m.height
  }

  predicate Fits(m: Mode, width: int, height: int) {
    m.width <= width && m.height <= height
  }

  /** The weighted score of the fallback loop. */
  function Score(m: Mode, width: int, height: int, fps: int): int {
    Pixels(m)
    + (if Fits(m, width, height) then FITS else 0)
    + if m.fps == fps then SAME_FPS else if m.fps < fps then LOWER_FPS else 0
  }

  /** What the weights stand for: first the wanted rate, then fitting the wanted size, then a lower rate,
      then more pixels. */
  predicate Worse(a: Mode, b: Mode, width: int, height: int, fps: int) {
    var aSame, bSame := a.fps == fps, b.fps == fps;
    var aFits, bFits := Fits(a, width, height), Fits(b, width, height);
    var aLower, bLower := a.fps < fps, b.fps < fps;
    if aSame != bSame then bSame
    else if aFits != bFits then bFits
    else if aLower != bLower then bLower
    else Pixels(a) < Pixels(b)
  }

  /** Positive dimensions and at most n pixels. */
  predicate UpTo(m: Mode, n: int) {
    m.width > 0 && m.height > 0 && Pixels(m) <= n
  }

  /** No more pixels than the smallest weight. */
  predicate Sane(m: Mode) {
    UpTo(m, LOWER_FPS)
  }

  /** The score orders sane modes exactly as the four criteria do, one after the other. */
  lemma ScoreIsLexicographic(a: Mode, b: Mode, width: int, height: int, fps: int)
    requires Sane(a) && Sane(b)
    ensures Score(a, width, height, fps) < Score(b, width, height, fps) <==> Worse(a, b, width, height, fps)
  {
    ProductPositive(a.width, a.height);
    ProductPositive(b.width, b.height);
  }

  predicate IsExact(m: Mode, width: int, height: int, fps: int) {
    m == Mode(width, height, fps, false)
  }

  /** The first index of the best progressive mode by the four criteria. */
  predicate IsBest(modes: seq<Mode>, best: int, width: int, height: int, fps: int) {
    && 0 <= best < |modes| && !modes[best].interlaced
    && (forall i :: 0 <= i < |modes| && !modes[i].interlaced ==> !Worse(modes[best], modes[i], width, height, fps))
    && (forall i :: 0 <= i < best && !modes[i].interlaced ==> Worse(modes[i], modes[best], width, height, fps))
  }

  predicate AllSane(modes: seq<Mode>) {
    forall i :: 0 <= i < |modes| ==> Sane(modes[i])
  }

  /** The first index of the highest non-negative score among the progressive modes. */
  predicate IsTop(modes: seq<Mode>, best: int, width: int, height: int, fps: int) {
    && 0 <= best < |modes| && !modes[best].interlaced && Score(modes[best], width, height, fps) >= 0
    && (forall i :: 0 <= i < |modes| && !modes[i].interlaced ==>
          Score(modes[i], width, height, fps) <= Score(modes[best], width, height, fps))
    && (forall i :: 0 <= i < best && !modes[i].interlaced ==>
          Score(modes[i], width, height, fps) < Score(modes[best], width, height, fps))
  }

  /** The scoring loop, for arbitrary modes. */
  method ScoreModes(modes: seq<Mode>, width: int, height: int, fps: int) returns (best: int)
    ensures best == -1
      <==> forall i :: 0 <= i < |modes| && !modes[i].interlaced ==> Score(modes[i], width, height, fps) < 0
    ensures best != -1 ==> IsTop(modes, best, width, height, fps)
  {
    best := -1;
    var bestScore := -1;
    for i := 0 to |modes|
      invariant best == -1 ==> bestScore == -1
      invariant best != -1 ==>
        0 <= best < i && !modes[best].interlaced && bestScore == Score(modes[best], width, height, fps) >= 0
      invariant forall j :: 0 <= j < i && !modes[j].interlaced ==> Score(modes[j], width, height, fps) <= bestScore
      invariant forall j :: 0 <= j < best && !modes[j].interlaced ==> Score(modes[j], width, height, fps) < bestScore
    {
      if modes[i].interlaced {
        continue;
      }
      var pixels := modes[i].width * modes[i].height;
      var score := pixels;
      if modes[i].width <= width && modes[i].height <= height {
        score := score + 1000000000;
      }
      if modes[i].fps == fps {
        score := score + 2000000000;
      } else if modes[i].fps < fps {
        score := score + 500000000;
      }
      if score > bestScore {
        bestScore := score;
        best := i;
      }
    }
  }

  /** On sane modes the highest score is the lexicographic maximum of the four criteria. */
  lemma TopIsBest(modes: seq<Mode>, best: int, width: int, height: int, fps: int)
    requires AllSane(modes) && IsTop(modes, best, width, height, fps)
    ensures IsBest(modes, best, width, height, fps)
  {
    hide Score, Worse, Sane;
    forall i | 0 <= i < |modes| && !modes[i].interlaced
      ensures !Worse(modes[best], modes[i], width, height, fps)
      ensures i < best ==> Worse(modes[i], modes[best], width, height, fps)
    {
      ScoreIsLexicographic(modes[best], modes[i], width, height, fps);
      ScoreIsLexicographic(modes[i], modes[best], width, height, fps);
    }
  }

  /** No overflow of a 64-bit long for 32-bit sizes. */
  lemma ScoreFitsLong(m: Mode, width: int, height: int, fps: int)
    requires -0x8000_0000 <= m.width < 0x8000_0000 && -0x8000_0000 <= m.height < 0x8000_0000
    ensures -0x8000_0000_0000_0000 <= Score(m, width, height, fps) < 0x8000_0000_0000_0000
  {
    ProductBound(m.width, m.height, 0x8000_0000);
  }

  lemma ProductBound(x: int, y: int, m: int)
    requires m >= 0 && -m <= x <= m && -m <= y <= m
    ensures -(m * m) <= x * y <= m * m
  {
    var ax, ay := if x < 0 then -x else x, if y < 0 then -y else y;
    ProductMonotone(ax, m, ay);
    ProductMonotone(ay, m, m);
    assert x * y == ax * ay || x * y == -(ax * ay);
  }

  lemma ProductSqueeze(x: int, y: int, w: int, h: int)
    requires 0 < x <= w && 0 < y <= h && x * y >= w * h
    ensures x == w && y == h
  {
    ProductMonotone(y, h, x);
    assert x * y <= x * h;
    if x < w {
      ProductMonotone(x + 1, w, h);
      Distribute(x, 1, h);
    } else if y < h {
      ProductMonotone(y + 1, h, x);
      Distribute(y, 1, x);
    }
  }

  lemma ExactAgainst(m: Mode, width: int, height: int, fps: int)
    requires Sane(m) && Sane(Mode(width, height, fps, false)) && !m.interlaced
    ensures var exact := Mode(width, height, fps, false);
      !Worse(exact, m, width, height, fps) && (m != exact ==> Worse(m, exact, width, height, fps))
  {
    if m.fps == fps && Fits(m, width, height) {
      ProductMonotone(m.height, height, m.width);
      ProductMonotone(m.width, width, height);
      if Pixels(m) >= width * height {
        ProductSqueeze(m.width, m.height, width, height);
      }
    }
  }

  /** The first listing of the wanted mode is the best mode: the exact-match loop in front of the scoring
      loop returns what the scoring loop alone would. */
  lemma ExactIsBest(modes: seq<Mode>, k: int, width: int, height: int, fps: int)
    requires AllSane(modes)
    requires 0 <= k < |modes| && IsExact(modes[k], width, height, fps)
    requires forall i :: 0 <= i < k ==> !IsExact(modes[i], width, height, fps)
    ensures IsBest(modes, k, width, height, fps)
  {
    hide Sane, Worse;
    forall i | 0 <= i < |modes| && !modes[i].interlaced
      ensures !Worse(modes[k], modes[i], width, height, fps)
      ensures i < k ==> Worse(modes[i], modes[k], width, height, fps)
    {
      ExactAgainst(modes[i], width, height, fps);
    }
  }

  /** There is only one best index. */
  lemma BestIsUnique(modes: seq<Mode>, a: int, b: int, width: int, height: int, fps: int)
    requires IsBest(modes, a, width, height, fps) && IsBest(modes, b, width, height, fps)
    ensures a == b
  {
    hide Worse;
    assert !Worse(modes[a], modes[b], width, height, fps) && !Worse(modes[b], modes[a], width, height, fps);
  }

  /** The two loops: the first exact match, or else the top score. On sane modes both are the one best index. */
  method ChooseMode(modes: seq<Mode>, width: int, height: int, fps: int) returns (chosen: Option<int>)
    ensures chosen.None? ==>
      forall i :: 0 <= i < |modes| && !modes[i].interlaced ==> Score(modes[i], width, height, fps) < 0
    ensures chosen.Some? ==> 0 <= chosen.value < |modes|
    ensures chosen.Some? ==>
      || IsTop(modes, chosen.value, width, height, fps)
      || IsExact(modes[chosen.value], width, height, fps)
    ensures AllSane(modes) ==>
      if chosen.Some? then IsBest(modes, chosen.value, width, height, fps)
      else forall i :: 0 <= i < |modes| ==> modes[i].interlaced
  {
    hide Score, Worse, IsBest, IsTop;
    if AllSane(modes) {
      SaneScores(modes, width, height, fps);
    }
    if |modes| <= 0 {
      return None;
    }
    for i := 0 to |modes|
      invariant forall j :: 0 <= j < i ==> !IsExact(modes[j], width, height, fps)
    {
      if !modes[i].interlaced && modes[i].width == width && modes[i].height == height && modes[i].fps == fps {
        if AllSane(modes) {
          ExactIsBest(modes, i, width, height, fps);
        }
        return Some(i);
      }
    }
    var best := ScoreModes(modes, width, height, fps);
    if best < 0 {
      return None;
    }
    if AllSane(modes) {
      TopIsBest(modes, best, width, height, fps);
    }
    return Some(best);
  }

  /** What snprintf leaves of a name in a buffer of `size` characters. */
  function Copied(name: string, size: nat): (r: string)
    requires size > 0
    ensures r <= name && |r| < size && (|name| < size ==> r == name)
  {
    if |name| < size then name else name[..size - 1]
  }

  /** SelectSupportedHdmitxMode on the modes listed, with their names; modeStr is the caller's buffer. The
      requested mode stays if no listed one is chosen. */
  method SelectSupportedHdmitxMode(modes: seq<Mode>, names: seq<string>, width: int, height: int, fps: int,
                                   modeStr: Option<string>, size: nat)
    returns (ret: int, newStr: Option<string>, ghost chosen: Option<int>)
    requires |names| == |modes|
    ensures ret == if modeStr.None? || size == 0 then -1 else 0
    ensures modeStr.None? || size == 0 || chosen.None? ==> newStr == modeStr
    ensures ret == 0 && chosen.Some? ==>
      0 <= chosen.value < |modes| && newStr == Some(Copied(names[chosen.value], size))
    ensures ret == 0 && chosen.None? ==>
      forall i :: 0 <= i < |modes| && !modes[i].interlaced ==> Score(modes[i], width, height, fps) < 0
    ensures ret == 0 && chosen.Some? ==>
      IsTop(modes, chosen.value, width, height, fps) || IsExact(modes[chosen.value], width, height, fps)
    ensures ret == 0 && AllSane(modes) ==>
      if chosen.Some? then IsBest(modes, chosen.value, width, height, fps)
      else forall i :: 0 <= i < |modes| ==> modes[i].interlaced
  {
    hide Score, Worse, IsBest, IsTop;
    if modeStr.None? || size == 0 {
      return -1, modeStr, None;
    }
    var best := ChooseMode(modes, width, height, fps);
    if best.None? {
      return 0, modeStr, None;
    }
    return 0, Some(Copied(names[best.value], size)), best;
  }

  lemma SaneScores(modes: seq<Mode>, width: int, height: int, fps: int)
    requires AllSane(modes)
    ensures forall i :: 0 <= i < |modes| ==> Score(modes[i], width, height, fps) >= 0
  {
    forall i | 0 <= i < |modes| ensures Score(modes[i], width, height, fps) >= 0 {
      ProductPositive(modes[i].width, modes[i].height);
    }
  }

  /** The score orders modes of up to n pixels as the criteria do. */
  ghost predicate OrderHolds(n: int) {
    forall a, b, width, height, fps :: UpTo(a, n) && UpTo(b, n) ==>
      (Score(a, width, height, fps) < Score(b, width, height, fps) <==> Worse(a, b, width, height, fps))
  }

  /** The score puts the criteria in order if and only if no mode has more than 500 million pixels: with one
      pixel more, a mode that is too fast ties with a slower one of a single pixel. */
  lemma OrderHoldsUpTo(n: int)
    ensures OrderHolds(n) <==> n <= 500000000
  {
    if n <= 500000000 {
      forall a, b, width, height, fps | UpTo(a, n) && UpTo(b, n)
        ensures Score(a, width, height, fps) < Score(b, width, height, fps) <==> Worse(a, b, width, height, fps)
      {
        ScoreIsLexicographic(a, b, width, height, fps);
      }
    } else {
      var a, b := Mode(500000001, 1, 61, false), Mode(1, 1, 50, false);
      assert UpTo(a, n) && UpTo(b, n);
      assert Worse(a, b, 500000001, 1, 60) && Score(a, 500000001, 1, 60) == Score(b, 500000001, 1, 60);
    }
  }

  // ----- The rate in a mode name -----

  /** The rounding written twice in the source: in FormatHdmitxMode and in SynchronizeHdmitxToHdmirx. */
  function RoundFps(fps: nat, fineTune: bool): nat {
    if fineTune then
      if 59 <= fps <= 60 then 60
      else if 29 <= fps <= 30 then 30
      else if 23 <= fps <= 24 then 24
      else if 119 <= fps <= 120 then 120
      else if 143 <= fps <= 144 then 144
      else if 239 <= fps <= 240 then 240
      else
        var rounded := (fps + 1) / 2 * 2;
        if rounded < fps then fps else rounded
    else if 50 <= fps < 60 then 60
    else if 100 <= fps < 120 then 120
    else if 130 <= fps < 144 then 144
    else if 200 <= fps < 240 then 240
    else if 24 <= fps < 30 then 30
    else fps
  }

  /** Rounding never lowers a rate, keeps the order of rates, and has nothing to do on a rounded rate. */
  lemma RoundFpsIsClosure(fps: nat, other: nat, fineTune: bool)
    ensures RoundFps(fps, fineTune) >= fps
    ensures fps <= other ==> RoundFps(fps, fineTune) <= RoundFps(other, fineTune)
    ensures RoundFps(RoundFps(fps, fineTune), fineTune) == RoundFps(fps, fineTune)
  {
  }

  /** With fine tuning the rate is the even one of the rate and the next. Without, it is one of five common
      rates from a little below on, and otherwise itself. */
  lemma RoundedRate(fps: nat, fineTune: bool)
    ensures var r := RoundFps(fps, fineTune);
      if fineTune then r % 2 == 0 && fps <= r <= fps + 1
      else if 24 <= fps <= 29 then r == 30
      else if 50 <= fps <= 59 then r == 60
      else if 100 <= fps <= 119 then r == 120
      else if 130 <= fps <= 143 then r == 144
      else if 200 <= fps <= 239 then r == 240
      else r == fps
  {
  }

  // ----- Mode names -----

  predicate IsDigit(c: char) {
    '0' <= c <= '9'
  }

  function DigitValue(c: char): nat
    requires IsDigit(c)
  {
    c as int - '0' as int
  }

  /** printf's %d on a non-negative number. */
  function Decimal(n: nat): (s: string)
    ensures |s| > 0 && forall i :: 0 <= i < |s| ==> IsDigit(s[i])
  {
    var last := ['0' + (n % 10) as char];
    if n < 10 then last else Decimal(n / 10) + last
  }

  function DecimalValue(s: string): nat
    requires forall i :: 0 <= i < |s| ==> IsDigit(s[i])
  {
    if s == [] then 0 else 10 * DecimalValue(s[..|s| - 1]) + DigitValue(s[|s| - 1])
  }

  lemma {:induction false} DecimalRoundTrip(n: nat)
    ensures DecimalValue(Decimal(n)) == n
  {
    var s := Decimal(n);
    if n >= 10 {
      DecimalRoundTrip(n / 10);
      assert s[..|s| - 1] == Decimal(n / 10);
    }
  }

  /** How many digits s starts with. */
  function DigitRun(s: string): (k: nat)
    ensures k <= |s| && (forall i :: 0 <= i < k ==> IsDigit(s[i])) && (k < |s| ==> !IsDigit(s[k]))
  {
    if s == [] || !IsDigit(s[0]) then 0 else 1 + DigitRun(s[1..])
  }

  /** scanf's %d: white space, a sign, then as many digits as there are; the rest of the text stays. */
  function ScanInt(s: string): Option<(int, string)>
    decreases |s|
  {
    if s != [] && s[0] in " \t\n\r" then ScanInt(s[1..])
    else
      var signed := s != [] && (s[0] == '-' || s[0] == '+');
      var t := if signed then s[1..] else s;
      var k := DigitRun(t);
      if k == 0 then None
      else
        var n: int := DecimalValue(t[..k]);
        Some((if signed && s[0] == '-' then -n else n, t[k..]))
  }

  /** The size of a mode named by its height alone. */
  function WidthOf(height: int): Option<int> {
    match height
    case 2160 => Some(3840)
    case 1080 => Some(1920)
    case 720 => Some(1280)
    case 576 => Some(720)
    case 480 => Some(720)
    case _ => None
  }

  /** sscanf of "%d%c%d": None unless all three convert. */
  function ScanRest(s: string): Option<(int, char, int)> {
    match ScanInt(s)
    case None => None
    case Some(h) =>
      if h.1 == [] then None
      else
        match ScanInt(h.1[1..])
        case None => None
        case Some(f) => Some((h.0, h.1[0], f.0))
  }

  /** ParseHdmitxModeName: width x height, scan and rate; or height, scan and rate. */
  function ParseModeName(s: string): Option<Mode> {
    var w := ScanInt(s);
    var long := if w.Some? && w.value.1 != [] && w.value.1[0] == 'x' then ScanRest(w.value.1[1..]) else None;
    match long
    case Some((height, scan, fps)) => Some(Mode(w.value.0, height, fps, scan == 'i' || scan == 'I'))
    case None =>
      match ScanRest(s)
      case Some((height, scan, fps)) =>
        if WidthOf(height).None? then None
        else Some(Mode(WidthOf(height).value, height, fps, scan == 'i' || scan == 'I'))
      case None => None
  }

  /** FormatHdmitxMode's text before snprintf cuts it to the buffer. */
  function FormatMode(width: nat, height: nat, fps: nat, fineTune: bool): string {
    Decimal(width) + "x" + Decimal(height) + "p" + Decimal(RoundFps(fps, fineTune)) + "hz"
  }

  lemma {:induction false} DigitRunOf(ds: string, rest: string)
    requires forall i :: 0 <= i < |ds| ==> IsDigit(ds[i])
    requires rest == [] || !IsDigit(rest[0])
    ensures DigitRun(ds + rest) == |ds|
  {
    if ds == [] {
      assert ds + rest == rest;
    } else {
      DigitRunOf(ds[1..], rest);
      assert (ds + rest)[1..] == ds[1..] + rest;
    }
  }

  /** A printed number scans back, and the text behind it stays. */
  lemma ScanDecimal(n: nat, rest: string)
    requires rest == [] || !IsDigit(rest[0])
    ensures ScanInt(Decimal(n) + rest) == Some((n as int, rest))
  {
    var ds := Decimal(n);
    var s := ds + rest;
    assert s[0] == ds[0] && IsDigit(s[0]);
    DigitRunOf(ds, rest);
    assert s[..|ds|] == ds && s[|ds|..] == rest;
    DecimalRoundTrip(n);
  }

  /** A formatted mode parses back: width, height, progressive scan, and the rounded rate. */
  lemma ModeNameRoundTrip(width: nat, height: nat, fps: nat, fineTune: bool)
    ensures ParseModeName(FormatMode(width, height, fps, fineTune))
         == Some(Mode(width, height, RoundFps(fps, fineTune), false))
  {
    hide Decimal, ScanInt, RoundFps;
    var rate := RoundFps(fps, fineTune);
    var r3 := Decimal(rate) + "hz";
    var r2 := Decimal(height) + ("p" + r3);
    ScanDecimal(rate, "hz");
    ScanDecimal(height, "p" + r3);
    ScanDecimal(width, "x" + r2);
    assert ("p" + r3)[1..] == r3 && ("x" + r2)[1..] == r2;
    assert FormatMode(width, height, fps, fineTune) == Decimal(width) + ("x" + r2);
  }

  lemma {:induction false} DecimalLength(n: nat, k: nat)
    requires k > 0 && n < Power10(k)
    ensures |Decimal(n)| <= k
    decreases k
  {
    if n >= 10 {
      DecimalLength(n / 10, k - 1);
    }
  }

  function Power10(k: nat): nat {
    if k == 0 then 1 else 10 * Power10(k - 1)
  }

  /** For 32-bit arguments the name fits the 64-byte buffer, so snprintf cuts nothing off. */
  lemma ModeNameFits(width: nat, height: nat, fps: nat, fineTune: bool)
    requires width < 0x8000_0000 && height < 0x8000_0000 && fps + 1 < 0x8000_0000
    ensures |FormatMode(width, height, fps, fineTune)| < 64
  {
    TenDigits();
    DecimalLength(width, 10);
    DecimalLength(height, 10);
    DecimalLength(RoundFps(fps, fineTune), 10);
  }

  lemma TenDigits()
    ensures Power10(10) == 10000000000
  {
    assert Power10(2) == 100;
    assert Power10(4) == 10000;
    assert Power10(6) == 1000000;
    assert Power10(8) == 100000000;
  }

  // ----- Names the formatter does not write -----

  /** A text of height, scan and rate scans as these, whatever character says the scan. */
  lemma ScanRestOf(height: nat, scan: char, fps: nat)
    requires !IsDigit(scan)
    ensures ScanRest(Decimal(height) + ([scan] + (Decimal(fps) + "hz"))) == Some((height as int, scan, fps as int))
  {
    hide Decimal, ScanInt;
    var back := Decimal(fps) + "hz";
    ScanDecimal(height, [scan] + back);
    ScanDecimal(fps, "hz");
    assert ([scan] + back)[1..] == back;
  }

  /** Names with both dimensions: the scan is interlaced for an i, of either case, and progressive for any
      other character. */
  lemma LongName(width: nat, height: nat, scan: char, fps: nat)
    requires !IsDigit(scan)
    ensures ParseModeName(Decimal(width) + ("x" + (Decimal(height) + ([scan] + (Decimal(fps) + "hz")))))
         == Some(Mode(width, height, fps, scan in {'i', 'I'}))
  {
    hide Decimal, ScanInt, ScanRest;
    var rest := Decimal(height) + ([scan] + (Decimal(fps) + "hz"));
    ScanDecimal(width, "x" + rest);
    assert ("x" + rest)[1..] == rest;
    ScanRestOf(height, scan, fps);
  }

  /** Names with the height alone stand for the widths of the five usual sizes, and for no mode otherwise. */
  lemma ShortName(height: nat, scan: char, fps: nat)
    requires !IsDigit(scan)
    ensures ParseModeName(Decimal(height) + ([scan] + (Decimal(fps) + "hz"))) ==
      if WidthOf(height).None? then None else Some(Mode(WidthOf(height).value, height, fps, scan in {'i', 'I'}))
  {
    hide Decimal, ScanInt, ScanRest, WidthOf;
    var back := Decimal(fps) + "hz";
    ScanRestOf(height, scan, fps);
    ScanDecimal(height, [scan] + back);
    assert ([scan] + back)[1..] == back;
    if scan == 'x' {
      NoSecondNumber(fps);
    }
  }

  /** Behind an x there would have to be another two numbers. */
  lemma NoSecondNumber(fps: nat)
    ensures ScanRest(Decimal(fps) + "hz").None?
  {
    hide Decimal;
    ScanDecimal(fps, "hz");
    assert "hz"[1..] == "z" && "z"[0] == 'z';
    assert DigitRun("z") == 0;
  }

  /** The width of a short name is that of the VIC with this height: 2, 17, 4, 16 and 97. */
  lemma ShortWidths(height: int)
    ensures WidthOf(height).Some? <==> height in {480, 576, 720, 1080, 2160}
    ensures forall vic :: vic in {2, 17, 4, 16, 97} ==>
      VicToMode(vic).Some? && WidthOf(VicToMode(vic).value.height) == Some(VicToMode(vic).value.width)
  {
  }

  /** One name, character by character. */
  lemma FormattedName()
    ensures FormatMode(1920, 1080, 59, true) == "1920x1080p60hz"
  {
    hide Decimal;
    Digits();
    NextDigit(19);
    NextDigit(192);
    NextDigit(1920);
    NextDigit(10);
    NextDigit(108);
    NextDigit(1080);
    NextDigit(60);
    assert Decimal(1920) == "1920" && Decimal(1080) == "1080" && Decimal(60) == "60";
  }

  lemma Digits()
    ensures Decimal(0) == "0" && Decimal(1) == "1" && Decimal(2) == "2" && Decimal(6) == "6"
    ensures Decimal(8) == "8" && Decimal(9) == "9"
  {
  }

  lemma NextDigit(n: nat)
    requires n >= 10
    ensures Decimal(n) == Decimal(n / 10) + Decimal(n % 10)
  {
  }
}
