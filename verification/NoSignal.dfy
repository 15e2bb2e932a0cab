/** The no-signal screen of streambox-tv: two boxes bouncing in an area, copied into framebuffer pages. */
module NoSignal {
  import opened Arith
  import opened Bytes

  // ----- The boxes, as values -----

  datatype Pose = Pose(x: int, y: int, w: int, h: int, dx: int, dy: int)

  /** Where boxes may be: left is 0 and top is below the screen's upper margin. */
  datatype Area = Area(left: int, top: int, right: int, bottom: int)

  predicate FitsIn(p: Pose, a: Area) {
    0 < p.w <= a.right - a.left && 0 < p.h <= a.bottom - a.top
  }

  predicate Inside(p: Pose, a: Area) {
    a.left <= p.x && p.x + p.w <= a.right && a.top <= p.y && p.y + p.h <= a.bottom
  }

  predicate Overlap(p: Pose, q: Pose) {
    !(p.x + p.w <= q.x || q.x + q.w <= p.x || p.y + p.h <= q.y || q.y + q.h <= p.y)
  }

  function Moved(p: Pose): Pose {
    p.(x := p.x + p.dx, y := p.y + p.dy)
  }

  /** Clamped to [low, high - size], with the speed turned away from the edge that was hit. */
  function ClampAxis(pos: int, size: int, speed: int, low: int, high: int): (int, int) {
    if pos < low then (low, Abs(speed))
    else if pos + size > high then (high - size, -Abs(speed))
    else (pos, speed)
  }

  function Clamped(p: Pose, a: Area): Pose {
    var h := ClampAxis(p.x, p.w, p.dx, a.left, a.right);
    var v := ClampAxis(p.y, p.h, p.dy, a.top, a.bottom);
    p.(x := h.0, dx := h.1, y := v.0, dy := v.1)
  }

  function Min(x: int, y: int): int {
    if x < y then x else y
  }

  function Max(x: int, y: int): int {
    if x > y then x else y
  }

  function OverlapX(p: Pose, q: Pose): int {
    Min(p.x + p.w, q.x + q.w) - Max(p.x, q.x)
  }

  function OverlapY(p: Pose, q: Pose): int {
    Min(p.y + p.h, q.y + q.h) - Max(p.y, q.y)
  }

  /** Overlapping boxes are pushed apart along the axis of the smaller overlap and swap that speed. */
  function Resolved(p: Pose, q: Pose): (Pose, Pose) {
    if !Overlap(p, q) then (p, q)
    else if OverlapX(p, q) <= OverlapY(p, q) then
      var k := OverlapX(p, q) / 2 + 1;
      var d := if p.x < q.x then k else -k;
      (p.(x := p.x - d, dx := q.dx), q.(x := q.x + d, dx := p.dx))
    else
      var k := OverlapY(p, q) / 2 + 1;
      var d := if p.y < q.y then k else -k;
      (p.(y := p.y - d, dy := q.dy), q.(y := q.y + d, dy := p.dy))
  }

  /** One frame of the animation. */
  function Frame(p: Pose, q: Pose, a: Area): (Pose, Pose) {
    var r := Resolved(Clamped(Moved(p), a), Clamped(Moved(q), a));
    (Clamped(r.0, a), Clamped(r.1, a))
  }

  function Frames(p: Pose, q: Pose, a: Area, n: nat): (Pose, Pose) {
    if n == 0 then (p, q)
    else
      var r := Frames(p, q, a, n - 1);
      Frame(r.0, r.1, a)
  }

  // ----- The boxes, as the source updates them -----

  class MovingBox {
    var x: int
    var y: int
    var w: int
    var h: int
    var dx: int
    var dy: int

    constructor (p: Pose)
      ensures At() == p
    {
      x, y, w, h, dx, dy := p.x, p.y, p.w, p.h, p.dx, p.dy;
    }

    function At(): Pose
      reads this
    {
      Pose(x, y, w, h, dx, dy)
    }

    method Move()
      modifies this
      ensures At() == Moved(old(At()))
    {
      x := x + dx;
      y := y + dy;
    }

    method ClampAndBounce(a: Area)
      modifies this
      ensures At() == Clamped(old(At()), a)
    {
      if x < a.left {
        x := a.left;
        dx := Abs(dx);
      } else if x + w > a.right {
        x := a.right - w;
        dx := -Abs(dx);
      }
      if y < a.top {
        y := a.top;
        dy := Abs(dy);
      } else if y + h > a.bottom {
        y := a.bottom - h;
        dy := -Abs(dy);
      }
    }
  }

  method ResolveBoxCollision(a: MovingBox, b: MovingBox)
    requires a != b
    modifies a, b
    ensures (a.At(), b.At()) == Resolved(old(a.At()), old(b.At()))
  {
    if !Overlap(a.At(), b.At()) {
      return;
    }
    var overlapX := Min(a.x + a.w, b.x + b.w) - Max(a.x, b.x);
    var overlapY := Min(a.y + a.h, b.y + b.h) - Max(a.y, b.y);
    if overlapX <= overlapY {
      if a.x < b.x {
        a.x := a.x - (overlapX / 2 + 1);
        b.x := b.x + (overlapX / 2 + 1);
      } else {
        a.x := a.x + (overlapX / 2 + 1);
        b.x := b.x - (overlapX / 2 + 1);
      }
      var tmp := a.dx;
      a.dx := b.dx;
      b.dx := tmp;
    } else {
      if a.y < b.y {
        a.y := a.y - (overlapY / 2 + 1);
        b.y := b.y + (overlapY / 2 + 1);
      } else {
        a.y := a.y + (overlapY / 2 + 1);
        b.y := b.y - (overlapY / 2 + 1);
      }
      var tmp := a.dy;
      a.dy := b.dy;
      b.dy := tmp;
    }
  }

  /** The body of the frame loop up to drawing. */
  method StepFrame(title: MovingBox, logo: MovingBox, a: Area)
    requires title != logo
    modifies title, logo
    ensures (title.At(), logo.At()) == Frame(old(title.At()), old(logo.At()), a)
  {
    hide Moved, Clamped, Resolved;
    title.Move();
    logo.Move();
    title.ClampAndBounce(a);
    logo.ClampAndBounce(a);
    ResolveBoxCollision(title, logo);
    title.ClampAndBounce(a);
    logo.ClampAndBounce(a);
  }

  // ----- What holds in every frame -----

  /** Sizes and the two multisets of speeds are as at the start. */
  predicate SameMotion(p: Pose, q: Pose, r: Pose, s: Pose) {
    && p.w == r.w && p.h == r.h && q.w == s.w && q.h == s.h
    && multiset{Abs(p.dx), Abs(q.dx)} == multiset{Abs(r.dx), Abs(s.dx)}
    && multiset{Abs(p.dy), Abs(q.dy)} == multiset{Abs(r.dy), Abs(s.dy)}
  }

  lemma ClampedMeaning(p: Pose, a: Area)
    ensures var r := Clamped(p, a);
      r.w == p.w && r.h == p.h && Abs(r.dx) == Abs(p.dx) && Abs(r.dy) == Abs(p.dy)
    ensures FitsIn(p, a) ==> Inside(Clamped(p, a), a)
    ensures Inside(p, a) ==> Clamped(p, a) == p
  {
  }

  lemma ResolvedMeaning(p: Pose, q: Pose)
    ensures SameMotion(p, q, Resolved(p, q).0, Resolved(p, q).1)
  {
  }

  /** Of two overlapping boxes each leaves with the other's signed speed on the axis of the smaller overlap and
      its own on the other axis. On that axis both move by the same distance, away from each other, and on the
      other axis not at all; boxes that do not overlap are left alone. */
  lemma ResolvedSpeeds(p: Pose, q: Pose)
    ensures var (a, b) := Resolved(p, q);
      if !Overlap(p, q) then a == p && b == q
      else if OverlapX(p, q) <= OverlapY(p, q) then
        && (a.dx, b.dx) == (q.dx, p.dx) && (a.dy, b.dy) == (p.dy, q.dy)
        && (a.y, b.y) == (p.y, q.y) && a.x + b.x == p.x + q.x
        && Abs(a.x - b.x) == Abs(p.x - q.x) + 2 * (OverlapX(p, q) / 2 + 1) && (a.x < b.x <==> p.x < q.x)
      else
        && (a.dy, b.dy) == (q.dy, p.dy) && (a.dx, b.dx) == (p.dx, q.dx)
        && (a.x, b.x) == (p.x, q.x) && a.y + b.y == p.y + q.y
        && Abs(a.y - b.y) == Abs(p.y - q.y) + 2 * (OverlapY(p, q) / 2 + 1) && (a.y < b.y <==> p.y < q.y)
  {
  }

  /** A box is moved by clamping only at an edge, and only as far as the edge; there its speed points back into
      the area, and elsewhere it is kept. */
  lemma ClampedTurns(p: Pose, a: Area)
    ensures var r := Clamped(p, a);
      && (p.x < a.left ==> r.x == a.left && r.dx >= 0)
      && (a.left <= p.x && p.x + p.w > a.right ==> r.x + r.w == a.right && r.dx <= 0)
      && (a.left <= p.x && p.x + p.w <= a.right ==> r.x == p.x && r.dx == p.dx)
      && (p.y < a.top ==> r.y == a.top && r.dy >= 0)
      && (a.top <= p.y && p.y + p.h > a.bottom ==> r.y + r.h == a.bottom && r.dy <= 0)
      && (a.top <= p.y && p.y + p.h <= a.bottom ==> r.y == p.y && r.dy == p.dy)
  {
  }

  /** In a frame in which neither an edge nor the other box is met, both boxes advance by exactly their speeds. */
  lemma FreeFrame(p: Pose, q: Pose, a: Area)
    requires Inside(Moved(p), a) && Inside(Moved(q), a) && !Overlap(Moved(p), Moved(q))
    ensures Frame(p, q, a) == (p.(x := p.x + p.dx, y := p.y + p.dy), q.(x := q.x + q.dx, y := q.y + q.dy))
  {
    hide Overlap;
    ClampedMeaning(Moved(p), a);
    ClampedMeaning(Moved(q), a);
  }

  /** In a frame in which only the other box is met, the boxes leave with their speeds exchanged on one axis. */
  lemma CollidingFrame(p: Pose, q: Pose, a: Area)
    requires Inside(Moved(p), a) && Inside(Moved(q), a) && Overlap(Moved(p), Moved(q))
    requires var r := Resolved(Moved(p), Moved(q)); Inside(r.0, a) && Inside(r.1, a)
    ensures var r, m, n := Frame(p, q, a), Moved(p), Moved(q);
      if OverlapX(m, n) <= OverlapY(m, n) then
        (r.0.dx, r.1.dx, r.0.dy, r.1.dy) == (q.dx, p.dx, p.dy, q.dy)
      else (r.0.dx, r.1.dx, r.0.dy, r.1.dy) == (p.dx, q.dx, q.dy, p.dy)
  {
    hide Overlap, OverlapX, OverlapY, Resolved, Inside, Clamped;
    var m, n := Moved(p), Moved(q);
    var r := Resolved(m, n);
    ClampedMeaning(m, a);
    ClampedMeaning(n, a);
    ClampedMeaning(r.0, a);
    ClampedMeaning(r.1, a);
    ResolvedSpeeds(m, n);
  }

  /** In a frame that ends with a box pushed over an edge, the box stops there with its speed pointing back. */
  lemma FrameTurns(p: Pose, q: Pose, a: Area, pushed: (Pose, Pose))
    requires pushed == Resolved(Clamped(Moved(p), a), Clamped(Moved(q), a))
    ensures var r := Frame(p, q, a);
      && (pushed.0.x < a.left ==> r.0.x == a.left && r.0.dx >= 0)
      && (a.left <= pushed.0.x && pushed.0.x + p.w > a.right ==> r.0.x + p.w == a.right && r.0.dx <= 0)
      && (pushed.0.y < a.top ==> r.0.y == a.top && r.0.dy >= 0)
      && (a.top <= pushed.0.y && pushed.0.y + p.h > a.bottom ==> r.0.y + p.h == a.bottom && r.0.dy <= 0)
      && (pushed.1.x < a.left ==> r.1.x == a.left && r.1.dx >= 0)
      && (a.left <= pushed.1.x && pushed.1.x + q.w > a.right ==> r.1.x + q.w == a.right && r.1.dx <= 0)
      && (pushed.1.y < a.top ==> r.1.y == a.top && r.1.dy >= 0)
      && (a.top <= pushed.1.y && pushed.1.y + q.h > a.bottom ==> r.1.y + q.h == a.bottom && r.1.dy <= 0)
  {
    hide Resolved, Clamped, Moved;
    SizesKept(p, q, a);
    ClampedTurns(pushed.0, a);
    ClampedTurns(pushed.1, a);
    ClampedMeaning(pushed.0, a);
    ClampedMeaning(pushed.1, a);
  }

  lemma SizesKept(p: Pose, q: Pose, a: Area)
    ensures var r := Resolved(Clamped(Moved(p), a), Clamped(Moved(q), a));
      (r.0.w, r.0.h, r.1.w, r.1.h) == (p.w, p.h, q.w, q.h)
  {
  }

  /** One frame: both boxes end inside, sizes stay, and each multiset of speeds stays. */
  lemma FrameMeaning(p: Pose, q: Pose, a: Area)
    requires FitsIn(p, a) && FitsIn(q, a)
    ensures var r := Frame(p, q, a);
      Inside(r.0, a) && Inside(r.1, a) && SameMotion(p, q, r.0, r.1)
  {
    hide Clamped, Resolved, Inside;
    var p1, q1 := Clamped(Moved(p), a), Clamped(Moved(q), a);
    ClampedMeaning(Moved(p), a);
    ClampedMeaning(Moved(q), a);
    ResolvedMeaning(p1, q1);
    var r := Resolved(p1, q1);
    ClampedMeaning(r.0, a);
    ClampedMeaning(r.1, a);
  }

  /** Unboundedly many frames. */
  lemma {:induction false} FramesMeaning(p: Pose, q: Pose, a: Area, n: nat)
    requires FitsIn(p, a) && FitsIn(q, a)
    ensures var r := Frames(p, q, a, n);
      && SameMotion(p, q, r.0, r.1)
      && (n > 0 ==> Inside(r.0, a) && Inside(r.1, a))
  {
    hide Frame, Inside;
    if n > 0 {
      FramesMeaning(p, q, a, n - 1);
      var r := Frames(p, q, a, n - 1);
      FrameMeaning(r.0, r.1, a);
    }
  }

  /** How far q's far edge is behind p's near edge along the chosen axis: the push that would separate them. */
  function Depth(p: Pose, q: Pose): int {
    if OverlapX(p, q) <= OverlapY(p, q) then
      if p.x < q.x then p.x + p.w - q.x else q.x + q.w - p.x
    else
      if p.y < q.y then p.y + p.h - q.y else q.y + q.h - p.y
  }

  /** Resolving separates overlapping boxes unless one is nested too deep in the other on the chosen axis. */
  lemma ResolvedStillOverlaps(p: Pose, q: Pose)
    requires p.w > 0 && p.h > 0 && q.w > 0 && q.h > 0 && Overlap(p, q)
    ensures var r := Resolved(p, q);
      var k := Min(OverlapX(p, q), OverlapY(p, q)) / 2 + 1;
      Overlap(r.0, r.1) <==> Depth(p, q) > 2 * k
  {
  }

  /** A small box deep inside a big one still overlaps it after the push. */
  lemma NestedBoxesStillOverlap()
    ensures var p, q := Pose(0, 0, 100, 100, 1, 1), Pose(40, 40, 10, 10, -1, 1);
      Overlap(p, q) && Overlap(Resolved(p, q).0, Resolved(p, q).1)
  {
  }

  // ----- The framebuffer -----

  datatype Framebuffer = Framebuffer(
    width: int, height: int, stride: int, bytesPerPixel: int, mapSize: int, pageCount: int)

  /** What the driver reports of the screen. */
  datatype Screen = Screen(
    width: nat, height: nat, virtualHeight: nat, lineLength: nat, bitsPerPixel: nat, memory: nat)

  function PageCount(s: Screen): nat
    requires s.height > 0
  {
    if s.virtualHeight / s.height < 1 then 1 else s.virtualHeight / s.height
  }

  /** OpenNoSignalFramebuffer: one page is mapped, whatever the page count. Sizes are size_t there. */
  function Open(s: Screen): Framebuffer
    requires s.height > 0
  {
    var size := s.lineLength * s.height;
    if size > s.memory then Framebuffer(s.width, s.height, s.lineLength, s.bitsPerPixel / 8, s.memory, 1)
    else Framebuffer(s.width, s.height, s.lineLength, s.bitsPerPixel / 8, size, PageCount(s))
  }

  /** RemapNoSignalFramebuffer up to mmap; None stands for its return value -1. */
  function Remap(s: Screen): Option<Framebuffer>
    requires s.height > 0
  {
    var size := s.lineLength * s.virtualHeight;
    if size > s.memory then
      if s.lineLength * s.height > s.memory then None
      else Some(Framebuffer(s.width, s.height, s.lineLength, s.bitsPerPixel / 8, s.lineLength * s.height, 1))
    else Some(Framebuffer(s.width, s.height, s.lineLength, s.bitsPerPixel / 8, size, PageCount(s)))
  }

  /** How the resize went: the driver refused it, or reported a new screen, for which mmap then worked or not. */
  datatype Resize = Refused | Resized(screen: Screen, mapped: bool)

  /** The framebuffer the frame loop draws on. A refused resize leaves the one that was opened. A remap that
      fails has given up the old mapping already; then nothing is mapped, and the loop is entered all the same. */
  function Drawn(first: Screen, r: Resize): Framebuffer
    requires first.height > 0 && (r.Resized? ==> r.screen.height > 0)
  {
    match r
    case Refused => Open(first)
    case Resized(s, mapped) =>
      var fb := Remap(s);
      if fb.Some? && mapped then fb.value
      else if fb.Some? then fb.value.(mapSize := 0)
      else Framebuffer(s.width, s.height, s.lineLength, s.bitsPerPixel / 8, 0, 1)
  }

  /** Byte offset of a page in the mapping. */
  function PageStart(fb: Framebuffer, page: int): int {
    if page < 0 || page >= fb.pageCount then 0 else page * fb.stride * fb.height
  }

  /** Every byte of every page lies in the mapping. */
  predicate PagesFit(fb: Framebuffer) {
    forall page :: 0 <= page < fb.pageCount ==> PageStart(fb, page) + fb.stride * fb.height <= fb.mapSize
  }

  /** After a successful remap all pages fit the mapping iff the virtual height is not below the visible one,
      or the mapping was cut to one page, or lines are empty. */
  lemma RemapFits(s: Screen)
    requires s.height > 0 && Remap(s).Some?
    ensures PagesFit(Remap(s).value)
       <==> s.virtualHeight >= s.height || s.lineLength * s.virtualHeight > s.memory || s.lineLength == 0
  {
    var fb := Remap(s).value;
    if s.lineLength * s.virtualHeight > s.memory {
      assert PagesFit(fb);
    } else if s.virtualHeight >= s.height {
      PagesInVirtual(s.height, s.virtualHeight, s.lineLength, fb);
    } else {
      assert fb.pageCount == 1 && PageStart(fb, 0) == 0;
      LineLess(s.virtualHeight, s.height, s.lineLength);
    }
  }

  /** The mapping made on opening holds all pages iff there is memory for one, and there is only one or lines
      are empty. */
  lemma OpenFits(s: Screen)
    requires s.height > 0
    ensures PagesFit(Open(s))
       <==> s.lineLength * s.height <= s.memory && (s.virtualHeight < 2 * s.height || s.lineLength == 0)
  {
    var fb := Open(s);
    TwoPages(s.virtualHeight, s.height);
    if s.lineLength * s.height > s.memory {
      OnePageFits(fb);
    } else if s.virtualHeight < 2 * s.height {
      OnePageFits(fb);
    } else {
      ProductNonNegative(s.lineLength, s.height);
      SecondPageFits(fb, s.lineLength * s.height);
    }
  }

  lemma OnePageFits(fb: Framebuffer)
    requires fb.pageCount == 1
    ensures PagesFit(fb) <==> fb.stride * fb.height <= fb.mapSize
  {
    assert PageStart(fb, 0) == 0;
  }

  /** With a mapping of one page there is no second one, unless lines are empty. */
  lemma SecondPageFits(fb: Framebuffer, page: nat)
    requires fb.pageCount >= 2 && fb.stride >= 0 && fb.height > 0 && page == fb.stride * fb.height == fb.mapSize
    ensures PagesFit(fb) <==> fb.stride == 0
  {
    assert PageStart(fb, 1) == page;
    if fb.stride > 0 {
      ProductPositive(fb.stride, fb.height);
    } else {
      assert fb.stride == 0;
      forall k ensures PageStart(fb, k) == 0 {
      }
    }
  }

  lemma TwoPages(virtualHeight: nat, height: nat)
    requires height > 0
    ensures virtualHeight >= 2 * height <==> virtualHeight / height >= 2
  {
  }

  /** When every page of the framebuffer drawn on lies in its mapping. */
  predicate Mapped(first: Screen, r: Resize) {
    match r
    case Refused =>
      && first.lineLength * first.height <= first.memory
      && (first.virtualHeight < 2 * first.height || first.lineLength == 0)
    case Resized(s, mapped) =>
      || s.lineLength == 0
      || (mapped && s.lineLength * s.height <= s.memory
          && (s.virtualHeight >= s.height || s.lineLength * s.virtualHeight > s.memory))
  }

  /** Clearing and drawing pages stays in the mapping iff the driver's answers meet that condition. */
  lemma DrawnFits(first: Screen, r: Resize)
    requires first.height > 0 && (r.Resized? ==> r.screen.height > 0)
    ensures PagesFit(Drawn(first, r)) <==> Mapped(first, r)
  {
    hide PagesFit;
    match r
    case Refused => OpenFits(first);
    case Resized(s, mapped) =>
      var fb := Drawn(first, r);
      if Remap(s).None? {
        NothingMapped(fb);
        ProductPositiveFactor(s.lineLength, s.height);
      } else if mapped {
        RemapFits(s);
        if s.virtualHeight >= s.height {
          ProductMonotone(s.height, s.virtualHeight, s.lineLength);
        }
      } else {
        NothingMapped(fb);
      }
  }

  lemma ProductPositiveFactor(x: nat, y: nat)
    requires x * y > 0
    ensures x > 0
  {
  }

  lemma NothingMapped(fb: Framebuffer)
    requires fb.mapSize == 0 && fb.pageCount >= 1 && fb.stride >= 0 && fb.height > 0
    ensures PagesFit(fb) <==> fb.stride == 0
  {
    assert PageStart(fb, 0) == 0;
    if fb.stride > 0 {
      ProductPositive(fb.stride, fb.height);
    }
  }

  /** The usual double-buffered screen, on which the resize is refused: page 1 begins where the mapping ends. */
  lemma OpenedPageOneIsOutside()
    ensures var fb := Drawn(Screen(1920, 1080, 2160, 7680, 32, 16777216), Refused);
      fb.pageCount == 2 && PageStart(fb, 1) == fb.mapSize && !PagesFit(fb)
  {
    OpenFits(Screen(1920, 1080, 2160, 7680, 32, 16777216));
  }

  /** A driver that reports fewer virtual than visible lines: the remap succeeds, and page 0 does not fit. */
  lemma RemapCanBeTooSmall()
    ensures var fb := Remap(Screen(1920, 1080, 540, 7680, 32, 16777216));
      fb.Some? && !PagesFit(fb.value)
  {
    RemapFits(Screen(1920, 1080, 540, 7680, 32, 16777216));
  }

  /** A remap counts as many pages as the virtual height has room for, unless memory allows only one, and keeps
      the screen's size and pixel format. */
  lemma RemapShape(s: Screen)
    requires s.height > 0 && Remap(s).Some?
    ensures var fb := Remap(s).value;
      && fb.width == s.width && fb.height == s.height && fb.stride == s.lineLength
      && 8 * fb.bytesPerPixel <= s.bitsPerPixel < 8 * fb.bytesPerPixel + 8
      && (s.lineLength * s.virtualHeight > s.memory ==>
            fb.pageCount == 1 && fb.mapSize == s.lineLength * s.height <= s.memory)
      && (s.lineLength * s.virtualHeight <= s.memory ==> fb.mapSize == s.lineLength * s.virtualHeight)
      && (s.lineLength * s.virtualHeight <= s.memory && s.virtualHeight >= s.height ==>
            fb.pageCount * s.height <= s.virtualHeight < (fb.pageCount + 1) * s.height)
  {
    QuotientBounds(s.virtualHeight, s.height);
  }

  lemma QuotientBounds(n: nat, d: nat)
    requires d > 0
    ensures n / d * d <= n < (n / d + 1) * d
    ensures n >= d ==> n / d >= 1
  {
    assert n == n / d * d + n % d;
    if n >= d {
      assert n / d >= 1;
    }
  }

  lemma LineLess(a: nat, b: nat, line: nat)
    requires a < b
    ensures line * b <= line * a <==> line == 0
  {
    if line > 0 {
      ProductMonotone(a + 1, b, line);
      assert (a + 1) * line == a * line + line;
    }
  }

  lemma PagesInVirtual(height: nat, virtualHeight: nat, line: nat, fb: Framebuffer)
    requires 0 < height <= virtualHeight && fb.height == height && fb.stride == line
    requires fb.mapSize == line * virtualHeight && fb.pageCount == virtualHeight / height
    ensures PagesFit(fb)
  {
    forall page | 0 <= page < fb.pageCount
      ensures PageStart(fb, page) + fb.stride * fb.height <= fb.mapSize
    {
      ProductMonotone(page + 1, fb.pageCount, height);
      ProductMonotone((page + 1) * height, virtualHeight, line);
      PageArithmetic(page, line, height);
    }
  }

  lemma PageArithmetic(page: nat, line: nat, height: nat)
    ensures page * line * height + line * height == (page + 1) * height * line
  {
  }

  /** BlitSurfaceToFb's test, for a surface of the box's size. */
  predicate BlitAccepts(p: Pose, fb: Framebuffer) {
    !(p.x < 0 || p.y < 0 || p.x + p.w > fb.width || p.y + p.h > fb.height)
  }

  /** Byte offset in a page of row `row` of a box; the row is w pixels long. */
  function RowStart(p: Pose, fb: Framebuffer, row: int): int {
    (p.y + row) * fb.stride + p.x * fb.bytesPerPixel
  }

  /** A box inside the screen is blitted, and each of its rows lies in its page. */
  lemma BlitStaysInPage(p: Pose, fb: Framebuffer, top: nat, row: int)
    requires Inside(p, Area(0, top, fb.width, fb.height)) && p.w > 0 && 0 <= row < p.h
    requires fb.bytesPerPixel >= 0 && fb.stride >= fb.width * fb.bytesPerPixel
    ensures BlitAccepts(p, fb)
    ensures 0 <= RowStart(p, fb, row) && RowStart(p, fb, row) + p.w * fb.bytesPerPixel <= fb.stride * fb.height
  {
    var b := fb.bytesPerPixel;
    ProductNonNegative(fb.width, b);
    ProductNonNegative(p.y + row, fb.stride);
    ProductNonNegative(p.x, b);
    ProductMonotone(p.x + p.w, fb.width, b);
    ProductMonotone(p.y + row + 1, fb.height, fb.stride);
    Distribute(p.x, p.w, b);
    Distribute(p.y + row, 1, fb.stride);
  }

  /** Every frame of every run, drawn into either page of the framebuffer the loop was entered with: both boxes
      are blitted and every row copied lies in the mapping. */
  lemma EveryFrameIsDrawnInBounds(first: Screen, resize: Resize, fb: Framebuffer,
                                  p: Pose, q: Pose, top: nat, n: nat, page: int, row: int)
    requires first.height > 0 && (resize.Resized? ==> resize.screen.height > 0)
    requires fb == Drawn(first, resize) && Mapped(first, resize)
    requires FitsIn(p, Area(0, top, fb.width, fb.height)) && FitsIn(q, Area(0, top, fb.width, fb.height))
    requires fb.stride >= fb.width * fb.bytesPerPixel && n > 0
    ensures var r := Frames(p, q, Area(0, top, fb.width, fb.height), n);
      && BlitAccepts(r.0, fb) && BlitAccepts(r.1, fb)
      && (0 <= row < p.h ==>
            0 <= PageStart(fb, page) + RowStart(r.0, fb, row)
            && PageStart(fb, page) + RowStart(r.0, fb, row) + p.w * fb.bytesPerPixel <= fb.mapSize)
      && (0 <= row < q.h ==>
            0 <= PageStart(fb, page) + RowStart(r.1, fb, row)
            && PageStart(fb, page) + RowStart(r.1, fb, row) + q.w * fb.bytesPerPixel <= fb.mapSize)
  {
    hide Frames, Inside, BlitAccepts, RowStart, PagesFit, Mapped, Drawn, Resolved;
    var a := Area(0, top, fb.width, fb.height);
    var r := Frames(p, q, a, n);
    DrawnFits(first, resize);
    DrawnShape(first, resize);
    FramesMeaning(p, q, a, n);
    PageBound(fb, page);
    BlitStaysInPage(r.0, fb, top, if 0 <= row < p.h then row else 0);
    BlitStaysInPage(r.1, fb, top, if 0 <= row < q.h then row else 0);
  }

  lemma DrawnShape(first: Screen, r: Resize)
    requires first.height > 0 && (r.Resized? ==> r.screen.height > 0)
    ensures var fb := Drawn(first, r);
      fb.bytesPerPixel >= 0 && fb.pageCount >= 1 && fb.stride >= 0 && fb.height > 0
  {
  }

  lemma PageBound(fb: Framebuffer, page: int)
    requires PagesFit(fb) && fb.pageCount >= 1 && fb.stride >= 0 && fb.height >= 0
    ensures 0 <= PageStart(fb, page) && PageStart(fb, page) + fb.stride * fb.height <= fb.mapSize
  {
    assert PageStart(fb, 0) == 0;
    if 0 <= page < fb.pageCount {
      ProductNonNegative(page, fb.stride);
      ProductNonNegative(page * fb.stride, fb.height);
    }
  }
}
