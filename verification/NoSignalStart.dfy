/** How big the boxes of the no-signal screen are, and where they start. */
module NoSignalStart {
  import opened NoSignal

  const TITLE := "NO SIGNAL"
  const LOGO := "STREAMBOX"

  function ClampInt(value: int, low: int, high: int): int {
    if value < low then low else if value > high then high else value
  }

  function MeasureTextWidth(text: string, scale: int): int {
    |text| * 6 * scale
  }

  function Padding(dim: nat): int {
    ClampInt(dim / 45, 8, 64)
  }

  /** The upper margin, below which the boxes stay. */
  function Top(dim: nat): (top: nat) {
    ClampInt(dim / 34, 16, 96)
  }

  function Box(text: string, scale: int, dim: nat, x: int, y: int, dx: int, dy: int): Pose {
    Pose(x, y, MeasureTextWidth(text, scale) + Padding(dim) * 2, 7 * scale + Padding(dim) * 2, dx, dy)
  }

  /** The boxes, for the smaller dimension of the screen. */
  function Title(dim: nat, x: int, y: int, dx: int, dy: int): Pose {
    Box(TITLE, ClampInt(dim / 108, 3, 28), dim, x, y, dx, dy)
  }

  function Logo(dim: nat, x: int, y: int, dx: int, dy: int): Pose {
    Box(LOGO, ClampInt(dim / 180, 2, 18), dim, x, y, dx, dy)
  }

  function Room(width: nat, height: nat): Area {
    Area(0, Top(Min(width, height)), width, height)
  }

  lemma Sizes(dim: nat, x: int, y: int, dx: int, dy: int)
    ensures var t, s := Title(dim, x, y, dx, dy), ClampInt(dim / 108, 3, 28);
      t.w == 54 * s + 2 * Padding(dim) && t.h == 7 * s + 2 * Padding(dim)
    ensures var l, s := Logo(dim, x, y, dx, dy), ClampInt(dim / 180, 2, 18);
      l.w == 54 * s + 2 * Padding(dim) && l.h == 7 * s + 2 * Padding(dim)
  {
    assert |TITLE| == 9 && |LOGO| == 9;
  }

  /** Both boxes fit below the margin if and only if the screen has at least 178 by 53 pixels. */
  lemma BoxesFit(width: nat, height: nat, p: Pose, q: Pose)
    requires var dim := Min(width, height);
      p == Title(dim, p.x, p.y, p.dx, p.dy) && q == Logo(dim, q.x, q.y, q.dx, q.dy)
    ensures FitsIn(p, Room(width, height)) && FitsIn(q, Room(width, height)) <==> width >= 178 && height >= 53
  {
    hide Title, Logo;
    var dim := Min(width, height);
    Sizes(dim, p.x, p.y, p.dx, p.dy);
    Sizes(dim, q.x, q.y, q.dx, q.dy);
  }

  /** What the start positions are taken modulo. */
  function FreeX(p: Pose, width: int): int {
    width - p.w
  }

  function FreeY(p: Pose, room: Area): int {
    room.bottom - room.top - p.h
  }

  /** All four are positive if and only if the screen is one pixel larger still. One of them is zero, and the
      start undefined, if and only if the screen has just the width or the height of a box. */
  lemma StartsDefined(width: nat, height: nat, p: Pose, q: Pose)
    requires var dim := Min(width, height);
      p == Title(dim, p.x, p.y, p.dx, p.dy) && q == Logo(dim, q.x, q.y, q.dx, q.dy)
    ensures var room := Room(width, height);
      && (FreeX(p, width) > 0 && FreeY(p, room) > 0 && FreeX(q, width) > 0 && FreeY(q, room) > 0
          <==> width >= 179 && height >= 54)
      && (FreeX(p, width) == 0 || FreeX(q, width) == 0 <==> width == 178 || width == 124)
      && (FreeY(p, room) == 0 || FreeY(q, room) == 0 <==> height == 53 || height == 46)
  {
    hide Title, Logo;
    var dim := Min(width, height);
    Sizes(dim, p.x, p.y, p.dx, p.dy);
    Sizes(dim, q.x, q.y, q.dx, q.dy);
  }

  /** A random start. */
  function Placed(p: Pose, width: int, room: Area, rx: nat, ry: nat): Pose
    requires FreeX(p, width) > 0 && FreeY(p, room) > 0
  {
    p.(x := rx % FreeX(p, width), y := room.top + ry % FreeY(p, room))
  }

  /** Where the logo goes if no random start was clear of the title. */
  function Cornered(q: Pose, width: int, room: Area, padding: int): Pose {
    q.(x := ClampInt(width - q.w - padding, 0, width - q.w),
       y := ClampInt(room.bottom - q.h - padding, room.top, room.bottom - q.h))
  }

  /** Either way a box starts inside. */
  lemma StartsInside(p: Pose, width: nat, room: Area, rx: nat, ry: nat, padding: int)
    requires room.left == 0 && room.right == width && p.w > 0 && p.h > 0
    requires FreeX(p, width) > 0 && FreeY(p, room) > 0
    ensures Inside(Placed(p, width, room, rx, ry), room) && Inside(Cornered(p, width, room, padding), room)
  {
  }

  /** On every screen of at least 178 by 53 pixels whose driver answers as required, the boxes the thread makes
      are drawn within the mapping in every frame. */
  lemma ThreadDrawsInBounds(first: Screen, resize: Resize, fb: Framebuffer,
                            p: Pose, q: Pose, n: nat, page: int, row: int)
    requires first.height > 0 && (resize.Resized? ==> resize.screen.height > 0)
    requires fb == Drawn(first, resize) && Mapped(first, resize) && fb.width >= 178 && fb.height >= 53
    requires fb.stride >= fb.width * fb.bytesPerPixel && n > 0
    requires var dim := Min(fb.width, fb.height);
      p == Title(dim, p.x, p.y, p.dx, p.dy) && q == Logo(dim, q.x, q.y, q.dx, q.dy)
    ensures var r := Frames(p, q, Room(fb.width, fb.height), n);
      && BlitAccepts(r.0, fb) && BlitAccepts(r.1, fb)
      && (0 <= row < p.h ==>
            0 <= PageStart(fb, page) + RowStart(r.0, fb, row)
            && PageStart(fb, page) + RowStart(r.0, fb, row) + p.w * fb.bytesPerPixel <= fb.mapSize)
      && (0 <= row < q.h ==>
            0 <= PageStart(fb, page) + RowStart(r.1, fb, row)
            && PageStart(fb, page) + RowStart(r.1, fb, row) + q.w * fb.bytesPerPixel <= fb.mapSize)
  {
    hide Title, Logo, Frames, Drawn, Mapped, BlitAccepts, RowStart, PageStart, FitsIn;
    BoxesFit(fb.width, fb.height, p, q);
    EveryFrameIsDrawnInBounds(first, resize, fb, p, q, Top(Min(fb.width, fb.height)), n, page, row);
  }

  /** The boxes and the margin on the screen the thread asks for. */
  lemma FullHdBoxes(x: int, y: int, dx: int, dy: int)
    ensures Title(1080, x, y, dx, dy) == Pose(x, y, 588, 118, dx, dy)
    ensures Logo(1080, x, y, dx, dy) == Pose(x, y, 372, 90, dx, dy)
    ensures Room(1920, 1080) == Area(0, 31, 1920, 1080)
  {
    hide Title, Logo;
    Sizes(1080, x, y, dx, dy);
    KeepsPlace(1080, x, y, dx, dy);
  }

  lemma KeepsPlace(dim: nat, x: int, y: int, dx: int, dy: int)
    ensures var t, l := Title(dim, x, y, dx, dy), Logo(dim, x, y, dx, dy);
      (t.x, t.y, t.dx, t.dy) == (x, y, dx, dy) == (l.x, l.y, l.dx, l.dy)
  {
  }
}
