/** Copying a box into a framebuffer page, byte by byte. */
module NoSignalBlit {
  import opened Arith
  import opened Bytes
  import opened NoSignal
  import opened Timing

  /** How many bytes one row of a box has. */
  function RowBytes(p: Pose, fb: Framebuffer): int {
    p.w * fb.bytesPerPixel
  }

  /** Byte i of the mapping belongs to row `row` of a box drawn into the page at `page`. */
  predicate InRow(p: Pose, fb: Framebuffer, page: nat, row: int, i: int) {
    page + RowStart(p, fb, row) <= i < page + RowStart(p, fb, row) + RowBytes(p, fb)
  }

  /** What a mapping must be like for a box to be drawn into it. */
  predicate Drawable(p: Pose, fb: Framebuffer, page: nat, size: nat) {
    && p.w > 0 && p.h > 0 && fb.bytesPerPixel >= 0
    && fb.stride >= fb.width * fb.bytesPerPixel && page + fb.stride * fb.height <= size
  }

  /** Where rows lie: the first row of a box in the corner at the start of the page, every row a line further
      on, and all of them a pixel or a line further on for a box a pixel further right or down. */
  lemma RowsMove(p: Pose, fb: Framebuffer, row: int)
    ensures RowStart(p.(x := 0, y := 0), fb, 0) == 0
    ensures RowStart(p, fb, row + 1) == RowStart(p, fb, row) + fb.stride
    ensures RowStart(p.(x := p.x + 1), fb, row) == RowStart(p, fb, row) + fb.bytesPerPixel
    ensures RowStart(p.(y := p.y + 1), fb, row) == RowStart(p, fb, row) + fb.stride
  {
    Distribute(p.y + row, 1, fb.stride);
    Distribute(p.x, 1, fb.bytesPerPixel);
  }

  /** Rows lie in the page, one behind the other. */
  lemma RowsLie(p: Pose, fb: Framebuffer, page: nat, size: nat, row: nat)
    requires Drawable(p, fb, page, size) && BlitAccepts(p, fb) && row < p.h
    ensures 0 <= RowStart(p, fb, row) && page + RowStart(p, fb, row) + RowBytes(p, fb) <= size
    ensures RowStart(p, fb, row + 1) == RowStart(p, fb, row) + fb.stride
    ensures 0 <= RowBytes(p, fb) <= fb.stride
  {
    BlitStaysInPage(p, fb, 0, row);
    Distribute(p.y + row, 1, fb.stride);
    ProductMonotone(p.w, fb.width, fb.bytesPerPixel);
    ProductNonNegative(p.w, fb.bytesPerPixel);
  }

  lemma {:induction false} RowsApart(p: Pose, fb: Framebuffer, page: nat, size: nat, row: nat, later: nat)
    requires Drawable(p, fb, page, size) && BlitAccepts(p, fb) && row < later < p.h
    ensures RowStart(p, fb, row) + RowBytes(p, fb) <= RowStart(p, fb, later)
    decreases later
  {
    hide RowStart, RowBytes, Drawable, BlitAccepts;
    RowsLie(p, fb, page, size, later - 1);
    if row < later - 1 {
      RowsApart(p, fb, page, size, row, later - 1);
      RowsLie(p, fb, page, size, row);
    }
  }

  lemma SurfaceRow(p: Pose, fb: Framebuffer, row: nat)
    requires row < p.h && RowBytes(p, fb) >= 0
    ensures 0 <= row * RowBytes(p, fb) && row * RowBytes(p, fb) + RowBytes(p, fb) <= p.h * RowBytes(p, fb)
  {
    ProductNonNegative(row, RowBytes(p, fb));
    Distribute(row, 1, RowBytes(p, fb));
    ProductMonotone(row + 1, p.h, RowBytes(p, fb));
  }

  /** Row `row` of a box shows that row of its surface. */
  predicate RowShown(m: seq<byte>, surf: seq<byte>, p: Pose, fb: Framebuffer, page: nat, row: nat) {
    var n, start, from := RowBytes(p, fb), page + RowStart(p, fb, row), row * RowBytes(p, fb);
    && 0 <= n && 0 <= start && start + n <= |m| && 0 <= from && from + n <= |surf|
    && m[start..start + n] == surf[from..from + n]
  }

  /** Bytes that belong to none of the first rows are as before. */
  ghost predicate OthersKept(m: seq<byte>, was: seq<byte>, p: Pose, fb: Framebuffer, page: nat, rows: nat) {
    && |m| == |was|
    && forall i :: 0 <= i < |m| && (forall row :: 0 <= row < rows ==> !InRow(p, fb, page, row, i)) ==> m[i] == was[i]
  }

  lemma RowCopied(m: seq<byte>, surf: seq<byte>, p: Pose, fb: Framebuffer, page: nat, row: nat, r: seq<byte>)
    requires Drawable(p, fb, page, |m|) && BlitAccepts(p, fb) && row < p.h && |surf| == p.h * RowBytes(p, fb)
    requires var n, start, from := RowBytes(p, fb), page + RowStart(p, fb, row), row * RowBytes(p, fb);
      && 0 <= n && 0 <= start && start + n <= |m| && 0 <= from && from + n <= |surf|
      && r == m[..start] + surf[from..from + n] + m[start + n..]
    ensures RowShown(r, surf, p, fb, page, row)
    ensures forall k: nat :: k < row && RowShown(m, surf, p, fb, page, k) ==> RowShown(r, surf, p, fb, page, k)
  {
    hide RowStart, RowBytes, Drawable, BlitAccepts;
    forall k: nat | k < row && RowShown(m, surf, p, fb, page, k) ensures RowShown(r, surf, p, fb, page, k) {
      RowsApart(p, fb, page, |m|, k, row);
    }
  }

  lemma OthersStep(m: seq<byte>, was: seq<byte>, d: seq<byte>, p: Pose, fb: Framebuffer, page: nat, row: nat,
                   r: seq<byte>)
    requires OthersKept(m, was, p, fb, page, row) && |d| == RowBytes(p, fb)
    requires var start := page + RowStart(p, fb, row);
      0 <= start && start + |d| <= |m| && r == m[..start] + d + m[start + |d|..]
    ensures OthersKept(r, was, p, fb, page, row + 1)
  {
    hide RowStart, RowBytes;
    forall i | 0 <= i < |r| && (forall k :: 0 <= k < row + 1 ==> !InRow(p, fb, page, k, i)) ensures r[i] == was[i] {
      assert !InRow(p, fb, page, row, i);
    }
  }

  /** BlitSurfaceToFb into the page at `page`: either nothing happens, or every row of the box shows that row of
      its surface, and no other byte of the mapping changes. */
  method BlitSurfaceToFb(a: array<byte>, page: nat, surf: seq<byte>, p: Pose, fb: Framebuffer)
    requires Drawable(p, fb, page, a.Length) && |surf| == p.h * RowBytes(p, fb)
    modifies a
    ensures !BlitAccepts(p, fb) ==> a[..] == old(a[..])
    ensures BlitAccepts(p, fb) ==> forall row: nat :: row < p.h ==> RowShown(a[..], surf, p, fb, page, row)
    ensures BlitAccepts(p, fb) ==> OthersKept(a[..], old(a[..]), p, fb, page, p.h)
  {
    hide RowStart, RowBytes, RowShown, OthersKept, Drawable;
    if p.x < 0 || p.y < 0 || p.x + p.w > fb.width || p.y + p.h > fb.height {
      return;
    }
    ghost var was := a[..];
    Shape(p, fb, page, a.Length);
    NothingCopied(was, p, fb, page);
    for row := 0 to p.h
      invariant forall k: nat :: k < row ==> RowShown(a[..], surf, p, fb, page, k)
      invariant OthersKept(a[..], was, p, fb, page, row)
    {
      RowsLie(p, fb, page, a.Length, row);
      SurfaceRow(p, fb, row);
      var n := p.w * fb.bytesPerPixel;
      var start, from := page + ((p.y + row) * fb.stride + p.x * fb.bytesPerPixel), row * n;
      Named(p, fb, row);
      ghost var before := a[..];
      Store(a, start, surf[from..from + n]);
      RowCopied(before, surf, p, fb, page, row, a[..]);
      OthersStep(before, was, surf[from..from + n], p, fb, page, row, a[..]);
    }
  }

  lemma Named(p: Pose, fb: Framebuffer, row: int)
    ensures RowBytes(p, fb) == p.w * fb.bytesPerPixel
    ensures RowStart(p, fb, row) == (p.y + row) * fb.stride + p.x * fb.bytesPerPixel
  {
  }

  lemma Shape(p: Pose, fb: Framebuffer, page: nat, size: nat)
    requires Drawable(p, fb, page, size)
    ensures p.h > 0
  {
  }

  lemma NothingCopied(m: seq<byte>, p: Pose, fb: Framebuffer, page: nat)
    ensures OthersKept(m, m, p, fb, page, 0)
  {
  }
}
