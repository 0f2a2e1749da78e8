/**
 The PS5 video driver's presentation path: the screen-size rounding, the
 linear-to-tiled copy of the application surface into a scanout buffer,
 the two-buffer flip protocol driven by a 32-bit frame counter, the
 layout of the two buffers inside one memory region, and the idempotent
 shutdown of the video handle.

 The tile dimensions, the per-tile pixel count and the swizzle table are
 platform data that this model does not have; they are the parameter
 `TileGeometry`, and every property is proved for any geometry whose
 swizzle table is a bijection onto one tile's storage.
 */
module Video {
  import opened Common

  /** One 32-bit ABGR8888 pixel. */
  type Pixel = bv32

  const SCREEN_WIDTH: bv32 := 1920
  const SCREEN_HEIGHT: bv32 := 1080

  /** The direct-memory region holding both scanout buffers, in bytes. */
  const MEM_SIZE: nat := 0x2000_0000
  /** Each scanout buffer is one half of that region. */
  const BUFFER_BYTES: nat := MEM_SIZE / 2
  const BYTES_PER_PIXEL: nat := 4
  const BUFFER_PIXELS: nat := BUFFER_BYTES / BYTES_PER_PIXEL

  // ---------------------------------------------------------------------
  // Screen-size rounding
  // ---------------------------------------------------------------------

  /** The `(n + 0x4f) & ~0x4f` expression applied to both screen
      dimensions. The addition happens in a C `int`, so `n` must leave it
      room. The mask clears bits 0-3 and bit 6 of `n + 79`, so the result
      is a multiple of 16 and never falls below `n`. */
  function MaskRound(n: bv32): (r: bv32)
    requires n <= 0x7FFF_FFFF - 0x4F
    ensures n <= r <= n + 0x4F
    ensures r & 0xF == 0
  {
    (n + 0x4F) & !0x4F
  }

  /** The width both the draw loop and the registered display mode use. */
  function PaddedWidth(): nat { MaskRound(SCREEN_WIDTH) as nat }

  /** The height both the draw loop and the registered display mode use. */
  function PaddedHeight(): nat { MaskRound(SCREEN_HEIGHT) as nat }

  /** The display mode `PS5_VideoInit` registers: its size is computed by the
      same expression as the draw area. */
  datatype DisplayMode = DisplayMode(w: nat, h: nat, refreshRate: nat)

  function RegisteredMode(): (m: DisplayMode)
    ensures m.w == 1920 && m.h == 1152 && m.refreshRate == 60
    ensures m.w == PaddedWidth() && m.h == PaddedHeight()
  {
    DisplayMode(MaskRound(SCREEN_WIDTH) as nat, MaskRound(SCREEN_HEIGHT) as nat, 60)
  }

  /** The mask is not a round-up to a multiple of 64: small sizes land on
      multiples of 16 only, every input from 33 to 48 maps to 48, and every
      input from 49 to 64 jumps to 128. */
  lemma MaskRoundIsNotTileRounding()
    ensures MaskRound(1) == 16
    ensures MaskRound(33) == 48 && MaskRound(48) == 48
    ensures MaskRound(49) == 128 && MaskRound(64) == 128
  {
  }

  // ---------------------------------------------------------------------
  // Tile geometry and the destination-index function
  // ---------------------------------------------------------------------

  /** `PS5_TILE_WIDTH`, `PS5_TILE_HEIGHT`, `PS5_TILE_SIZE` and the swizzle
      table `PS5_tilemap[TH][TW]`. */
  datatype TileGeometry = TileGeometry(tw: nat, th: nat, size: nat, tilemap: seq<seq<nat>>)

  /** The table has TH rows of TW entries and one tile holds TW*TH pixels. */
  predicate WellShaped(g: TileGeometry)
  {
    && g.tw > 0 && g.th > 0
    && g.size == g.tw * g.th
    && |g.tilemap| == g.th
    && (forall ly :: 0 <= ly < g.th ==> |g.tilemap[ly]| == g.tw)
  }

  /** The swizzle table sends each in-tile coordinate to a distinct offset
      and reaches every offset of the tile: a bijection onto [0, size). */
  ghost predicate ValidGeometry(g: TileGeometry)
  {
    && WellShaped(g)
    && (forall ly, lx :: 0 <= ly < g.th && 0 <= lx < g.tw ==> g.tilemap[ly][lx] < g.size)
    && (forall ly1, lx1, ly2, lx2 ::
          (0 <= ly1 < g.th && 0 <= lx1 < g.tw && 0 <= ly2 < g.th && 0 <= lx2 < g.tw &&
           g.tilemap[ly1][lx1] == g.tilemap[ly2][lx2]) ==> ly1 == ly2 && lx1 == lx2)
    && (forall o :: 0 <= o < g.size ==> InTable(g, o))
  }

  /** Some in-tile coordinate has swizzle offset `o`. */
  ghost predicate InTable(g: TileGeometry, o: nat)
    requires WellShaped(g)
  {
    exists ly, lx :: 0 <= ly < g.th && 0 <= lx < g.tw && g.tilemap[ly][lx] == o
  }

  /** The frame is a whole number of tiles in each direction, which also
      makes the `(double)w / PS5_TILE_WIDTH` of the source an exact
      integer quotient. */
  predicate TilesFit(g: TileGeometry, w: nat, h: nat)
    requires g.tw > 0 && g.th > 0
  {
    w % g.tw == 0 && h % g.th == 0
  }

  /** The destination pixel index of source pixel (x, y) in a frame `w`
      pixels wide: the tile's index times the tile size, plus the swizzle
      offset of (x mod TW, y mod TH). */
  function DstIndex(g: TileGeometry, w: nat, x: nat, y: nat): nat
    requires WellShaped(g)
  {
    g.size * TileOf(g, w, x, y) + OffsetOf(g, x, y)
  }

  /** The tile (x / TW, y / TH) as a linear tile number, row-major over a
      frame `w / TW` tiles wide. */
  function TileOf(g: TileGeometry, w: nat, x: nat, y: nat): nat
    requires WellShaped(g)
  {
    var col: nat, row: nat, across: nat := x / g.tw, y / g.th, w / g.tw;
    col + row * across
  }

  /** The swizzle offset of (x mod TW, y mod TH) inside its tile. */
  function OffsetOf(g: TileGeometry, x: nat, y: nat): nat
    requires WellShaped(g)
  {
    g.tilemap[y % g.th][x % g.tw]
  }

  /** Division with remainder has one answer. */
  lemma DivModUnique(a: int, b: int, q: int, r: int)
    requires b > 0 && 0 <= r < b && a == q * b + r
    ensures a / b == q && a % b == r
  {
    var q', r' := a / b, a % b;
    assert a == q' * b + r';
    if q' < q {
      MulAtLeast(q - q', b);
    } else if q' > q {
      MulAtLeast(q' - q, b);
    }
  }

  lemma MulAtLeast(k: int, b: int)
    requires k >= 1 && b > 0
    ensures k * b >= b
  {
  }

  lemma MulMono(a: nat, b: nat, c: nat)
    requires a <= b
    ensures a * c <= b * c
  {
  }

  /** `x < n * d` bounds the quotient `x / d` by `n`. */
  lemma QuotientBelow(x: nat, d: nat, n: nat)
    requires d > 0 && x < n * d
    ensures x / d < n
  {
    var q := x / d;
    assert x == q * d + x % d;
    if q >= n {
      MulMono(n, q, d);
    }
  }

  /** A row-major index `a + b * n` of an `n` x `m` grid is below `n * m`. */
  lemma GridIndexBelow(a: nat, b: nat, n: nat, m: nat)
    requires a < n && b < m
    ensures a + b * n < n * m
  {
    MulMono(b, m - 1, n);
    assert (m - 1) * n == m * n - n;
  }

  /** Offset `off` inside block `t` of blocks of size `s` stays below `T`
      blocks. */
  lemma BlockIndexBelow(s: nat, t: nat, off: nat, T: nat)
    requires t < T && off < s
    ensures s * t + off < s * T
  {
    MulMono(t + 1, T, s);
    assert s * (t + 1) == s * t + s;
  }

  /** The index of pixel (x, y) in the linear surface, `y * w + x`. */
  function SrcIndex(w: nat, x: nat, y: nat): nat
  {
    y * w + x
  }

  /** A pixel inside the frame has its source index inside the frame. */
  lemma SrcIndexInFrame(w: nat, h: nat, x: nat, y: nat)
    requires x < w && y < h
    ensures SrcIndex(w, x, y) < w * h
  {
    GridIndexBelow(x, y, w, h);
  }

  /** The tile number of a pixel of the frame is below the tile count. */
  lemma TileOfInFrame(g: TileGeometry, w: nat, h: nat, x: nat, y: nat)
    requires WellShaped(g) && TilesFit(g, w, h)
    requires x < w && y < h
    ensures TileOf(g, w, x, y) < (w / g.tw) * (h / g.th)
  {
    var nx, ny := w / g.tw, h / g.th;
    QuotientBelow(x, g.tw, nx);
    QuotientBelow(y, g.th, ny);
    GridIndexBelow(x / g.tw, y / g.th, nx, ny);
  }

  /** The pixel count of the frame is its tile count times the tile size. */
  lemma FrameIsWholeTiles(g: TileGeometry, w: nat, h: nat)
    requires WellShaped(g) && TilesFit(g, w, h)
    ensures g.size * ((w / g.tw) * (h / g.th)) == w * h
  {
    var nx, ny := w / g.tw, h / g.th;
    assert w == nx * g.tw;
    assert h == ny * g.th;
    assert (g.tw * g.th) * (nx * ny) == (nx * g.tw) * (ny * g.th);
  }

  /** Every destination index lies inside the frame's own pixel count. */
  lemma DstIndexInFrame(g: TileGeometry, w: nat, h: nat, x: nat, y: nat)
    requires ValidGeometry(g) && TilesFit(g, w, h)
    requires x < w && y < h
    ensures DstIndex(g, w, x, y) < w * h
  {
    var tiles := (w / g.tw) * (h / g.th);
    TileOfInFrame(g, w, h, x, y);
    BlockIndexBelow(g.size, TileOf(g, w, x, y), OffsetOf(g, x, y), tiles);
    FrameIsWholeTiles(g, w, h);
  }

  /** A coordinate is its quotient and remainder put back together. */
  lemma Recompose(x: nat, d: nat, q: nat, r: nat)
    requires d > 0 && x / d == q && x % d == r
    ensures x == q * d + r
  {
  }

  /** Equal quotients and remainders give equal coordinates. */
  lemma SameParts(x1: nat, x2: nat, d: nat)
    requires d > 0 && x1 / d == x2 / d && x1 % d == x2 % d
    ensures x1 == x2
  {
    Recompose(x1, d, x1 / d, x1 % d);
    Recompose(x2, d, x2 / d, x2 % d);
  }

  /** The swizzle table is injective, so equal offsets mean equal in-tile
      coordinates. */
  lemma SameOffsetSameCell(g: TileGeometry, x1: nat, y1: nat, x2: nat, y2: nat)
    requires ValidGeometry(g)
    requires OffsetOf(g, x1, y1) == OffsetOf(g, x2, y2)
    ensures x1 % g.tw == x2 % g.tw && y1 % g.th == y2 % g.th
  {
  }

  /** Equal tile numbers inside the frame mean the same tile column and
      row. */
  lemma SameTileSameBlock(g: TileGeometry, w: nat, x1: nat, y1: nat, x2: nat, y2: nat)
    requires WellShaped(g) && w % g.tw == 0
    requires x1 < w && x2 < w
    requires TileOf(g, w, x1, y1) == TileOf(g, w, x2, y2)
    ensures x1 / g.tw == x2 / g.tw && y1 / g.th == y2 / g.th
  {
    var nx := w / g.tw;
    QuotientBelow(x1, g.tw, nx);
    QuotientBelow(x2, g.tw, nx);
    var t := TileOf(g, w, x1, y1);
    DivModUnique(t, nx, y1 / g.th, x1 / g.tw);
    DivModUnique(t, nx, y2 / g.th, x2 / g.tw);
  }

  /** Two pixels of the frame never share a destination index. */
  lemma DstIndexInjective(g: TileGeometry, w: nat, h: nat, x1: nat, y1: nat, x2: nat, y2: nat)
    requires ValidGeometry(g) && TilesFit(g, w, h)
    requires x1 < w && y1 < h && x2 < w && y2 < h
    requires DstIndex(g, w, x1, y1) == DstIndex(g, w, x2, y2)
    ensures x1 == x2 && y1 == y2
  {
    var d := DstIndex(g, w, x1, y1);
    DivModUnique(d, g.size, TileOf(g, w, x1, y1), OffsetOf(g, x1, y1));
    DivModUnique(d, g.size, TileOf(g, w, x2, y2), OffsetOf(g, x2, y2));
    SameOffsetSameCell(g, x1, y1, x2, y2);
    SameTileSameBlock(g, w, x1, y1, x2, y2);
    SameParts(x1, x2, g.tw);
    SameParts(y1, y2, g.th);
  }

  /** Every pixel index of the frame is the destination of some pixel. */
  lemma DstIndexSurjective(g: TileGeometry, w: nat, h: nat, d: nat) returns (x: nat, y: nat)
    requires ValidGeometry(g) && TilesFit(g, w, h)
    requires d < w * h
    ensures x < w && y < h && DstIndex(g, w, x, y) == d
  {
    var nx, ny := w / g.tw, h / g.th;
    FrameIsWholeTiles(g, w, h);
    var t, off := d / g.size, d % g.size;
    Recompose(d, g.size, t, off);
    assert d < (nx * ny) * g.size;
    QuotientBelow(d, g.size, nx * ny);
    assert nx > 0;
    var tx, ty := t % nx, t / nx;
    Recompose(t, nx, ty, tx);
    QuotientBelow(t, nx, ny);
    assert InTable(g, off);
    var ly, lx :| 0 <= ly < g.th && 0 <= lx < g.tw && g.tilemap[ly][lx] == off;
    x, y := tx * g.tw + lx, ty * g.th + ly;
    Recompose(w, g.tw, nx, 0);
    Recompose(h, g.th, ny, 0);
    BlockIndexBelow(g.tw, tx, lx, nx);
    BlockIndexBelow(g.th, ty, ly, ny);
    DivModUnique(x, g.tw, tx, lx);
    DivModUnique(y, g.th, ty, ly);
    assert TileOf(g, w, x, y) == t;
    assert OffsetOf(g, x, y) == off;
  }

  // ---------------------------------------------------------------------
  // The linear-to-tiled copy
  // ---------------------------------------------------------------------

  /** `r` is `dst` after every pixel (x, y) of a `w` x `h` frame of `src`
      has been stored at its destination index, and nothing past the
      frame's pixel count has been touched. */
  ghost predicate IsTiledCopy(g: TileGeometry, w: nat, h: nat, src: seq<Pixel>, dst: seq<Pixel>, r: seq<Pixel>)
    requires WellShaped(g)
  {
    && |r| == |dst|
    && (forall x, y :: 0 <= x < w && 0 <= y < h ==>
          DstIndex(g, w, x, y) < |r| && SrcIndex(w, x, y) < |src| && r[DstIndex(g, w, x, y)] == src[SrcIndex(w, x, y)])
    && (forall d :: w * h <= d < |dst| ==> r[d] == dst[d])
  }

  /** The tiled copy is a function of its inputs: since the destination
      index is a bijection onto the frame, every index of the result is
      either one source pixel or the untouched old content. */
  lemma TiledCopyUnique(g: TileGeometry, w: nat, h: nat, src: seq<Pixel>, dst: seq<Pixel>, r1: seq<Pixel>, r2: seq<Pixel>)
    requires ValidGeometry(g) && TilesFit(g, w, h)
    requires |src| >= w * h && |dst| >= w * h
    requires IsTiledCopy(g, w, h, src, dst, r1) && IsTiledCopy(g, w, h, src, dst, r2)
    ensures r1 == r2
  {
    forall d | 0 <= d < |dst|
      ensures r1[d] == r2[d]
    {
      if d < w * h {
        var x, y := DstIndexSurjective(g, w, h, d);
        assert r1[DstIndex(g, w, x, y)] == r2[DstIndex(g, w, x, y)];
      }
    }
  }

  /** Every pixel of the frame before (x, y) in the row-by-row order of
      the draw loop has been stored at its destination index. */
  ghost predicate StoredBefore(g: TileGeometry, w: nat, h: nat, src: seq<Pixel>, r: seq<Pixel>, x: nat, y: nat)
    requires WellShaped(g)
  {
    forall x', y' :: 0 <= x' < w && 0 <= y' < h && (y' < y || (y' == y && x' < x)) ==>
      DstIndex(g, w, x', y') < |r| && SrcIndex(w, x', y') < |src| && r[DstIndex(g, w, x', y')] == src[SrcIndex(w, x', y')]
  }

  /** Storing pixel (x, y) extends `StoredBefore` by that pixel and leaves
      every index past the frame alone. */
  lemma StoreStep(g: TileGeometry, w: nat, h: nat, src: seq<Pixel>, r: seq<Pixel>, x: nat, y: nat)
    requires ValidGeometry(g) && TilesFit(g, w, h)
    requires |src| >= w * h && |r| >= w * h
    requires x < w && y < h
    requires StoredBefore(g, w, h, src, r, x, y)
    ensures DstIndex(g, w, x, y) < w * h && SrcIndex(w, x, y) < w * h
    ensures StoredBefore(g, w, h, src, r[DstIndex(g, w, x, y) := src[SrcIndex(w, x, y)]], x + 1, y)
  {
    var k := DstIndex(g, w, x, y);
    DstIndexInFrame(g, w, h, x, y);
    SrcIndexInFrame(w, h, x, y);
    var r' := r[k := src[SrcIndex(w, x, y)]];
    forall x', y' | 0 <= x' < w && 0 <= y' < h && (y' < y || (y' == y && x' < x + 1))
      ensures DstIndex(g, w, x', y') < |r'| && SrcIndex(w, x', y') < |src| && r'[DstIndex(g, w, x', y')] == src[SrcIndex(w, x', y')]
    {
      if x' != x || y' != y {
        if DstIndex(g, w, x', y') == k {
          DstIndexInjective(g, w, h, x', y', x, y);
        }
      }
    }
  }

  /** A finished row is the same as the start of the next one. */
  lemma RowDone(g: TileGeometry, w: nat, h: nat, src: seq<Pixel>, r: seq<Pixel>, y: nat)
    requires WellShaped(g)
    requires StoredBefore(g, w, h, src, r, w, y)
    ensures StoredBefore(g, w, h, src, r, 0, y + 1)
  {
    forall x', y' | 0 <= x' < w && 0 <= y' < h && y' < y + 1
      ensures DstIndex(g, w, x', y') < |r| && SrcIndex(w, x', y') < |src| && r[DstIndex(g, w, x', y')] == src[SrcIndex(w, x', y')]
    {
    }
  }

  /** The double loop of `PS5_DrawPixelsAsTiles` over a `w` x `h` frame:
      row by row, pixel (x, y) of `src` is written to its tile's block at
      the swizzle offset. */
  method DrawPixelsAsTiles(g: TileGeometry, w: nat, h: nat, src: seq<Pixel>, dst: seq<Pixel>)
    returns (r: seq<Pixel>)
    requires ValidGeometry(g) && TilesFit(g, w, h)
    requires |src| >= w * h && |dst| >= w * h
    ensures IsTiledCopy(g, w, h, src, dst, r)
  {
    r := dst;
    var y := 0;
    while y < h
      invariant 0 <= y <= h
      invariant |r| == |dst|
      invariant StoredBefore(g, w, h, src, r, 0, y)
      invariant forall d :: w * h <= d < |dst| ==> r[d] == dst[d]
    {
      var ty := y / g.th;
      var x := 0;
      while x < w
        invariant 0 <= x <= w
        invariant |r| == |dst|
        invariant StoredBefore(g, w, h, src, r, x, y)
        invariant forall d :: w * h <= d < |dst| ==> r[d] == dst[d]
      {
        var tx := x / g.tw;
        var t := g.size * (tx + ty * (w / g.tw));
        var i := g.tilemap[y % g.th][x % g.tw];
        assert t + i == DstIndex(g, w, x, y);
        StoreStep(g, w, h, src, r, x, y);
        r := r[t + i := src[y * w + x]];
        x := x + 1;
      }
      RowDone(g, w, h, src, r, y);
      y := y + 1;
    }
  }

  /** The degenerate geometry: 1x1 tiles and the table [[0]]. */
  function UnitGeometry(): (g: TileGeometry)
    ensures ValidGeometry(g)
  {
    var g := TileGeometry(1, 1, 1, [[0]]);
    assert g.tilemap[0][0] == 0;
    assert InTable(g, 0);
    g
  }

  lemma UnitDstIndex(w: nat, x: nat, y: nat)
    ensures DstIndex(UnitGeometry(), w, x, y) == SrcIndex(w, x, y)
  {
    assert OffsetOf(UnitGeometry(), x, y) == 0;
  }

  /** With 1x1 tiles, frame pixel `i` lands at index `i`. */
  lemma UnitPixel(w: nat, h: nat, src: seq<Pixel>, dst: seq<Pixel>, r: seq<Pixel>, i: nat)
    requires IsTiledCopy(UnitGeometry(), w, h, src, dst, r)
    requires i < w * h
    ensures i < |r| && i < |src| && r[i] == src[i]
  {
    assert w > 0;
    var x, y := i % w, i / w;
    Recompose(i, w, y, x);
    QuotientBelow(i, w, h);
    UnitDstIndex(w, x, y);
    assert SrcIndex(w, x, y) == i;
  }

  /** With 1x1 tiles the tiled copy is a straight copy of the frame. */
  lemma UnitTilesAreIdentity(w: nat, h: nat, src: seq<Pixel>, dst: seq<Pixel>, r: seq<Pixel>)
    requires |src| >= w * h && |dst| >= w * h
    requires IsTiledCopy(UnitGeometry(), w, h, src, dst, r)
    ensures r[..w * h] == src[..w * h]
    ensures r[w * h..] == dst[w * h..]
  {
    forall i | 0 <= i < w * h
      ensures r[i] == src[i]
    {
      UnitPixel(w, h, src, dst, r, i);
    }
  }

  // ---------------------------------------------------------------------
  // Buffer layout
  // ---------------------------------------------------------------------

  /** Byte offset of scanout buffer `i` inside the direct-memory region:
      buffer 0 at its start, buffer 1 at its middle. */
  function BufferOffset(i: nat): (off: nat)
    requires i < 2
    ensures off + BUFFER_BYTES <= MEM_SIZE
    ensures off % BUFFER_BYTES == 0
  {
    if i == 0 then 0 else MEM_SIZE / 2
  }

  /** The two buffers are disjoint, tile the region exactly, and each has
      room for the padded frame at four bytes per pixel. */
  lemma BuffersDisjointAndLargeEnough()
    ensures BufferOffset(0) + BUFFER_BYTES == BufferOffset(1)
    ensures BufferOffset(1) + BUFFER_BYTES == MEM_SIZE
    ensures PaddedWidth() * PaddedHeight() * BYTES_PER_PIXEL <= BUFFER_BYTES
  {
  }

  /** Every byte the tiled copy writes for the padded screen lies inside
      one buffer. */
  lemma TiledFrameFitsInBuffer(g: TileGeometry, x: nat, y: nat)
    requires ValidGeometry(g) && TilesFit(g, PaddedWidth(), PaddedHeight())
    requires x < PaddedWidth() && y < PaddedHeight()
    ensures (DstIndex(g, PaddedWidth(), x, y) + 1) * BYTES_PER_PIXEL <= BUFFER_BYTES
  {
    DstIndexInFrame(g, PaddedWidth(), PaddedHeight(), x, y);
  }

  // ---------------------------------------------------------------------
  // The swap chain
  // ---------------------------------------------------------------------

  /** The buffer a frame is drawn into: `frame_id % 2`. */
  function BufferIndex(frameId: u32): (idx: nat)
    ensures idx < 2
  {
    (frameId % 2) as nat
  }

  /** `frame_id++` on the 32-bit counter. Because 2^32 is even the buffer
      index still flips when the counter wraps. */
  function AdvanceFrame(frameId: u32): (next: u32)
    ensures BufferIndex(next) != BufferIndex(frameId)
    ensures frameId as int < U32_MODULUS - 1 ==> next as int == frameId as int + 1
    ensures frameId as int == U32_MODULUS - 1 ==> next == 0
  {
    ((frameId as int + 1) % U32_MODULUS) as u32
  }

  /** The counter after `n` successful updates from the initial 0. */
  function FrameAfter(n: nat): u32
  {
    if n == 0 then 0 else AdvanceFrame(FrameAfter(n - 1))
  }

  /** Across successful updates from `frame_id = 0` the counter is the
      update count modulo 2^32 and the buffers used are 0, 1, 0, 1, ... */
  lemma {:induction false} BufferIndicesAlternate(n: nat)
    ensures FrameAfter(n) as int == n % U32_MODULUS
    ensures BufferIndex(FrameAfter(n)) == n % 2
  {
    if n > 0 {
      BufferIndicesAlternate(n - 1);
      var k := (n - 1) % U32_MODULUS;
      assert n - 1 == ((n - 1) / U32_MODULUS) * U32_MODULUS + k;
      if k < U32_MODULUS - 1 {
        DivModUnique(n, U32_MODULUS, (n - 1) / U32_MODULUS, k + 1);
      } else {
        DivModUnique(n, U32_MODULUS, (n - 1) / U32_MODULUS + 1, 0);
      }
      assert n == (n / U32_MODULUS) * U32_MODULUS + n % U32_MODULUS;
      DivModUnique(n, 2, (n / U32_MODULUS) * (U32_MODULUS / 2) + (n % U32_MODULUS) / 2, n % U32_MODULUS % 2);
    }
  }

  /** The flip request `sceVideoOutSubmitFlip(handle, idx, 1, frame_id)`. */
  datatype FlipRequest = FlipRequest(bufferIndex: nat, flipRate: nat, token: u32)

  /** The static frame counter and the pixel contents of the two scanout
      buffers. */
  datatype SwapChain = SwapChain(frameId: u32, vbuf: seq<seq<Pixel>>)

  predicate ValidSwapChain(sc: SwapChain)
  {
    |sc.vbuf| == 2 && forall i :: 0 <= i < 2 ==> |sc.vbuf[i]| == BUFFER_PIXELS
  }

  /** `PS5_UpdateWindowFramebuffer`. `surface` is the window's surface
      (None when the window has none); `beyond` is the memory that follows
      the surface's pixels, which the copy reads whenever the surface holds
      fewer than the full padded frame; `submitResult` and `waitResult` are
      what `sceVideoOutSubmitFlip` and `sceKernelWaitEqueue` return. The
      flip request made, if any, is returned as `flip`. */
  method UpdateWindowFramebuffer(g: TileGeometry, sc: SwapChain, surface: Option<seq<Pixel>>,
                                 beyond: seq<Pixel>, submitResult: int, waitResult: int)
    returns (sc': SwapChain, st: Status, flip: Option<FlipRequest>)
    requires ValidGeometry(g) && TilesFit(g, PaddedWidth(), PaddedHeight())
    requires ValidSwapChain(sc)
    requires surface.Some? ==> |surface.value| + |beyond| >= PaddedWidth() * PaddedHeight()
    ensures ValidSwapChain(sc')
    // No surface: an error, nothing drawn, nothing submitted.
    ensures surface.None? ==> sc' == sc && st.Error? && flip.None?
    // Otherwise the frame is drawn into buffer frame_id % 2 and that buffer
    // is submitted, with flip rate 1 and the counter as token.
    ensures surface.Some? ==>
              var idx := BufferIndex(sc.frameId);
              && flip == Some(FlipRequest(idx, 1, sc.frameId))
              && IsTiledCopy(g, PaddedWidth(), PaddedHeight(), surface.value + beyond, sc.vbuf[idx], sc'.vbuf[idx])
              && sc'.vbuf[1 - idx] == sc.vbuf[1 - idx]
    // Only a completed submit-and-wait advances the counter.
    ensures st == Ok <==> surface.Some? && submitResult == 0 && waitResult == 0
    ensures st == Ok ==> sc'.frameId == AdvanceFrame(sc.frameId)
    ensures st != Ok ==> sc'.frameId == sc.frameId && st.Error?
  {
    var idx := BufferIndex(sc.frameId);
    if surface.None? {
      return sc, Error("Couldn't find surface for window"), None;
    }
    var w, h := PaddedWidth(), PaddedHeight();
    assert w * h <= BUFFER_PIXELS;
    var drawn := DrawPixelsAsTiles(g, w, h, surface.value + beyond, sc.vbuf[idx]);
    sc' := sc.(vbuf := sc.vbuf[idx := drawn]);
    flip := Some(FlipRequest(idx, 1, sc.frameId));
    if submitResult != 0 {
      return sc', Error("sceVideoOutSubmitFlip"), flip;
    }
    if waitResult != 0 {
      return sc', Error("sceKernelWaitEqueue"), flip;
    }
    sc' := sc'.(frameId := AdvanceFrame(sc.frameId));
    st := Ok;
  }

  // ---------------------------------------------------------------------
  // Shutdown
  // ---------------------------------------------------------------------

  /** The video handle after `PS5_VideoQuit`, and the handle passed to
      `sceVideoOutClose` if it was called. */
  datatype QuitOutcome = QuitOutcome(handle: int, closed: Option<int>)

  function VideoQuit(handle: int): (q: QuitOutcome)
    ensures q.handle == 0
    ensures q.closed.Some? <==> handle != 0
    ensures q.closed.Some? ==> q.closed.value == handle
  {
    if handle != 0 then QuitOutcome(0, Some(handle)) else QuitOutcome(handle, None)
  }

  /** Quitting twice closes the device once. */
  lemma VideoQuitIdempotent(handle: int)
    ensures VideoQuit(VideoQuit(handle).handle).closed.None?
    ensures VideoQuit(VideoQuit(handle).handle) == VideoQuit(0)
  {
  }
}
