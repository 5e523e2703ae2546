/** The viewport arithmetic of the image workspace
    (frontend/src/components/ImageWorkspace.tsx) with the canvas and the DOM
    taken away: the box of the canvas, the device pixel ratio and the pointer
    position are parameters; coordinates are exact reals. */
module Viewport {
  import opened Wrappers
  import opened Js

  /** getBoundingClientRect() of the canvas, which is sized to its container. */
  datatype Box = Box(left: real, top: real, width: real, height: real)

  /** What computeImageMetrics returns besides the box and the ratio. */
  datatype Metrics = Metrics(
    align: real,
    imgW: real, imgH: real,
    cx: real, cy: real,
    imgWAligned: real, imgHAligned: real,
    pixelScale: real)

  /** A point, on the screen or in the image. */
  datatype Coord = Coord(x: real, y: real)

  function Max(a: real, b: real): real {
    if a >= b then a else b
  }

  /** `v` is a whole number of grid steps. */
  predicate OnGrid(v: real, align: real)
    requires align > 0.0
  {
    (v / align).Floor as real == v / align
  }

  /** alignToGrid: the nearest grid point, a half step going up. */
  function AlignToGrid(v: real, align: real): (r: real)
    requires align > 0.0
    ensures OnGrid(r, align)
    ensures v - align / 2.0 < r <= v + align / 2.0
  {
    var k := Round(v / align);
    GridPoint(v, align, k);
    k as real * align
  }

  /** Scaling the rounding bounds of `v / align` back by `align`. */
  lemma GridPoint(v: real, align: real, k: int)
    requires align > 0.0 && v / align - 0.5 < k as real <= v / align + 0.5
    ensures OnGrid(k as real * align, align)
    ensures v - align / 2.0 < k as real * align <= v + align / 2.0
  {
    var q := v / align;
    var r := k as real * align;
    assert q * align == v;
    assert r / align == k as real;
    assert (k as real).Floor == k;
    MulPositive(k as real - (q - 0.5), align);
    assert (k as real - (q - 0.5)) * align == r - v + align / 2.0;
    assert r - v + align / 2.0 > 0.0;
    MulNonNegative(q + 0.5 - k as real, align);
    assert (q + 0.5 - k as real) * align == v + align / 2.0 - r;
  }

  lemma MulPositive(a: real, b: real)
    requires a > 0.0 && b > 0.0
    ensures a * b > 0.0
  {
  }

  lemma MulNonNegative(a: real, b: real)
    requires a >= 0.0 && b > 0.0
    ensures a * b >= 0.0
  {
  }

  /** A grid point stays where it is. */
  lemma AlignOnGrid(v: real, align: real)
    requires align > 0.0 && OnGrid(v, align)
    ensures AlignToGrid(v, align) == v
  {
    var k := (v / align).Floor;
    assert Round(v / align) == k;
    assert k as real * align == v;
  }

  /** Aligning twice is aligning once. */
  lemma AlignIdempotent(v: real, align: real)
    requires align > 0.0
    ensures AlignToGrid(AlignToGrid(v, align), align) == AlignToGrid(v, align)
  {
    AlignOnGrid(AlignToGrid(v, align), align);
  }

  /** computeImageMetrics for an image of `width` by `height` pixels at
      `scale`, panned by `(viewX, viewY)`. */
  function ComputeImageMetrics(box: Box, dpr: real, width: int, height: int, scale: real, viewX: real, viewY: real): (m: Metrics)
    requires dpr > 0.0 && width >= 1 && height >= 1
    ensures m.align == 1.0 / dpr && m.align > 0.0
    ensures m.imgW == width as real * scale && m.imgH == height as real * scale
    ensures OnGrid(m.cx, m.align) && OnGrid(m.cy, m.align)
    ensures var tlx := box.width / 2.0 - m.imgW / 2.0 + viewX;
            tlx - m.align / 2.0 < m.cx <= tlx + m.align / 2.0
    ensures var tly := box.height / 2.0 - m.imgH / 2.0 + viewY;
            tly - m.align / 2.0 < m.cy <= tly + m.align / 2.0
    ensures m.imgWAligned >= 1.0 && m.imgHAligned >= 1.0
    ensures m.imgWAligned == 1.0 || OnGrid(m.imgWAligned, m.align)
    ensures m.imgHAligned == 1.0 || OnGrid(m.imgHAligned, m.align)
    ensures m.pixelScale == m.imgWAligned / width as real && m.pixelScale > 0.0
  {
    var align := 1.0 / dpr;
    var imgW := width as real * scale;
    var imgH := height as real * scale;
    var cx := AlignToGrid(box.width / 2.0 - imgW / 2.0 + viewX, align);
    var cy := AlignToGrid(box.height / 2.0 - imgH / 2.0 + viewY, align);
    var imgWAligned := Max(1.0, AlignToGrid(imgW, align));
    var imgHAligned := Max(1.0, AlignToGrid(imgH, align));
    Metrics(align, imgW, imgH, cx, cy, imgWAligned, imgHAligned, imgWAligned / width as real)
  }

  /** Each aligned extent is within half a grid step of the raw extent,
      unless it was raised to 1; when the raw extent is well above 1 it
      always is. */
  lemma AlignedExtentsNear(box: Box, dpr: real, width: int, height: int, scale: real, viewX: real, viewY: real)
    requires dpr > 0.0 && width >= 1 && height >= 1
    ensures var m := ComputeImageMetrics(box, dpr, width, height, scale, viewX, viewY);
            (m.imgWAligned == 1.0 || m.imgW - m.align / 2.0 < m.imgWAligned <= m.imgW + m.align / 2.0) &&
            (m.imgHAligned == 1.0 || m.imgH - m.align / 2.0 < m.imgHAligned <= m.imgH + m.align / 2.0) &&
            (m.imgW - m.align / 2.0 >= 1.0 ==> m.imgW - m.align / 2.0 < m.imgWAligned <= m.imgW + m.align / 2.0) &&
            (m.imgH - m.align / 2.0 >= 1.0 ==> m.imgH - m.align / 2.0 < m.imgHAligned <= m.imgH + m.align / 2.0)
  {
  }

  /** computeMinScale: the cover fit, or 1 without a container. */
  function MinScale(container: Option<Box>, imgW: int, imgH: int): (s: real)
    requires imgW >= 1 && imgH >= 1
    ensures container.None? ==> s == 1.0
    ensures container.Some? ==>
              s >= container.value.width / imgW as real && s >= container.value.height / imgH as real &&
              (s == container.value.width / imgW as real || s == container.value.height / imgH as real)
  {
    if container.None? then 1.0
    else Max(container.value.width / imgW as real, container.value.height / imgH as real)
  }

  /** At the minimum scale the image covers the container on both axes and
      fits it exactly on one of them. */
  lemma MinScaleCovers(box: Box, imgW: int, imgH: int)
    requires imgW >= 1 && imgH >= 1
    ensures var s := MinScale(Some(box), imgW, imgH);
            imgW as real * s >= box.width && imgH as real * s >= box.height &&
            (imgW as real * s == box.width || imgH as real * s == box.height)
  {
    var s := MinScale(Some(box), imgW, imgH);
    var w, h := imgW as real, imgH as real;
    assert (box.width / w) * w == box.width;
    assert (box.height / h) * h == box.height;
    assert w * s >= w * (box.width / w);
    assert h * s >= h * (box.height / h);
  }

  /** The draw code's toScreen: a point of the image, relative to the canvas. */
  function ToScreen(m: Metrics, ix: real, iy: real): Coord {
    Coord(m.cx + ix * m.pixelScale, m.cy + iy * m.pixelScale)
  }

  /** toImageCoord: the image point under a client position, or None
      outside the image. */
  function ToImageCoord(box: Box, m: Metrics, clientX: real, clientY: real, width: int, height: int): (p: Option<Coord>)
    requires m.pixelScale > 0.0
    ensures p.Some? ==> 0.0 <= p.value.x < width as real && 0.0 <= p.value.y < height as real
  {
    var x := (clientX - box.left - m.cx) / m.pixelScale;
    var y := (clientY - box.top - m.cy) / m.pixelScale;
    if x < 0.0 || y < 0.0 || x >= width as real || y >= height as real then None else Some(Coord(x, y))
  }

  /** Every point of the image is found again under its own screen position. */
  lemma ScreenThenImage(box: Box, m: Metrics, ix: real, iy: real, width: int, height: int)
    requires m.pixelScale > 0.0
    requires 0.0 <= ix < width as real && 0.0 <= iy < height as real
    ensures var s := ToScreen(m, ix, iy);
            ToImageCoord(box, m, box.left + s.x, box.top + s.y, width, height) == Some(Coord(ix, iy))
  {
    var s := ToScreen(m, ix, iy);
    assert box.left + s.x - box.left - m.cx == ix * m.pixelScale;
    assert box.top + s.y - box.top - m.cy == iy * m.pixelScale;
    assert (ix * m.pixelScale) / m.pixelScale == ix;
    assert (iy * m.pixelScale) / m.pixelScale == iy;
  }

  /** A client position over the image is the screen position of the point
      found under it. */
  lemma ImageThenScreen(box: Box, m: Metrics, clientX: real, clientY: real, width: int, height: int)
    requires m.pixelScale > 0.0
    requires ToImageCoord(box, m, clientX, clientY, width, height).Some?
    ensures var p := ToImageCoord(box, m, clientX, clientY, width, height).value;
            var s := ToScreen(m, p.x, p.y);
            box.left + s.x == clientX && box.top + s.y == clientY
  {
    var u := clientX - box.left - m.cx;
    var v := clientY - box.top - m.cy;
    assert (u / m.pixelScale) * m.pixelScale == u;
    assert (v / m.pixelScale) * m.pixelScale == v;
  }

  /** Some point of the image is drawn at client position (clientX, clientY). */
  ghost predicate DrawnAt(box: Box, m: Metrics, clientX: real, clientY: real, width: int, height: int) {
    exists ix: real, iy: real :: 0.0 <= ix < width as real && 0.0 <= iy < height as real &&
      box.left + ToScreen(m, ix, iy).x == clientX && box.top + ToScreen(m, ix, iy).y == clientY
  }

  /** toImageCoord fails exactly for the client positions that no point of
      the image is drawn at. */
  lemma ToImageCoordNull(box: Box, m: Metrics, clientX: real, clientY: real, width: int, height: int)
    requires m.pixelScale > 0.0
    ensures ToImageCoord(box, m, clientX, clientY, width, height).None? <==>
            !DrawnAt(box, m, clientX, clientY, width, height)
  {
    var p := ToImageCoord(box, m, clientX, clientY, width, height);
    if p.Some? {
      ImageThenScreen(box, m, clientX, clientY, width, height);
      assert box.left + ToScreen(m, p.value.x, p.value.y).x == clientX;
    }
    if DrawnAt(box, m, clientX, clientY, width, height) {
      var ix: real, iy: real :| 0.0 <= ix < width as real && 0.0 <= iy < height as real &&
        box.left + ToScreen(m, ix, iy).x == clientX && box.top + ToScreen(m, ix, iy).y == clientY;
      ScreenThenImage(box, m, ix, iy, width, height);
    }
  }

  /** The screen position of the top-left corner for a pan of `c` on an
      axis whose box extent is `box` and image extent `img`. */
  function TopLeft(box: real, img: real, c: real): real {
    box / 2.0 - img / 2.0 + c
  }

  /** The bounds clampViewFor enforces on one axis: an image at least as
      large as the box leaves no gap at either edge; a smaller one is
      centred. */
  predicate InBounds(box: real, img: real, c: real) {
    if img >= box then box - img <= TopLeft(box, img, c) <= 0.0 else c == 0.0
  }

  /** One axis of clampViewFor (and of clampView), margin 0. */
  function ClampAxis(box: real, img: real, c: real): (n: real)
    ensures InBounds(box, img, n)
  {
    var margin := 0.0;
    var tl := TopLeft(box, img, c);
    if img >= box then
      var n1 := if tl > margin then c - (tl - margin) else c;
      if tl + img < box - margin then n1 + (box - margin - (tl + img)) else n1
    else
      var desired := box / 2.0 - img / 2.0;
      c - (tl - desired)
  }

  /** A pan changes exactly when it is out of bounds. */
  lemma ClampAxisFixes(box: real, img: real, c: real)
    ensures ClampAxis(box, img, c) == c <==> InBounds(box, img, c)
  {
  }

  /** Clamping is idempotent. */
  lemma ClampAxisIdempotent(box: real, img: real, c: real)
    ensures ClampAxis(box, img, ClampAxis(box, img, c)) == ClampAxis(box, img, c)
  {
    ClampAxisFixes(box, img, ClampAxis(box, img, c));
  }

  /** A pan that leaves a gap moves just far enough to close it. */
  lemma ClampAxisNearest(box: real, img: real, c: real)
    requires img >= box
    ensures TopLeft(box, img, c) > 0.0 ==> TopLeft(box, img, ClampAxis(box, img, c)) == 0.0
    ensures TopLeft(box, img, c) < box - img ==> TopLeft(box, img, ClampAxis(box, img, c)) == box - img
  {
  }

  /** Both axes of a pan in bounds, for an image of `width` by `height`
      pixels at `scale`. */
  predicate ViewInBounds(box: Box, width: int, height: int, scale: real, c: Coord) {
    InBounds(box.width, width as real * scale, c.x) && InBounds(box.height, height as real * scale, c.y)
  }

  /** clampViewFor with an active image: both axes clamped, each by its own
      extent. */
  function ClampViewFor(box: Box, width: int, height: int, scale: real, candidate: Coord): (c: Coord)
    ensures ViewInBounds(box, width, height, scale, c)
    ensures ViewInBounds(box, width, height, scale, candidate) <==> c == candidate
  {
    ClampAxisFixes(box.width, width as real * scale, candidate.x);
    ClampAxisFixes(box.height, height as real * scale, candidate.y);
    Coord(ClampAxis(box.width, width as real * scale, candidate.x), ClampAxis(box.height, height as real * scale, candidate.y))
  }

  /** `1 + delta * 0.15`, with `delta` -1 for a positive deltaY. */
  function ZoomFactor(deltaY: real): (f: real)
    ensures deltaY > 0.0 ==> f < 1.0
    ensures deltaY <= 0.0 ==> f > 1.0
  {
    var delta := if deltaY > 0.0 then -1.0 else 1.0;
    1.0 + delta * 0.15
  }

  /** The new scale of a wheel event: the base times the zoom factor,
      raised to the minimum scale and then capped at 200. */
  function WheelScale(base: real, minScale: real, deltaY: real): (s: real)
    ensures s <= 200.0
    ensures minScale <= 200.0 ==> s >= minScale
    ensures minScale <= base * ZoomFactor(deltaY) <= 200.0 ==> s == base * ZoomFactor(deltaY)
    ensures base * ZoomFactor(deltaY) < minScale <= 200.0 ==> s == minScale
    ensures base * ZoomFactor(deltaY) >= 200.0 || minScale > 200.0 ==> s == 200.0
  {
    var s0 := base * ZoomFactor(deltaY);
    var s1 := if s0 < minScale then minScale else s0;
    if s1 > 200.0 then 200.0 else s1
  }

  /** A wheel step down never raises the scale above the base or the
      minimum, and one up never lowers it below the base unless the cap
      of 200 applies. */
  lemma WheelDirection(base: real, minScale: real, deltaY: real)
    requires base > 0.0
    ensures deltaY > 0.0 && minScale < base ==> WheelScale(base, minScale, deltaY) < base
    ensures deltaY <= 0.0 && base < 200.0 ==> WheelScale(base, minScale, deltaY) > base
  {
  }

  /** pixelScale_after of the wheel handler. */
  function AnchorScale(dpr: real, width: int, newScale: real): (ps: real)
    requires dpr > 0.0 && width >= 1
    ensures ps > 0.0
  {
    Max(1.0, AlignToGrid(width as real * newScale, 1.0 / dpr)) / width as real
  }

  /** desiredViewX and desiredViewY of the wheel handler: the pan that puts
      the image point `pos` back under the pointer at the new scale. */
  function AnchoredPan(box: Box, dpr: real, width: int, height: int, newScale: real, clientX: real, clientY: real, pos: Coord): Coord
    requires dpr > 0.0 && width >= 1 && height >= 1
  {
    var ps := AnchorScale(dpr, width, newScale);
    var cxCenter := box.width / 2.0 - width as real * newScale / 2.0;
    var cyCenter := box.height / 2.0 - height as real * newScale / 2.0;
    Coord(clientX - box.left - cxCenter - pos.x * ps, clientY - box.top - cyCenter - pos.y * ps)
  }

  /** The anchor equation holds on each axis:
      centre + desired pan + pos * pixelScale_after = client - rect origin. */
  lemma AnchorEquation(box: Box, dpr: real, width: int, height: int, newScale: real, clientX: real, clientY: real, pos: Coord)
    requires dpr > 0.0 && width >= 1 && height >= 1
    ensures var d := AnchoredPan(box, dpr, width, height, newScale, clientX, clientY, pos);
            var ps := AnchorScale(dpr, width, newScale);
            box.width / 2.0 - width as real * newScale / 2.0 + d.x + pos.x * ps == clientX - box.left &&
            box.height / 2.0 - height as real * newScale / 2.0 + d.y + pos.y * ps == clientY - box.top
  {
  }

  /** A point whose drawn top-left corner is off by less than `e` from one
      that puts it at the target is drawn within `e` of the target. */
  lemma DrawnNear(m: Metrics, ps: real, px: real, py: real, tlx: real, tly: real, tx: real, ty: real, e: real)
    requires m.pixelScale == ps && tlx + px * ps == tx && tly + py * ps == ty
    requires tlx - e < m.cx <= tlx + e && tly - e < m.cy <= tly + e
    ensures tx - e < ToScreen(m, px, py).x <= tx + e && ty - e < ToScreen(m, px, py).y <= ty + e
  {
  }

  /** The metrics at any pan have the pixel scale of the wheel handler. */
  lemma MetricsScale(box: Box, dpr: real, width: int, height: int, scale: real, viewX: real, viewY: real)
    requires dpr > 0.0 && width >= 1 && height >= 1
    ensures ComputeImageMetrics(box, dpr, width, height, scale, viewX, viewY).pixelScale == AnchorScale(dpr, width, scale)
  {
  }

  /** At a pan aligned to the grid, the drawn origin is within one grid step
      of where the unaligned pan would put it. */
  lemma AlignedOriginNear(box: Box, dpr: real, width: int, height: int, scale: real, viewX: real, viewY: real)
    requires dpr > 0.0 && width >= 1 && height >= 1
    ensures var m := ComputeImageMetrics(box, dpr, width, height, scale,
                                         AlignToGrid(viewX, 1.0 / dpr), AlignToGrid(viewY, 1.0 / dpr));
            var tlx := box.width / 2.0 - width as real * scale / 2.0 + viewX;
            var tly := box.height / 2.0 - height as real * scale / 2.0 + viewY;
            tlx - m.align < m.cx <= tlx + m.align && tly - m.align < m.cy <= tly + m.align
  {
  }

  /** Before clamping, the anchored pan draws `pos` within half a device
      pixel of the pointer: the metrics at the new scale and pan have the
      same pixel scale, and an origin off by no more than the alignment. */
  lemma AnchorKeepsPoint(box: Box, dpr: real, width: int, height: int, newScale: real, clientX: real, clientY: real, pos: Coord)
    requires dpr > 0.0 && width >= 1 && height >= 1
    ensures var d := AnchoredPan(box, dpr, width, height, newScale, clientX, clientY, pos);
            var m := ComputeImageMetrics(box, dpr, width, height, newScale, d.x, d.y);
            var s := ToScreen(m, pos.x, pos.y);
            m.pixelScale == AnchorScale(dpr, width, newScale) &&
            clientX - box.left - m.align / 2.0 < s.x <= clientX - box.left + m.align / 2.0 &&
            clientY - box.top - m.align / 2.0 < s.y <= clientY - box.top + m.align / 2.0
  {
    var d := AnchoredPan(box, dpr, width, height, newScale, clientX, clientY, pos);
    var ps := AnchorScale(dpr, width, newScale);
    var tlx := box.width / 2.0 - width as real * newScale / 2.0 + d.x;
    var tly := box.height / 2.0 - height as real * newScale / 2.0 + d.y;
    assert tlx + pos.x * ps == clientX - box.left && tly + pos.y * ps == clientY - box.top by {
      AnchorEquation(box, dpr, width, height, newScale, clientX, clientY, pos);
    }
    var m := ComputeImageMetrics(box, dpr, width, height, newScale, d.x, d.y);
    assert m.pixelScale == ps by {
      MetricsScale(box, dpr, width, height, newScale, d.x, d.y);
    }
    DrawnNear(m, ps, pos.x, pos.y, tlx, tly, clientX - box.left, clientY - box.top, m.align / 2.0);
  }

  /** A pan that puts the image point (px, py) at (tx, ty) at the wheel's
      pixel scale, once aligned to the grid, draws that point within one
      device pixel of (tx, ty). */
  lemma AlignedPanDraws(box: Box, dpr: real, width: int, height: int, scale: real, v: Coord, px: real, py: real, tx: real, ty: real)
    requires dpr > 0.0 && width >= 1 && height >= 1
    requires var ps := AnchorScale(dpr, width, scale);
             box.width / 2.0 - width as real * scale / 2.0 + v.x + px * ps == tx &&
             box.height / 2.0 - height as real * scale / 2.0 + v.y + py * ps == ty
    ensures var m := ComputeImageMetrics(box, dpr, width, height, scale,
                                         AlignToGrid(v.x, 1.0 / dpr), AlignToGrid(v.y, 1.0 / dpr));
            var s := ToScreen(m, px, py);
            m.pixelScale == AnchorScale(dpr, width, scale) &&
            tx - m.align < s.x <= tx + m.align && ty - m.align < s.y <= ty + m.align
  {
    var ps := AnchorScale(dpr, width, scale);
    var tlx := box.width / 2.0 - width as real * scale / 2.0 + v.x;
    var tly := box.height / 2.0 - height as real * scale / 2.0 + v.y;
    var align := 1.0 / dpr;
    var ax, ay := AlignToGrid(v.x, align), AlignToGrid(v.y, align);
    var m := ComputeImageMetrics(box, dpr, width, height, scale, ax, ay);
    assert m.pixelScale == ps && m.align == align by {
      MetricsScale(box, dpr, width, height, scale, ax, ay);
    }
    assert tlx - align < m.cx <= tlx + align && tly - align < m.cy <= tly + align by {
      AlignedOriginNear(box, dpr, width, height, scale, v.x, v.y);
    }
    DrawnNear(m, ps, px, py, tlx, tly, tx, ty, align);
  }

  /** The anchored pan aligned to the grid draws `pos` within one device
      pixel of the pointer on both axes. */
  lemma AlignedAnchorKeepsPoint(box: Box, dpr: real, width: int, height: int, newScale: real, clientX: real, clientY: real, pos: Coord)
    requires dpr > 0.0 && width >= 1 && height >= 1
    ensures var d := AnchoredPan(box, dpr, width, height, newScale, clientX, clientY, pos);
            var m := ComputeImageMetrics(box, dpr, width, height, newScale,
                                         AlignToGrid(d.x, 1.0 / dpr), AlignToGrid(d.y, 1.0 / dpr));
            var s := ToScreen(m, pos.x, pos.y);
            m.pixelScale == AnchorScale(dpr, width, newScale) &&
            clientX - box.left - m.align < s.x <= clientX - box.left + m.align &&
            clientY - box.top - m.align < s.y <= clientY - box.top + m.align
  {
    var d := AnchoredPan(box, dpr, width, height, newScale, clientX, clientY, pos);
    AnchorEquation(box, dpr, width, height, newScale, clientX, clientY, pos);
    AlignedPanDraws(box, dpr, width, height, newScale, d, pos.x, pos.y, clientX - box.left, clientY - box.top);
  }

  /** The pan the wheel handler commits: when clamping leaves the anchored
      pan alone, the committed pan, clamped and then aligned to the grid,
      draws `pos` within one device pixel of the pointer on both axes. */
  lemma WheelKeepsPoint(box: Box, dpr: real, width: int, height: int, newScale: real, clientX: real, clientY: real, pos: Coord)
    requires dpr > 0.0 && width >= 1 && height >= 1
    requires var d := AnchoredPan(box, dpr, width, height, newScale, clientX, clientY, pos);
             ClampViewFor(box, width, height, newScale, d) == d
    ensures var c := ClampViewFor(box, width, height, newScale,
                                  AnchoredPan(box, dpr, width, height, newScale, clientX, clientY, pos));
            var m := ComputeImageMetrics(box, dpr, width, height, newScale,
                                         AlignToGrid(c.x, 1.0 / dpr), AlignToGrid(c.y, 1.0 / dpr));
            var s := ToScreen(m, pos.x, pos.y);
            m.pixelScale == AnchorScale(dpr, width, newScale) &&
            clientX - box.left - m.align < s.x <= clientX - box.left + m.align &&
            clientY - box.top - m.align < s.y <= clientY - box.top + m.align
  {
    AlignedAnchorKeepsPoint(box, dpr, width, height, newScale, clientX, clientY, pos);
  }

}
