/** The state of the image workspace (frontend/src/components/ImageWorkspace.tsx)
    and its event handlers.  React state and refs are fields of one object;
    a handler sees the state the previous handlers left.  The canvas box,
    the device pixel ratio, the pressed keys and the pointer position are
    parameters of the handlers. */
module Workspace {
  import opened Wrappers
  import opened Js
  import opened Viewport
  import Census
  import Convert

  /** A decoded image: its id, its size and its RGBA pixels, four bytes per
      pixel, row by row. */
  datatype LoadedImage = LoadedImage(id: string, width: int, height: int, pixels: seq<byte>)

  predicate WellFormed(img: LoadedImage) {
    img.width >= 1 && img.height >= 1 && |img.pixels| == 4 * img.width * img.height
  }

  datatype Tool = Picker | Measure

  /** A whole pixel of the image. */
  datatype Point = Point(x: int, y: int)

  datatype Axis = Horizontal | Vertical

  /** snappingRef: whether Shift locks the measurement, and to which axis. */
  datatype Snapping = Snapping(active: bool, axis: Option<Axis>)

  /** The measure state; the distance is kept squared. */
  datatype Measurement = Measurement(start: Option<Point>, end: Option<Point>, distanceSquared: Option<int>)

  /** Some image of the list has the id (no id is always listed). */
  predicate Listed(images: seq<LoadedImage>, id: Option<string>) {
    id.None? || exists i :: 0 <= i < |images| && images[i].id == id.value
  }

  /** `images.find((i) => i.id === activeId) || null`: the first image with
      the id. */
  function Find(images: seq<LoadedImage>, id: Option<string>): (r: Option<LoadedImage>)
    ensures r.Some? <==> id.Some? && Listed(images, id)
    ensures r.Some? ==> r.value in images && r.value.id == id.value
    ensures r.Some? ==> exists i :: 0 <= i < |images| && images[i] == r.value &&
                          forall j :: 0 <= j < i ==> images[j].id != id.value
  {
    if id.None? || images == [] then None
    else if images[0].id == id.value then Some(images[0])
    else
      var r := Find(images[1..], id);
      assert Listed(images, id) ==> Listed(images[1..], id) by {
        if Listed(images, id) {
          var i :| 0 <= i < |images| && images[i].id == id.value;
          assert images[1..][i - 1] == images[i];
        }
      }
      if r.Some? then
        var i :| 0 <= i < |images[1..]| && images[1..][i] == r.value &&
                 forall j :: 0 <= j < i ==> images[1..][j].id != id.value;
        assert images[i + 1] == r.value;
        assert forall j :: 1 <= j < i + 1 ==> images[j].id == images[1..][j - 1].id;
        r
      else r
  }

  /** `prev.filter((p) => p.id !== id)` */
  function Without(images: seq<LoadedImage>, id: string): (r: seq<LoadedImage>)
    ensures forall x :: x in r <==> x in images && x.id != id
    ensures |r| <= |images|
    ensures r != [] ==> exists i :: 0 <= i < |images| && images[i] == r[0] &&
                          forall j :: 0 <= j < i ==> images[j].id == id
  {
    if images == [] then []
    else if images[0].id == id then
      var r := Without(images[1..], id);
      if r == [] then r
      else
        var i :| 0 <= i < |images[1..]| && images[1..][i] == r[0] &&
                 forall j :: 0 <= j < i ==> images[1..][j].id == id;
        assert images[i + 1] == r[0];
        assert forall j :: 1 <= j < i + 1 ==> images[j].id == images[1..][j - 1].id;
        r
    else [images[0]] + Without(images[1..], id)
  }

  /** The filter keeps order and multiplicity: it works element by element,
      an image with the id going and any other staying. */
  lemma {:induction false} WithoutConcat(a: seq<LoadedImage>, b: seq<LoadedImage>, id: string)
    ensures Without(a + b, id) == Without(a, id) + Without(b, id)
  {
    if a == [] {
      assert a + b == b;
    } else {
      var ab := a + b;
      assert ab[0] == a[0] && ab[1..] == a[1..] + b;
      WithoutConcat(a[1..], b, id);
      if a[0].id == id {
        assert Without(ab, id) == Without(a[1..] + b, id);
      } else {
        assert Without(ab, id) == [a[0]] + Without(a[1..] + b, id);
      }
    }
  }

  /** A single image is kept exactly when its id differs. */
  lemma WithoutOne(u: LoadedImage, id: string)
    ensures Without([u], id) == if u.id == id then [] else [u]
  {
    assert [u][1..] == [];
  }

  /** The active id after removeImage: the first remaining image when the
      active one goes, otherwise the old one. */
  function NextActive(images: seq<LoadedImage>, activeId: Option<string>, id: string): Option<string> {
    if activeId == Some(id) then
      var remaining := Without(images, id);
      if |remaining| > 0 then Some(remaining[0].id) else None
    else activeId
  }

  /** Removing an image keeps the active id on a listed image, and never on
      the removed one. */
  lemma RemoveKeepsActive(images: seq<LoadedImage>, activeId: Option<string>, id: string)
    requires Listed(images, activeId)
    ensures Listed(Without(images, id), NextActive(images, activeId, id))
    ensures NextActive(images, activeId, id) != Some(id)
    ensures activeId != Some(id) ==> NextActive(images, activeId, id) == activeId
    ensures activeId == Some(id) ==>
              (NextActive(images, activeId, id).None? <==> forall i :: 0 <= i < |images| ==> images[i].id == id)
    ensures activeId == Some(id) && NextActive(images, activeId, id).Some? ==>
              exists i :: 0 <= i < |images| && images[i].id == NextActive(images, activeId, id).value &&
                          images[i].id != id && forall j :: 0 <= j < i ==> images[j].id == id
  {
    var rest := Without(images, id);
    var next := NextActive(images, activeId, id);
    if activeId != Some(id) && activeId.Some? {
      var i :| 0 <= i < |images| && images[i].id == activeId.value;
      assert images[i] in rest;
      var j :| 0 <= j < |rest| && rest[j] == images[i];
    } else if rest != [] {
      assert rest[0] in rest;
    } else {
      forall i | 0 <= i < |images|
        ensures images[i].id == id
      {
        assert images[i] in images;
      }
    }
  }

  /** The id handleFiles activates: the first new image when none is active. */
  function ActiveAfterLoad(activeId: Option<string>, loaded: seq<LoadedImage>): Option<string> {
    if activeId.None? && |loaded| > 0 then Some(loaded[0].id) else activeId
  }

  /** Loading keeps the active id listed. */
  lemma LoadKeepsActive(images: seq<LoadedImage>, activeId: Option<string>, loaded: seq<LoadedImage>)
    requires Listed(images, activeId)
    ensures Listed(images + loaded, ActiveAfterLoad(activeId, loaded))
    ensures activeId.Some? ==> ActiveAfterLoad(activeId, loaded) == activeId
    ensures activeId.None? && loaded != [] ==> Find(images + loaded, ActiveAfterLoad(activeId, loaded)).Some?
  {
    var all := images + loaded;
    if activeId.Some? {
      var i :| 0 <= i < |images| && images[i].id == activeId.value;
      assert all[i] == images[i];
    } else if loaded != [] {
      assert all[|images|] == loaded[0];
    }
  }

  /** `Math.floor` of both coordinates. */
  function FloorPoint(p: Coord): (q: Point)
    ensures q.x as real <= p.x < q.x as real + 1.0 && q.y as real <= p.y < q.y as real + 1.0
  {
    Point(p.x.Floor, p.y.Floor)
  }

  /** The pixel under a point of the image lies inside the image. */
  lemma FloorInside(p: Coord, width: int, height: int)
    requires 0.0 <= p.x < width as real && 0.0 <= p.y < height as real
    ensures 0 <= FloorPoint(p).x < width && 0 <= FloorPoint(p).y < height
  {
  }

  /** The red, green and blue bytes of pixel (x, y). */
  function PixelAt(img: LoadedImage, x: int, y: int): Census.Rgb
    requires WellFormed(img) && 0 <= x < img.width && 0 <= y < img.height
  {
    Census.PixelOffsetInside(img.width, img.height, x, y);
    var i := Census.PixelOffset(img.width, x, y);
    Census.Rgb(img.pixels[i], img.pixels[i + 1], img.pixels[i + 2])
  }

  /** pickColorAt: the upper-case hex of the red, green and blue bytes of
      the pixel under (ix, iy), whatever its alpha. */
  function PickColor(img: LoadedImage, ix: real, iy: real): (c: string)
    requires WellFormed(img)
    requires 0.0 <= ix < img.width as real && 0.0 <= iy < img.height as real
    ensures |c| == 7 && c[0] == '#'
    ensures forall i :: 1 <= i < 7 ==> Census.IsUpperHexDigit(c[i]) && IsHexDigit(c[i])
    ensures var px := PixelAt(img, ix.Floor, iy.Floor);
            PairValue(c, 1) == px.r && PairValue(c, 3) == px.g && PairValue(c, 5) == px.b
  {
    var px := PixelAt(img, ix.Floor, iy.Floor);
    Census.ToHex(px.r, px.g, px.b)
  }

  /** The picked colour, read back by hexToRgb, is the pixel's colour. */
  lemma PickedColorReadsBack(img: LoadedImage, ix: real, iy: real)
    requires WellFormed(img)
    requires 0.0 <= ix < img.width as real && 0.0 <= iy < img.height as real
    ensures Convert.HexToRgb(PickColor(img, ix, iy)) == PixelAt(img, ix.Floor, iy.Floor)
  {
    var px := PixelAt(img, ix.Floor, iy.Floor);
    Convert.ReadsWorkerKeys(px.r, px.g, px.b);
  }

  function Abs(v: int): nat {
    if v < 0 then -v else v
  }

  /** The end point and snapping of a measure move to pixel (ex, ey). */
  datatype Snap = Snap(end: Point, snapping: Snapping)

  /** The Shift snapping of the measure tool: the larger move wins, a tie
      counts as horizontal. */
  function SnapEnd(start: Point, ex: int, ey: int, shift: bool): (s: Snap)
    ensures !shift ==> s == Snap(Point(ex, ey), Snapping(false, None))
    ensures shift && Abs(ex - start.x) >= Abs(ey - start.y) ==>
              s == Snap(Point(ex, start.y), Snapping(true, Some(Horizontal)))
    ensures shift && Abs(ex - start.x) < Abs(ey - start.y) ==>
              s == Snap(Point(start.x, ey), Snapping(true, Some(Vertical)))
  {
    if shift then
      var dx := ex - start.x;
      var dy := ey - start.y;
      if Abs(dx) >= Abs(dy) then Snap(Point(ex, start.y), Snapping(true, Some(Horizontal)))
      else Snap(Point(start.x, ey), Snapping(true, Some(Vertical)))
    else Snap(Point(ex, ey), Snapping(false, None))
  }

  /** `dx2 * dx2 + dy2 * dy2`, the square of the measured distance. */
  function DistanceSquared(start: Point, end: Point): (d: int)
    ensures d >= 0
  {
    var dx := end.x - start.x;
    var dy := end.y - start.y;
    dx * dx + dy * dy
  }

  /** A snapped segment is parallel to an axis and as long as the larger of
      the two moves; the axis named is the one it lies along. */
  lemma SnapLocksAxis(start: Point, ex: int, ey: int)
    ensures var s := SnapEnd(start, ex, ey, true);
            var m := if Abs(ex - start.x) >= Abs(ey - start.y) then Abs(ex - start.x) else Abs(ey - start.y);
            (s.snapping.axis == Some(Horizontal) ==> s.end.y == start.y) &&
            (s.snapping.axis == Some(Vertical) ==> s.end.x == start.x) &&
            DistanceSquared(start, s.end) == m * m
  {
  }

  class ImageWorkspace {
    var images: seq<LoadedImage>
    var activeId: Option<string>
    /** The scale state and scaleRef; the effect that copies one into the
        other after each render keeps them equal between events. */
    var scale: real
    var minScale: real
    var viewX: real
    var viewY: real
    var dragging: bool
    var lastX: real
    var lastY: real
    var color: string
    var measure: Measurement
    var shiftPressed: bool
    var snapping: Snapping

    /** Every image loaded is well formed. */
    predicate Valid()
      reads this`images
    {
      forall img :: img in images ==> WellFormed(img)
    }

    /** activeImage */
    function ActiveImage(): (a: Option<LoadedImage>)
      reads this`images, this`activeId
      requires Valid()
      ensures a.Some? ==> WellFormed(a.value)
    {
      Find(images, activeId)
    }

    /** toImageCoord at the current scale and pan. */
    function ImageCoordAt(box: Box, dpr: real, clientX: real, clientY: real): (p: Option<Coord>)
      reads this`images, this`activeId, this`scale, this`viewX, this`viewY
      requires Valid() && dpr > 0.0
      ensures p.Some? ==> ActiveImage().Some? &&
                          0.0 <= p.value.x < ActiveImage().value.width as real &&
                          0.0 <= p.value.y < ActiveImage().value.height as real
    {
      match ActiveImage()
      case None => None
      case Some(img) =>
        var m := ComputeImageMetrics(box, dpr, img.width, img.height, scale, viewX, viewY);
        ToImageCoord(box, m, clientX, clientY, img.width, img.height)
    }

    constructor ()
      ensures images == [] && activeId.None? && Valid()
      ensures scale == 1.0 && minScale == 1.0
      ensures viewX == 0.0 && viewY == 0.0 && !dragging && lastX == 0.0 && lastY == 0.0
      ensures color == "无" && measure == Measurement(None, None, None)
      ensures !shiftPressed && snapping == Snapping(false, None)
    {
      images := [];
      activeId := None;
      scale := 1.0;
      minScale := 1.0;
      viewX, viewY := 0.0, 0.0;
      dragging := false;
      lastX, lastY := 0.0, 0.0;
      color := "无";
      measure := Measurement(None, None, None);
      shiftPressed := false;
      snapping := Snapping(false, None);
    }

    /** The `then` of handleFiles: the decoded images are appended, and the
        first becomes active when none is. */
    method AddImages(loaded: seq<LoadedImage>)
      requires Valid() && forall img :: img in loaded ==> WellFormed(img)
      modifies this`images, this`activeId
      ensures Valid()
      ensures images == old(images) + loaded
      ensures activeId == ActiveAfterLoad(old(activeId), loaded)
    {
      images := images + loaded;
      if activeId.None? && |loaded| > 0 {
        activeId := Some(loaded[0].id);
      }
    }

    /** removeImage */
    method RemoveImage(id: string)
      requires Valid()
      modifies this`images, this`activeId
      ensures Valid()
      ensures images == Without(old(images), id)
      ensures activeId == NextActive(old(images), old(activeId), id)
      ensures Listed(old(images), old(activeId)) ==> Listed(images, activeId)
    {
      ghost var before := images;
      ghost var wasActive := activeId;
      var next := NextActive(images, activeId, id);
      images := Without(images, id);
      activeId := next;
      if Listed(before, wasActive) {
        RemoveKeepsActive(before, wasActive, id);
      }
    }

    /** The effect that runs when the active image changes: the minimum
        scale becomes its cover fit, the scale is raised to it and the pan
        is reset. */
    method Activate(container: Option<Box>)
      requires Valid()
      modifies this`minScale, this`scale, this`viewX, this`viewY
      ensures ActiveImage().None? ==> minScale == old(minScale) && scale == old(scale) &&
                                      viewX == old(viewX) && viewY == old(viewY)
      ensures ActiveImage().Some? ==>
                minScale == MinScale(container, ActiveImage().value.width, ActiveImage().value.height) &&
                scale == (if old(scale) < minScale then minScale else old(scale)) &&
                viewX == 0.0 && viewY == 0.0
      ensures scale >= old(scale) && (ActiveImage().Some? ==> scale >= minScale)
    {
      var active := ActiveImage();
      if active.None? {
        return;
      }
      var s := MinScale(container, active.value.width, active.value.height);
      minScale := s;
      if scale < s {
        scale := s;
      }
      viewX, viewY := 0.0, 0.0;
    }

    /** clampView at the current scale; it writes only a changed pan. */
    method ClampView(box: Box)
      requires Valid()
      modifies this`viewX, this`viewY
      ensures ActiveImage().None? ==> viewX == old(viewX) && viewY == old(viewY)
      ensures ActiveImage().Some? ==>
                var img := ActiveImage().value;
                Coord(viewX, viewY) == ClampViewFor(box, img.width, img.height, scale, Coord(old(viewX), old(viewY)))
    {
      var active := ActiveImage();
      if active.None? {
        return;
      }
      var img := active.value;
      var c := ClampViewFor(box, img.width, img.height, scale, Coord(viewX, viewY));
      if c.x != viewX || c.y != viewY {
        viewX, viewY := c.x, c.y;
      }
    }

    /** handleWheelNative up to its animation frame (whose clampView is
        ClampView): the new scale, and for a pointer over the image the
        anchored, clamped and aligned pan. */
    method Wheel(box: Box, dpr: real, deltaY: real, clientX: real, clientY: real)
      requires Valid() && dpr > 0.0
      modifies this`scale, this`viewX, this`viewY
      ensures ActiveImage().None? ==> scale == old(scale) && viewX == old(viewX) && viewY == old(viewY)
      ensures ActiveImage().Some? ==> scale == WheelScale(old(scale), minScale, deltaY)
      ensures ActiveImage().Some? ==> scale <= 200.0 && (minScale <= 200.0 ==> scale >= minScale)
      ensures ActiveImage().Some? ==>
                var img := ActiveImage().value;
                var pos := old(ImageCoordAt(box, dpr, clientX, clientY));
                if pos.None? then viewX == old(viewX) && viewY == old(viewY)
                else
                  var c := ClampViewFor(box, img.width, img.height, scale,
                                        AnchoredPan(box, dpr, img.width, img.height, scale, clientX, clientY, pos.value));
                  viewX == AlignToGrid(c.x, 1.0 / dpr) && viewY == AlignToGrid(c.y, 1.0 / dpr) &&
                  OnGrid(viewX, 1.0 / dpr) && OnGrid(viewY, 1.0 / dpr)
    {
      var active := ActiveImage();
      if active.None? {
        return;
      }
      var img := active.value;
      var newScale := WheelScale(scale, minScale, deltaY);
      var pos := ImageCoordAt(box, dpr, clientX, clientY);
      if pos.Some? {
        var align := 1.0 / dpr;
        var desired := AnchoredPan(box, dpr, img.width, img.height, newScale, clientX, clientY, pos.value);
        var clamped := ClampViewFor(box, img.width, img.height, newScale, desired);
        viewX := AlignToGrid(clamped.x, align);
        viewY := AlignToGrid(clamped.y, align);
      }
      scale := newScale;
    }

    /** handlePointerDown */
    method PointerDown(box: Box, dpr: real, tool: Tool, spacePressed: bool, shiftKey: bool, clientX: real, clientY: real)
      requires Valid() && dpr > 0.0
      modifies this`shiftPressed, this`dragging, this`lastX, this`lastY, this`color, this`measure, this`snapping
      ensures shiftPressed == shiftKey
      ensures spacePressed ==> dragging && lastX == clientX && lastY == clientY &&
                               color == old(color) && measure == old(measure) && snapping == old(snapping)
      ensures !spacePressed ==> dragging == old(dragging) && lastX == old(lastX) && lastY == old(lastY)
      ensures !spacePressed && tool == Picker ==>
                measure == old(measure) && snapping == old(snapping) &&
                var pos := ImageCoordAt(box, dpr, clientX, clientY);
                color == if pos.Some? then PickColor(ActiveImage().value, pos.value.x, pos.value.y) else old(color)
      ensures !spacePressed && tool == Measure ==>
                color == old(color) &&
                var pos := ImageCoordAt(box, dpr, clientX, clientY);
                if pos.Some? then
                  measure == Measurement(Some(FloorPoint(pos.value)), None, None) && snapping == Snapping(shiftKey, None)
                else measure == old(measure) && snapping == old(snapping)
    {
      shiftPressed := shiftKey;
      if spacePressed {
        dragging := true;
        lastX, lastY := clientX, clientY;
      } else if tool == Picker {
        var pos := ImageCoordAt(box, dpr, clientX, clientY);
        if pos.Some? {
          color := PickColor(ActiveImage().value, pos.value.x, pos.value.y);
        }
      } else {
        var pos := ImageCoordAt(box, dpr, clientX, clientY);
        if pos.Some? {
          measure := Measurement(Some(FloorPoint(pos.value)), None, None);
          snapping := Snapping(shiftKey, None);
        }
      }
    }

    /** The drag branch of handlePointerMove: the pan follows the pointer,
        is aligned to the device-pixel grid and clamped. */
    method Drag(box: Box, dpr: real, clientX: real, clientY: real)
      requires Valid() && dpr > 0.0
      modifies this`lastX, this`lastY, this`viewX, this`viewY
      ensures lastX == clientX && lastY == clientY
      ensures ActiveImage().None? ==>
                viewX == old(viewX) + (clientX - old(lastX)) && viewY == old(viewY) + (clientY - old(lastY))
      ensures ActiveImage().Some? ==>
                var img := ActiveImage().value;
                var moved := Coord(AlignToGrid(old(viewX) + (clientX - old(lastX)), 1.0 / dpr),
                                   AlignToGrid(old(viewY) + (clientY - old(lastY)), 1.0 / dpr));
                Coord(viewX, viewY) == ClampViewFor(box, img.width, img.height, scale, moved)
    {
      var dx := clientX - lastX;
      var dy := clientY - lastY;
      lastX, lastY := clientX, clientY;
      viewX, viewY := viewX + dx, viewY + dy;
      if ActiveImage().Some? {
        var align := 1.0 / dpr;
        viewX := AlignToGrid(viewX, align);
        viewY := AlignToGrid(viewY, align);
      }
      ClampView(box);
    }

    /** The measure branch of handlePointerMove: with a start, a pointer over
        the image moves the end to its pixel, snapped while Shift is held. */
    method MeasureMove(box: Box, dpr: real, shiftKey: bool, clientX: real, clientY: real)
      requires Valid() && dpr > 0.0
      modifies this`measure, this`snapping
      ensures var pos := ImageCoordAt(box, dpr, clientX, clientY);
              if old(measure).start.Some? && pos.Some? then
                var start := old(measure).start.value;
                var p := FloorPoint(pos.value);
                var s := SnapEnd(start, p.x, p.y, shiftKey);
                snapping == s.snapping &&
                measure == Measurement(Some(start), Some(s.end), Some(DistanceSquared(start, s.end)))
              else measure == old(measure) && snapping == old(snapping)
    {
      if measure.start.None? {
        return;
      }
      var pos := ImageCoordAt(box, dpr, clientX, clientY);
      if pos.None? {
        return;
      }
      var start := measure.start.value;
      var p := FloorPoint(pos.value);
      var s := SnapEnd(start, p.x, p.y, shiftKey);
      snapping := s.snapping;
      measure := Measurement(measure.start, Some(s.end), Some(DistanceSquared(start, s.end)));
    }

    /** handlePointerMove: a drag pans; otherwise the measure tool measures
        (the picker only reports a status). */
    method PointerMove(box: Box, dpr: real, tool: Tool, shiftKey: bool, clientX: real, clientY: real)
      requires Valid() && dpr > 0.0
      modifies this`shiftPressed, this`lastX, this`lastY, this`viewX, this`viewY, this`measure, this`snapping
      ensures shiftPressed == shiftKey
      ensures dragging ==> lastX == clientX && lastY == clientY && measure == old(measure) && snapping == old(snapping)
      ensures dragging && ActiveImage().None? ==>
                viewX == old(viewX) + (clientX - old(lastX)) && viewY == old(viewY) + (clientY - old(lastY))
      ensures dragging && ActiveImage().Some? ==>
                var img := ActiveImage().value;
                var moved := Coord(AlignToGrid(old(viewX) + (clientX - old(lastX)), 1.0 / dpr),
                                   AlignToGrid(old(viewY) + (clientY - old(lastY)), 1.0 / dpr));
                Coord(viewX, viewY) == ClampViewFor(box, img.width, img.height, scale, moved) &&
                ViewInBounds(box, img.width, img.height, scale, Coord(viewX, viewY))
      ensures !dragging ==> lastX == old(lastX) && lastY == old(lastY) && viewX == old(viewX) && viewY == old(viewY)
      ensures !dragging && tool == Picker ==> measure == old(measure) && snapping == old(snapping)
      ensures !dragging && tool == Measure ==>
                var pos := ImageCoordAt(box, dpr, clientX, clientY);
                if old(measure).start.Some? && pos.Some? then
                  var start := old(measure).start.value;
                  var p := FloorPoint(pos.value);
                  var s := SnapEnd(start, p.x, p.y, shiftKey);
                  snapping == s.snapping &&
                  measure == Measurement(Some(start), Some(s.end), Some(DistanceSquared(start, s.end)))
                else measure == old(measure) && snapping == old(snapping)
    {
      shiftPressed := shiftKey;
      if dragging {
        Drag(box, dpr, clientX, clientY);
      } else if tool == Measure {
        MeasureMove(box, dpr, shiftKey, clientX, clientY);
      }
    }

    /** handlePointerUp: a drag ends with a clamp; Shift and snapping are
        cleared. */
    method PointerUp(box: Box)
      requires Valid()
      modifies this`dragging, this`viewX, this`viewY, this`shiftPressed, this`snapping
      ensures !dragging && !shiftPressed && snapping == Snapping(false, None)
      ensures old(dragging) && ActiveImage().Some? ==>
                var img := ActiveImage().value;
                Coord(viewX, viewY) == ClampViewFor(box, img.width, img.height, scale, Coord(old(viewX), old(viewY)))
      ensures !old(dragging) || ActiveImage().None? ==> viewX == old(viewX) && viewY == old(viewY)
    {
      if dragging {
        dragging := false;
        ClampView(box);
      }
      shiftPressed := false;
      snapping := Snapping(false, None);
    }
  }
}
