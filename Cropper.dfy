/** The square-crop tool: the press/drag/release selection state kept by the
    window, and the ceiling-mode quality search used when the crop is saved. */
module Cropper {
  import opened Common

  /** A selection as the canvas reports it: the anchor (x1, y1) and the far
      corner (x2, y2). It is never normalised, so x2 < x1 or y2 < y1 happen. */
  datatype Rect = Rect(x1: int, y1: int, x2: int, y2: int)

  predicate IsSquare(r: Rect)
  {
    Abs(r.x2 - r.x1) == Abs(r.y2 - r.y1)
  }

  /** m lies on the closed segment between a and b, in either order. */
  predicate Between(a: int, m: int, b: int)
  {
    (a <= m <= b) || (b <= m <= a)
  }

  /** The coordinate `side` away from the anchor, on the pointer's side of it. */
  function Toward(anchor: int, pointer: int, side: nat): int
  {
    if pointer < anchor then anchor - side else anchor + side
  }

  /** The square that the drag and release handlers compute from the anchor
      (sx, sy) and the pointer (ex, ey): anchored at the press point, with the
      smaller of the two pointer offsets as its side, and its far corner inside
      the box spanned by anchor and pointer, so it grows toward the pointer. */
  function SquareTo(sx: int, sy: int, ex: int, ey: int): (r: Rect)
    ensures r.x1 == sx && r.y1 == sy
    ensures IsSquare(r)
    ensures Abs(r.x2 - r.x1) == Min(Abs(ex - sx), Abs(ey - sy))
    ensures Between(sx, r.x2, ex) && Between(sy, r.y2, ey)
  {
    var side := Min(Abs(ex - sx), Abs(ey - sy));
    Rect(sx, sy, Toward(sx, ex, side), Toward(sy, ey, side))
  }

  /** No larger square anchored at the press point, grown toward the pointer,
      fits inside the box spanned by anchor and pointer. */
  lemma SquareIsLargest(sx: int, sy: int, ex: int, ey: int, side: nat)
    requires Between(sx, Toward(sx, ex, side), ex) && Between(sy, Toward(sy, ey, side), ey)
    ensures side <= Abs(SquareTo(sx, sy, ex, ey).x2 - sx)
  {
  }

  /** Dragging up and to the left yields a rectangle whose far corner is above
      and to the left of its anchor: the selection is not normalised. */
  lemma SelectionNotNormalised(sx: int, sy: int, ex: int, ey: int)
    requires ex < sx && ey < sy
    ensures var r := SquareTo(sx, sy, ex, ey);
      r.x2 < r.x1 && r.y2 < r.y1
  {
  }

  /** Where a slice bound `i` falls along an axis of length n: a negative
      bound counts from the end, and the result is clamped to [0, n]. */
  function SliceBound(i: int, n: nat): (b: nat)
    ensures b <= n
    ensures 0 <= i ==> b == Min(i, n)
    ensures i < 0 ==> b == (if n + i < 0 then 0 else n + i)
  {
    if i < 0 then (if n + i < 0 then 0 else n + i)
    else if i < n then i else n
  }

  /** The crop `image[y1:y2, x1:x2]` is empty when on either axis its end
      does not lie past its start, once both bounds are placed as slicing
      places them. Converting an empty crop raises. */
  predicate CropIsEmpty(r: Rect, image: Image)
  {
    || SliceBound(r.x2, image.width) <= SliceBound(r.x1, image.width)
    || SliceBound(r.y2, image.height) <= SliceBound(r.y1, image.height)
  }

  /** For a press on the canvas and a far corner with non-negative
      coordinates, a square selection crops something only when the pointer
      went strictly down and to the right of a press point inside the image:
      a drag up or left, a click, or a press in the margin beside the fitted
      image leaves the crop empty. */
  lemma OnlyDownRightDragCrops(sx: int, sy: int, ex: int, ey: int, image: Image)
    requires 0 <= sx && 0 <= sy
    requires 0 <= SquareTo(sx, sy, ex, ey).x2 && 0 <= SquareTo(sx, sy, ex, ey).y2
    ensures CropIsEmpty(SquareTo(sx, sy, ex, ey), image) <==>
      !(sx < ex && sy < ey) || sx >= image.width || sy >= image.height
  {
  }

  /** A release left of the canvas can put the far corner at a negative
      coordinate, which slicing counts from the image's right edge: the square
      (50,50)-(-10,110) on a 100 x 100 image keeps 40 columns and 50 rows. */
  lemma NegativeCornerCountsFromEnd()
    ensures SquareTo(50, 50, -10, 110) == Rect(50, 50, -10, 110)
    ensures SliceBound(-10, 100) - SliceBound(50, 100) == 40
    ensures SliceBound(110, 100) - SliceBound(50, 100) == 50
    ensures !CropIsEmpty(Rect(50, 50, -10, 110), Image(100, 100, true))
  {
  }

  // ---------------------------------------------------------------------
  // Ceiling-mode quality search

  /** The search accepts quality q when the encoding fits the byte limit or
      the floor has been reached. */
  predicate CeilingStops(size: int -> nat, limit: int, q: int)
  {
    size(q) <= limit || q <= FloorQuality
  }

  /** The quality the ceiling search settles on when it starts at q. */
  function CeilingQuality(size: int -> nat, limit: int, q: int): int
    decreases q
  {
    if CeilingStops(size, limit, q) then q
    else CeilingQuality(size, limit, q - QualityStep)
  }

  /** Starting from a multiple of 5 not below the floor, the chosen quality is
      a multiple of 5 between the floor and the start, it fits the limit unless
      it is the floor, and every higher quality on the way was too large. */
  lemma {:induction false} CeilingQualityIsHighest(size: int -> nat, limit: int, q0: int)
    requires FloorQuality <= q0 && q0 % QualityStep == 0
    ensures var q := CeilingQuality(size, limit, q0);
      && FloorQuality <= q <= q0 && q % QualityStep == 0
      && (q > FloorQuality ==> size(q) <= limit)
      && (forall p :: q < p <= q0 && p % QualityStep == 0 ==> size(p) > limit)
  {
    if !CeilingStops(size, limit, q0) {
      CeilingQualityIsHighest(size, limit, q0 - QualityStep);
    }
  }

  /** The properties of CeilingQualityIsHighest determine the chosen quality:
      any quality that has them is the one the search returns. */
  lemma CeilingChoiceUnique(size: int -> nat, limit: int, q0: int, q: int)
    requires FloorQuality <= q0 && q0 % QualityStep == 0
    requires FloorQuality <= q <= q0 && q % QualityStep == 0
    requires q > FloorQuality ==> size(q) <= limit
    requires forall p :: q < p <= q0 && p % QualityStep == 0 ==> size(p) > limit
    ensures q == CeilingQuality(size, limit, q0)
  {
    CeilingQualityIsHighest(size, limit, q0);
  }

  /** The loop of the crop export: encode at 95, 90, ... until the size fits
      `limit` or the quality reaches 10. Returns the quality kept and the number
      of encodings made, at most 18. */
  method CeilingSearch(size: int -> nat, limit: int) returns (quality: int, encodings: nat)
    ensures quality == CeilingQuality(size, limit, StartQuality)
    ensures FloorQuality <= quality <= StartQuality && quality % QualityStep == 0
    ensures quality > FloorQuality ==> size(quality) <= limit
    ensures forall p :: quality < p <= StartQuality && p % QualityStep == 0 ==> size(p) > limit
    ensures encodings == (StartQuality - quality) / QualityStep + 1 <= 18
  {
    quality := StartQuality;
    encodings := 0;
    while true
      invariant FloorQuality <= quality <= StartQuality && quality % QualityStep == 0
      invariant encodings == (StartQuality - quality) / QualityStep
      invariant CeilingQuality(size, limit, quality) == CeilingQuality(size, limit, StartQuality)
      invariant forall p :: quality < p <= StartQuality && p % QualityStep == 0 ==> size(p) > limit
      decreases quality
    {
      var s := size(quality);
      encodings := encodings + 1;
      if s <= limit || quality <= FloorQuality {
        return;
      }
      quality := quality - QualityStep;
    }
  }

  // ---------------------------------------------------------------------
  // The crop window

  /** What pressing "Save Crop" leads to. `CropRaised` is the worker failing
      on an empty crop before any encoding. `Exported` carries the quality the
      search kept, the encodings it made and the path written, if the user
      chose one; with no path the tool reports that saving failed. */
  datatype CropSave =
    | NotReady
    | SizeCancelled
    | ResizeCancelled
    | CropRaised
    | Exported(quality: int, encodings: nat, savedTo: Option<string>)

  class ImageCropper {
    var image: Option<Image>
    var startX: Option<int>
    var startY: Option<int>
    var endX: Option<int>
    var endY: Option<int>
    /** The frozen selection, set on release. */
    var cropRect: Option<Rect>
    /** The square outline currently drawn on the canvas (the `rect_id` item). */
    var outline: Option<Rect>

    /** The press point is set as a pair; a frozen selection is the square
        from the press point to the stored end point; a drawn outline is a
        square anchored at the press point. */
    ghost predicate Valid()
      reads this
    {
      && (startX.Some? <==> startY.Some?)
      && (cropRect.Some? ==>
            && startX.Some? && startY.Some? && endX.Some? && endY.Some?
            && cropRect.value == Rect(startX.value, startY.value, endX.value, endY.value)
            && IsSquare(cropRect.value))
      && (outline.Some? ==>
            && startX.Some? && startY.Some?
            && outline.value.x1 == startX.value && outline.value.y1 == startY.value
            && IsSquare(outline.value))
    }

    predicate ReadyToSave()
      reads this
    {
      cropRect.Some? && HasContent(image)
    }

    constructor ()
      ensures Valid()
      ensures image == None && cropRect == None && outline == None
      ensures startX == None && startY == None && endX == None && endY == None
    {
      image := None;
      startX, startY := None, None;
      endX, endY := None, None;
      cropRect := None;
      outline := None;
    }

    /** Opening a file: a cancelled dialog changes nothing; a file that does
        not decode leaves no image but keeps the old selection; a decoded image
        is shown and the selection is forgotten. */
    method OpenImage(path: string, decoded: Option<Image>)
      requires Valid()
      modifies this
      ensures Valid()
      ensures path == "" ==> image == old(image) && cropRect == old(cropRect) && outline == old(outline)
      ensures path != "" ==> image == decoded
      ensures path != "" && decoded.Some? ==>
        cropRect == None && outline == None && startX == None && startY == None
      ensures path == "" || decoded.None? ==>
        cropRect == old(cropRect) && outline == old(outline) && startX == old(startX) && startY == old(startY)
      ensures endX == old(endX) && endY == old(endY)
    {
      if path == "" {
        return;
      }
      image := decoded;
      if decoded.None? {
        return;
      }
      ShowImage();
    }

    /** Showing a freshly loaded image resets the selection state. */
    method ShowImage()
      requires Valid() && image.Some?
      modifies this`cropRect, this`outline, this`startX, this`startY
      ensures Valid()
      ensures cropRect == None && outline == None && startX == None && startY == None
    {
      cropRect := None;
      outline := None;
      startX := None;
      startY := None;
    }

    /** Mouse button pressed: the anchor moves, the frozen selection and the
        drawn outline are dropped. */
    method Press(x: int, y: int)
      requires Valid()
      modifies this`startX, this`startY, this`cropRect, this`outline
      ensures Valid()
      ensures startX == Some(x) && startY == Some(y)
      ensures cropRect == None && outline == None
    {
      startX := Some(x);
      startY := Some(y);
      cropRect := None;
      outline := None;
    }

    /** Pointer dragged: redraws the square from the anchor alone. The guard
        tests truthiness, so an anchor coordinate of 0 draws nothing. */
    method Drag(x: int, y: int)
      requires Valid()
      modifies this`outline
      ensures Valid()
      ensures Truthy(startX) && Truthy(startY) ==>
        outline == Some(SquareTo(startX.value, startY.value, x, y))
      ensures !(Truthy(startX) && Truthy(startY)) ==> outline == old(outline)
    {
      if Truthy(startX) && Truthy(startY) {
        outline := Some(SquareTo(startX.value, startY.value, x, y));
      }
    }

    /** Mouse button released: the square is frozen into the selection and its
        far corner kept as the end point. With no anchor the handler raises
        after storing the raw end point, and `ok` is false. */
    method Release(x: int, y: int) returns (ok: bool)
      requires Valid()
      modifies this`endX, this`endY, this`cropRect
      ensures Valid()
      ensures ok <==> startX.Some?
      ensures ok ==> cropRect == Some(SquareTo(startX.value, startY.value, x, y))
      ensures ok ==> endX == Some(cropRect.value.x2) && endY == Some(cropRect.value.y2)
      ensures !ok ==> endX == Some(x) && endY == Some(y) && cropRect == old(cropRect)
    {
      endX := Some(x);
      endY := Some(y);
      if startX.None? || startY.None? {
        return false;
      }
      var r := SquareTo(startX.value, startY.value, x, y);
      endX := Some(r.x2);
      endY := Some(r.y2);
      cropRect := Some(r);
      ok := true;
    }

    /** Pressing "Save Crop", with the answers of the dialogs as parameters:
        the yes/no resize question, the size limit in KB (None when
        cancelled), the width and height asked when resizing, the encoder's
        byte count per quality, and the save-as answer. */
    method SaveCrop(resize: bool, maxKb: Option<int>, width: Option<int>, height: Option<int>,
                    size: int -> nat, savePath: string) returns (r: CropSave)
      ensures r.NotReady? <==> !ReadyToSave()
      ensures r.SizeCancelled? <==> ReadyToSave() && maxKb.None?
      ensures r.ResizeCancelled? <==>
        ReadyToSave() && maxKb.Some? && resize && !(Truthy(width) && Truthy(height))
      ensures r.CropRaised? <==>
        && ReadyToSave() && maxKb.Some? && !(resize && !(Truthy(width) && Truthy(height)))
        && CropIsEmpty(cropRect.value, image.value)
      ensures r.Exported? ==>
        && !CropIsEmpty(cropRect.value, image.value)
        && r.quality == CeilingQuality(size, maxKb.value * BytesPerKb, StartQuality)
        && FloorQuality <= r.quality <= StartQuality
        && (r.quality > FloorQuality ==> size(r.quality) <= maxKb.value * BytesPerKb)
        && r.encodings <= 18
        && r.savedTo == ChosenPath(savePath)
    {
      if !ReadyToSave() {
        return NotReady;
      }
      if maxKb.None? {
        return SizeCancelled;
      }
      if resize && !(Truthy(width) && Truthy(height)) {
        return ResizeCancelled;
      }
      if CropIsEmpty(cropRect.value, image.value) {
        return CropRaised;
      }
      var quality, encodings := CeilingSearch(size, maxKb.value * BytesPerKb);
      r := Exported(quality, encodings, ChosenPath(savePath));
    }
  }

  /** A drag from an anchor at x = 0 draws nothing, while a release from the
      same anchor freezes a square: only the drag handler tests truthiness. */
  method ZeroAnchorScenario() returns (drawn: Option<Rect>, frozen: Option<Rect>)
    ensures drawn == None
    ensures frozen == Some(Rect(0, 10, 5, 15))
  {
    var c := new ImageCropper();
    c.Press(0, 10);
    c.Drag(5, 20);
    drawn := c.outline;
    var ok := c.Release(5, 20);
    frozen := c.cropRect;
  }

  /** A selection dragged up and to the left is frozen, but saving it fails
      in the worker on the empty crop, before any encoding or save dialog. */
  method UpLeftSelectionScenario() returns (r: CropSave)
    ensures r == CropRaised
  {
    var c := new ImageCropper();
    c.OpenImage("a.png", Some(Image(100, 100, true)));
    c.Press(15, 15);
    var ok := c.Release(5, 5);
    r := c.SaveCrop(false, Some(100), None, None, q => 1000, "out.jpg");
  }

  /** A press in the canvas margin to the right of a 100 x 100 image selects a
      square whose crop is empty, so saving it raises as well. */
  method MarginSelectionScenario() returns (r: CropSave)
    ensures r == CropRaised
  {
    var c := new ImageCropper();
    c.OpenImage("a.png", Some(Image(100, 100, true)));
    c.Press(150, 10);
    var ok := c.Release(160, 20);
    r := c.SaveCrop(false, Some(100), None, None, q => 1000, "out.jpg");
  }

  /** A release left of the canvas freezes a square whose far corner has a
      negative x; the crop is not empty, so it is exported. */
  method OffCanvasReleaseScenario() returns (r: CropSave)
    ensures r.Exported? && r.savedTo == Some("out.jpg")
  {
    var c := new ImageCropper();
    c.OpenImage("a.png", Some(Image(100, 100, true)));
    c.Press(50, 50);
    var ok := c.Release(-10, 110);
    NegativeCornerCountsFromEnd();
    r := c.SaveCrop(false, Some(100), None, None, q => 1000, "out.jpg");
  }
}
