/**
 * Cropping a confirmed selection out of a display's captured raster: the
 * selection is scaled from points to pixels, intersected with the image's
 * bounds, and refused when nothing remains.
 */
module ImageCropper {
  import opened Wrappers
  import opened Geometry
  import opened SelectionModel

  /** A captured raster; only its pixel size matters to the crop. */
  datatype Image = Image(width: nat, height: nat)

  /** The raster `cropping(to:)` returns: the source image cut to exactly `rect`. */
  datatype CroppedImage = CroppedImage(source: Image, rect: Rect)

  /** `CGRect(x: 0, y: 0, width: image.width, height: image.height)` */
  function ImageBounds(image: Image): (r: Rect)
    ensures r.Standardized() && r.MinX() == 0.0 && r.MinY() == 0.0
    ensures r.MaxX() == image.width as real && r.MaxY() == image.height as real
  {
    Rect(0.0, 0.0, image.width as real, image.height as real)
  }

  /** The selection in pixels, clamped to the image: None when they do not meet. */
  function ClampedPixelRect(image: Image, selection: SelectionRect, scaleFactor: real): (r: Option<Rect>)
    ensures r.Some? ==> r.value.Inside(ImageBounds(image))
    ensures r.Some? && scaleFactor >= 0.0 ==> r.value.Inside(selection.ImageRect(scaleFactor))
    ensures forall q: Point :: (r.Some? && r.value.Contains(q)) <==>
              selection.ImageRect(scaleFactor).Standardize().Contains(q)
              && 0.0 <= q.x < image.width as real && 0.0 <= q.y < image.height as real
  {
    Intersection(selection.ImageRect(scaleFactor), ImageBounds(image))
  }

  /**
   * `ImageCropper.crop`: fails exactly when the clamped pixel rectangle is
   * empty; otherwise it is the crop of that rectangle, which has a positive
   * size and lies within the image.
   */
  function Crop(image: Image, selection: SelectionRect, scaleFactor: real): (r: Option<CroppedImage>)
    ensures r.None? <==> IsEmptyRect(ClampedPixelRect(image, selection, scaleFactor))
    ensures r.Some? ==> r.value.source == image
    ensures r.Some? ==> r.value.rect == ClampedPixelRect(image, selection, scaleFactor).value
    ensures r.Some? ==> r.value.rect.Inside(ImageBounds(image))
    ensures r.Some? ==> r.value.rect.width > 0.0 && r.value.rect.height > 0.0
    ensures r.Some? && scaleFactor >= 0.0 ==> r.value.rect.Inside(selection.ImageRect(scaleFactor))
  {
    var clamped := ClampedPixelRect(image, selection, scaleFactor);
    if IsEmptyRect(clamped) then None else Some(CroppedImage(image, clamped.value))
  }

  /**
   * A selection whose pixel rectangle has a positive size and lies within
   * the image is cropped to exactly that rectangle.
   */
  lemma CropOfContainedSelection(image: Image, selection: SelectionRect, scaleFactor: real)
    requires scaleFactor >= 0.0
    requires selection.ImageRect(scaleFactor).Inside(ImageBounds(image))
    requires selection.ImageRect(scaleFactor).width > 0.0 && selection.ImageRect(scaleFactor).height > 0.0
    ensures Crop(image, selection, scaleFactor) == Some(CroppedImage(image, selection.ImageRect(scaleFactor)))
  {
  }

  /** A selection that lies wholly to one side of the image yields no crop. */
  lemma CropOutsideImageFails(image: Image, selection: SelectionRect, scaleFactor: real)
    requires scaleFactor >= 0.0
    requires selection.ImageRect(scaleFactor).MinX() >= image.width as real
             || selection.ImageRect(scaleFactor).MinY() >= image.height as real
             || selection.ImageRect(scaleFactor).MaxX() <= 0.0
             || selection.ImageRect(scaleFactor).MaxY() <= 0.0
    ensures Crop(image, selection, scaleFactor).None?
  {
  }

  /**
   * One display of 1000 x 800 pixels at scale 1: a drag from (100, 100) to
   * (300, 250) is the box (100, 100, 200, 150), and cropping it yields
   * exactly that pixel rectangle of the capture.
   */
  lemma DragAndCropScenario()
    ensures SelectionRect(Point(100.0, 100.0), Point(300.0, 250.0)).NormalizedRect() == Rect(100.0, 100.0, 200.0, 150.0)
    ensures Crop(Image(1000, 800), SelectionRect(Point(100.0, 100.0), Point(300.0, 250.0)), 1.0)
            == Some(CroppedImage(Image(1000, 800), Rect(100.0, 100.0, 200.0, 150.0)))
  {
    var sel := SelectionRect(Point(100.0, 100.0), Point(300.0, 250.0));
    assert sel.ImageRect(1.0) == Rect(100.0, 100.0, 200.0, 150.0);
    CropOfContainedSelection(Image(1000, 800), sel, 1.0);
  }
}
