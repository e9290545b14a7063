/**
 * The selection geometry of QuickCapture: the eight resize handles and a
 * selection rectangle stored as two arbitrary points (its anchor and its
 * free end), from which the normalized box is derived on demand.
 */
module SelectionModel {
  import opened Geometry

  /** The eight resize handles, in the declaration order `allCases` enumerates. */
  datatype ResizeHandle =
    | TopLeft | TopRight | BottomLeft | BottomRight
    | TopMiddle | BottomMiddle | LeftMiddle | RightMiddle
  {
    predicate IsCorner() {
      match this
      case TopLeft | TopRight | BottomLeft | BottomRight => true
      case _ => false
    }
  }

  /** `ResizeHandle.allCases` */
  const AllHandles: seq<ResizeHandle> :=
    [TopLeft, TopRight, BottomLeft, BottomRight, TopMiddle, BottomMiddle, LeftMiddle, RightMiddle]

  /** The position of a handle in `allCases`. */
  function HandleIndex(h: ResizeHandle): (k: nat)
    ensures k < |AllHandles| && AllHandles[k] == h
  {
    match h
    case TopLeft => 0
    case TopRight => 1
    case BottomLeft => 2
    case BottomRight => 3
    case TopMiddle => 4
    case BottomMiddle => 5
    case LeftMiddle => 6
    case RightMiddle => 7
  }

  /** Number of handles of `hs` that are corners. */
  function CornerCount(hs: seq<ResizeHandle>): (n: nat)
    ensures n <= |hs|
    ensures n == 0 <==> forall i :: 0 <= i < |hs| ==> !hs[i].IsCorner()
    ensures n == |hs| <==> forall i :: 0 <= i < |hs| ==> hs[i].IsCorner()
  {
    if hs == [] then 0 else (if hs[0].IsCorner() then 1 else 0) + CornerCount(hs[1..])
  }

  /** `allCases` lists every handle exactly once, and exactly four of them are corners. */
  lemma HandleEnumeration()
    ensures |AllHandles| == 8
    ensures forall h: ResizeHandle :: h in AllHandles
    ensures forall i, j :: 0 <= i < j < |AllHandles| ==> AllHandles[i] != AllHandles[j]
    ensures CornerCount(AllHandles) == 4
    ensures forall h: ResizeHandle :: h.IsCorner() <==> h in AllHandles[..4]
  {
    assert AllHandles[4..] == [TopMiddle, BottomMiddle, LeftMiddle, RightMiddle];
    assert AllHandles[5..] == [BottomMiddle, LeftMiddle, RightMiddle];
    assert AllHandles[6..] == [LeftMiddle, RightMiddle];
    assert AllHandles[7..] == [RightMiddle];
    assert AllHandles[8..] == [];
    assert AllHandles[..4] == [TopLeft, TopRight, BottomLeft, BottomRight];
    forall h: ResizeHandle ensures h in AllHandles {
      match h
      case TopLeft => assert AllHandles[0] == h;
      case TopRight => assert AllHandles[1] == h;
      case BottomLeft => assert AllHandles[2] == h;
      case BottomRight => assert AllHandles[3] == h;
      case TopMiddle => assert AllHandles[4] == h;
      case BottomMiddle => assert AllHandles[5] == h;
      case LeftMiddle => assert AllHandles[6] == h;
      case RightMiddle => assert AllHandles[7] == h;
    }
  }

  /** A selection as the user drew it: `origin` is where the drag began, `end` where it is now. */
  datatype SelectionRect = SelectionRect(origin: Point, end: Point) {

    /** The normalized box: componentwise minimum as origin, absolute differences as size. */
    function NormalizedRect(): (r: Rect)
      ensures r.Standardized()
      ensures r.MinX() == Min(origin.x, end.x) && r.MaxX() == Max(origin.x, end.x)
      ensures r.MinY() == Min(origin.y, end.y) && r.MaxY() == Max(origin.y, end.y)
    {
      Rect(Min(origin.x, end.x), Min(origin.y, end.y), Abs(end.x - origin.x), Abs(end.y - origin.y))
    }

    /** Sub-pixel selections are empty: less than one unit wide or high. */
    predicate IsEmpty() {
      NormalizedRect().width < 1.0 || NormalizedRect().height < 1.0
    }

    /** The normalized box in the captured image's pixels: every field times the scale factor. */
    function ImageRect(scaleFactor: real): (r: Rect)
      ensures r.width == NormalizedRect().width * scaleFactor
      ensures r.height == NormalizedRect().height * scaleFactor
      ensures scaleFactor >= 0.0 ==> r.Standardized()
    {
      var n := NormalizedRect();
      Rect(n.x * scaleFactor, n.y * scaleFactor, n.width * scaleFactor, n.height * scaleFactor)
    }
  }

  /** `SelectionRect(rect:)`: anchor at the box's origin, free end at its far corner. */
  function FromRect(r: Rect): (s: SelectionRect)
    ensures s.origin == Point(r.MinX(), r.MinY())
    ensures s.end == Point(r.MaxX(), r.MaxY())
  {
    SelectionRect(Point(r.x, r.y), Point(r.x + r.width, r.y + r.height))
  }

  /** The normalized box does not depend on which point is the anchor. */
  lemma NormalizedRectSymmetric(s: SelectionRect)
    ensures SelectionRect(s.end, s.origin).NormalizedRect() == s.NormalizedRect()
  {
  }

  /** Emptiness is exactly "less than one unit on some side". */
  lemma IsEmptyCharacterization(s: SelectionRect)
    ensures s.IsEmpty() <==> Abs(s.end.x - s.origin.x) < 1.0 || Abs(s.end.y - s.origin.y) < 1.0
  {
  }

  /** A selection whose two points coincide (a click without a drag) is always empty. */
  lemma DegenerateSelectionIsEmpty(p: Point)
    ensures SelectionRect(p, p).IsEmpty()
    ensures SelectionRect(p, p).NormalizedRect() == Rect(p.x, p.y, 0.0, 0.0)
  {
  }

  /** Building a selection from a standardized box and normalizing it gives the box back. */
  lemma FromRectRoundTrip(r: Rect)
    requires r.Standardized()
    ensures FromRect(r).NormalizedRect() == r
  {
  }

  /** Normalizing a selection and rebuilding it gives a selection with the same box. */
  lemma NormalizeRoundTrip(s: SelectionRect)
    ensures FromRect(s.NormalizedRect()).NormalizedRect() == s.NormalizedRect()
  {
  }

  /** At scale 1 the pixel rectangle is the normalized box itself. */
  lemma ImageRectAtUnitScale(s: SelectionRect)
    ensures s.ImageRect(1.0) == s.NormalizedRect()
  {
  }

  /**
   * For a positive scale factor, scaling the box is the same as scaling both
   * points and normalizing: it does not matter whether one converts to pixels
   * before or after normalizing.
   */
  lemma ImageRectScalesPoints(s: SelectionRect, k: real)
    requires k > 0.0
    ensures s.ImageRect(k) ==
            SelectionRect(Point(s.origin.x * k, s.origin.y * k), Point(s.end.x * k, s.end.y * k)).NormalizedRect()
  {
  }
}
