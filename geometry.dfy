/**
 * The arithmetic of MyLayout: scale factors from the root pane, the size a child
 * is given, the nine-way anchor switch of Control.calculatePosition and the base
 * translation that Control.resize applies.  jME's Vector3f components are floats;
 * here they are exact reals.
 */
module Geometry {

  /** A jME Vector3f. */
  datatype Vec3 = Vec3(x: real, y: real, z: real) {
    function Plus(o: Vec3): Vec3
    {
      Vec3(x + o.x, y + o.y, z + o.z)
    }
  }

  /** new Vector3f(): the zero vector. */
  const Zero := Vec3(0.0, 0.0, 0.0)

  /** MyLayout.Alignment: the nine anchors a child can be pinned to. */
  datatype Alignment =
    | Center | CenterTop | CenterBottom
    | RightCenter | RightTop | RightBottom
    | LeftCenter | LeftTop | LeftBottom

  /** The horizontal part of an anchor. */
  datatype Column = Left | Middle | Right

  /** The vertical part of an anchor. */
  datatype Row = Top | Level | Bottom

  function ColumnOf(a: Alignment): Column
  {
    match a
    case Center | CenterTop | CenterBottom => Middle
    case RightCenter | RightTop | RightBottom => Right
    case LeftCenter | LeftTop | LeftBottom => Left
  }

  function RowOf(a: Alignment): Row
  {
    match a
    case Center | RightCenter | LeftCenter => Level
    case CenterTop | RightTop | LeftTop => Top
    case CenterBottom | RightBottom | LeftBottom => Bottom
  }

  /** The anchor on the opposite side horizontally (Left and Right swapped). */
  function Mirror(a: Alignment): (m: Alignment)
    ensures RowOf(m) == RowOf(a)
    ensures ColumnOf(m) == match ColumnOf(a) case Left => Right case Middle => Middle case Right => Left
  {
    match a
    case Center => Center
    case CenterTop => CenterTop
    case CenterBottom => CenterBottom
    case RightCenter => LeftCenter
    case RightTop => LeftTop
    case RightBottom => LeftBottom
    case LeftCenter => RightCenter
    case LeftTop => RightTop
    case LeftBottom => RightBottom
  }

  /**
   * MyLayout.RootPane: the physical window size and the fixed design resolution
   * the screens are laid out for.
   */
  datatype RootPane = RootPane(window: Vec3, resolution: Vec3) {

    /**
     * The z factor divides by window.z whenever resolution.z is non-zero; a zero
     * window depth there would give a float infinity, which this model excludes.
     */
    predicate WellFormed()
    {
      resolution.z != 0.0 ==> window.z != 0.0
    }

    /**
     * RootPane.getScaleFactor: how much larger the window is than the design
     * resolution, per axis.  x and y are window over resolution, z is the other
     * way round, and an axis whose resolution is zero gets factor zero.
     */
    function ScaleFactor(): (r: Vec3)
      requires WellFormed()
      ensures resolution.x == 0.0 ==> r.x == 0.0
      ensures resolution.x != 0.0 ==> r.x * resolution.x == window.x
      ensures resolution.y == 0.0 ==> r.y == 0.0
      ensures resolution.y != 0.0 ==> r.y * resolution.y == window.y
      ensures resolution.z == 0.0 ==> r.z == 0.0
      ensures resolution.z != 0.0 ==> r.z * window.z == resolution.z
    {
      Vec3(if resolution.x == 0.0 then 0.0 else window.x / resolution.x,
           if resolution.y == 0.0 then 0.0 else window.y / resolution.y,
           if resolution.z == 0.0 then 0.0 else resolution.z / window.z)
    }
  }

  /**
   * A layout's offset scaled to the window: x by the vertical factor when the
   * layout is lock-scaling in its parent, by the horizontal factor otherwise;
   * y and z always by their own factors.
   */
  function ScaledOffset(offset: Vec3, fac: Vec3, lock: bool): Vec3
  {
    if lock then Vec3(offset.x * fac.y, offset.y * fac.y, offset.z * fac.z)
    else Vec3(offset.x * fac.x, offset.y * fac.y, offset.z * fac.z)
  }

  /**
   * Control.calculatePosition: where the centre of a child of size `child`
   * sits relative to the centre of a container of size `parent`, for the
   * child's anchor, user offset and the window's scale factor.  `lock` is the
   * result of hasParentAndLockscaling().  MyLayout.java writes out all nine
   * cases; so does this function.
   *
   * The contract says what each anchor means: a Left anchor puts the child's
   * left edge the scaled offset to the right of the container's left edge, a
   * Right anchor its right edge the scaled offset to the left of the container's
   * right edge, a Middle one its centre the scaled offset from the container's
   * centre; likewise Top, Bottom and Level vertically (y grows upwards).
   */
  function CalculatePosition(a: Alignment, parent: Vec3, child: Vec3, offset: Vec3, fac: Vec3, lock: bool): (r: Vec3)
    ensures r.z == offset.z * fac.z
    ensures ColumnOf(a) == Middle ==> r.x == ScaledOffset(offset, fac, lock).x
    ensures ColumnOf(a) == Left ==> r.x - child.x / 2.0 == -parent.x / 2.0 + ScaledOffset(offset, fac, lock).x
    ensures ColumnOf(a) == Right ==> r.x + child.x / 2.0 == parent.x / 2.0 - ScaledOffset(offset, fac, lock).x
    ensures RowOf(a) == Level ==> r.y == ScaledOffset(offset, fac, lock).y
    ensures RowOf(a) == Top ==> r.y + child.y / 2.0 == parent.y / 2.0 - ScaledOffset(offset, fac, lock).y
    ensures RowOf(a) == Bottom ==> r.y - child.y / 2.0 == -parent.y / 2.0 + ScaledOffset(offset, fac, lock).y
  {
    var width, height := child.x, child.y;
    // the two scaled offsets every branch uses: x by fac.y under lock scaling, by fac.x otherwise
    var xOff := if lock then offset.x * fac.y else offset.x * fac.x;
    var yOff := offset.y * fac.y;
    var zPos := offset.z * fac.z;
    match a
    case Center => Vec3(xOff, yOff, zPos)
    case CenterBottom => Vec3(xOff, -(parent.y * 0.5) + height * 0.5 + yOff, zPos)
    case CenterTop => Vec3(xOff, parent.y * 0.5 - height * 0.5 - yOff, zPos)
    case LeftBottom => Vec3(-(parent.x * 0.5) + width * 0.5 + xOff, -(parent.y * 0.5) + height * 0.5 + yOff, zPos)
    case LeftCenter => Vec3(-(parent.x * 0.5) + width * 0.5 + xOff, yOff, zPos)
    case LeftTop => Vec3(-(parent.x * 0.5) + width * 0.5 + xOff, parent.y * 0.5 - height * 0.5 - yOff, zPos)
    case RightBottom => Vec3(parent.x * 0.5 - width * 0.5 - xOff, -(parent.y * 0.5) + height * 0.5 + yOff, zPos)
    case RightCenter => Vec3(parent.x * 0.5 - width * 0.5 - xOff, yOff, zPos)
    case RightTop => Vec3(parent.x * 0.5 - width * 0.5 - xOff, parent.y * 0.5 - height * 0.5 - yOff, zPos)
  }

  /** Swapping Left and Right negates the horizontal position and keeps the rest. */
  lemma MirrorNegatesX(a: Alignment, parent: Vec3, child: Vec3, offset: Vec3, fac: Vec3, lock: bool)
    requires ColumnOf(a) != Middle
    ensures CalculatePosition(Mirror(a), parent, child, offset, fac, lock).x == -CalculatePosition(a, parent, child, offset, fac, lock).x
    ensures CalculatePosition(Mirror(a), parent, child, offset, fac, lock).y == CalculatePosition(a, parent, child, offset, fac, lock).y
  {
  }

  /** The horizontal position depends only on the column of the anchor, the vertical only on its row. */
  lemma AnchorAxesIndependent(a: Alignment, b: Alignment, parent: Vec3, child: Vec3, offset: Vec3, fac: Vec3, lock: bool)
    ensures ColumnOf(a) == ColumnOf(b) ==> CalculatePosition(a, parent, child, offset, fac, lock).x == CalculatePosition(b, parent, child, offset, fac, lock).x
    ensures RowOf(a) == RowOf(b) ==> CalculatePosition(a, parent, child, offset, fac, lock).y == CalculatePosition(b, parent, child, offset, fac, lock).y
  {
  }

  /**
   * Lock scaling only trades the horizontal factor for the vertical one: it is
   * the unlocked position under a scale factor whose x is replaced by its y, and
   * it makes no difference when both factors agree.
   */
  lemma LockUsesVerticalFactor(a: Alignment, parent: Vec3, child: Vec3, offset: Vec3, fac: Vec3)
    ensures CalculatePosition(a, parent, child, offset, fac, true) == CalculatePosition(a, parent, child, offset, Vec3(fac.y, fac.y, fac.z), false)
    ensures fac.x == fac.y ==> CalculatePosition(a, parent, child, offset, fac, true) == CalculatePosition(a, parent, child, offset, fac, false)
  {
  }

  /** A 200 by 100 container, a 50 by 20 child, no offset and unit scale, on all nine anchors. */
  lemma AnchorExamples()
    ensures var p, c, f := Vec3(200.0, 100.0, 0.0), Vec3(50.0, 20.0, 0.0), Vec3(1.0, 1.0, 1.0);
      && CalculatePosition(Center, p, c, Zero, f, false) == Vec3(0.0, 0.0, 0.0)
      && CalculatePosition(CenterTop, p, c, Zero, f, false) == Vec3(0.0, 40.0, 0.0)
      && CalculatePosition(CenterBottom, p, c, Zero, f, false) == Vec3(0.0, -40.0, 0.0)
      && CalculatePosition(LeftCenter, p, c, Zero, f, false) == Vec3(-75.0, 0.0, 0.0)
      && CalculatePosition(LeftTop, p, c, Zero, f, false) == Vec3(-75.0, 40.0, 0.0)
      && CalculatePosition(LeftBottom, p, c, Zero, f, false) == Vec3(-75.0, -40.0, 0.0)
      && CalculatePosition(RightCenter, p, c, Zero, f, false) == Vec3(75.0, 0.0, 0.0)
      && CalculatePosition(RightTop, p, c, Zero, f, false) == Vec3(75.0, 40.0, 0.0)
      && CalculatePosition(RightBottom, p, c, Zero, f, false) == Vec3(75.0, -40.0, 0.0)
  {
  }

  /**
   * The size Control.resize gives a child with preferred size `pref`: each axis
   * scaled by its own factor, except that a lock-scaling child's width is
   * scaled by the vertical factor, so that its aspect ratio is kept.
   */
  function ChildSize(pref: Vec3, lockscaling: bool, fac: Vec3): (r: Vec3)
    ensures r.y == pref.y * fac.y && r.z == pref.z * fac.z
    ensures lockscaling ==> r.x == pref.x * fac.y
    ensures lockscaling ==> r.x * pref.y == r.y * pref.x
    ensures !lockscaling ==> r.x == pref.x * fac.x
  {
    Vec3(if lockscaling then pref.x * fac.y else pref.x * fac.x, pref.y * fac.y, pref.z * fac.z)
  }

  /**
   * The local translation Control.resize gives a child of size `size` whose
   * anchored position is `pos`: Lemur places a node by its top-left-front
   * corner, so the translation is the container's centre, moved back by half
   * the child's extent, plus `pos`.  Equivalently, the child's centre is `pos`
   * away from the container's centre.
   */
  function ChildTranslation(parent: Vec3, size: Vec3, pos: Vec3): (t: Vec3)
    ensures t.x + size.x / 2.0 == parent.x / 2.0 + pos.x
    ensures t.y - size.y / 2.0 == -parent.y / 2.0 + pos.y
    ensures t.z + size.z / 2.0 == parent.z / 2.0 + pos.z
  {
    Vec3(parent.x / 2.0, -parent.y / 2.0, parent.z / 2.0)
      .Plus(Vec3(-size.x * 0.5, size.y * 0.5, -size.z * 0.5))
      .Plus(pos)
  }
}
