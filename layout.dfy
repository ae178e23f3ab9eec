/**
 * MyLayout itself: the registry of managed children, the lock-scaling lookup
 * one level up the scene graph, reshape, calculatePreferredSize and the
 * addChild / removeChild / clearChildren / getAttribute / setAttribute API.
 *
 * The scene graph is foreign (jME / Lemur) and is reduced to what the layout
 * reads from it: the identity of each child node, the preferred size of its
 * GuiControl, the size of the layout's own container, and the container's
 * parent with that parent's layout.  Lemur's invalidate() is the `dirty` flag.
 */
module Layout {
  import opened Common
  import opened Geometry
  import opened AttributeStore

  /** The identity of a scene-graph Node (the key of the children HashMap). */
  type NodeId = nat

  /**
   * A Node passed to addChild: its identity and, when it carries a Lemur
   * GuiControl, that control's preferred size.
   */
  datatype GuiNode = GuiNode(id: NodeId, control: Option<Vec3>)

  /** GuiControl.getLayout(): no layout, some other GuiLayout, or a MyLayout. */
  datatype LayoutRef = NoLayout | OtherLayout | Mine(layout: MyLayout)

  /**
   * getNode().getParent() of the layout's container: no parent, or a parent
   * node with (Some) or without (None) a GuiControl, described by its layout.
   */
  datatype ParentNode = NoParent | Parent(control: Option<LayoutRef>)

  /** useParentControlLayout: the control exists and its layout is a MyLayout. */
  predicate UseParentControlLayout(control: Option<LayoutRef>)
  {
    control.Some? && control.value.Mine?
  }

  /** What Control.resize sets on a child node: its size and its local translation. */
  datatype Placement = Placement(size: Vec3, translation: Vec3)

  /**
   * Control.resize for one child with attributes `a` and preferred size `pref`
   * inside a container of size `parent`.  `lock` is hasParentAndLockscaling()
   * of the layout; the child's own lock-scaling flag only affects its size.
   *
   * In the container's coordinates (origin at its top-left-front corner, y
   * upwards, so the container spans x in [0, parent.x] and y in [-parent.y, 0],
   * and a child spans [t.x, t.x + size.x] and [t.y - size.y, t.y]): a Left
   * child's left edge is the scaled x offset from the container's left edge, a
   * Right child's right edge the scaled x offset from the container's right
   * edge, a Middle child's centre the scaled x offset from the container's
   * centre; likewise top, bottom and centre rows vertically.
   */
  function ResizeChild(a: Attributes, pref: Vec3, parent: Vec3, fac: Vec3, lock: bool): (p: Placement)
    ensures p.size == ChildSize(pref, a.lockscaling, fac)
    ensures var s := ScaledOffset(a.originalPos, fac, lock);
      && (ColumnOf(a.alignment) == Left ==> p.translation.x == s.x)
      && (ColumnOf(a.alignment) == Middle ==> p.translation.x + p.size.x / 2.0 == parent.x / 2.0 + s.x)
      && (ColumnOf(a.alignment) == Right ==> p.translation.x + p.size.x == parent.x - s.x)
      && (RowOf(a.alignment) == Top ==> p.translation.y == -s.y)
      && (RowOf(a.alignment) == Level ==> p.translation.y - p.size.y / 2.0 == -parent.y / 2.0 + s.y)
      && (RowOf(a.alignment) == Bottom ==> p.translation.y - p.size.y == -parent.y + s.y)
      && p.translation.z + p.size.z / 2.0 == parent.z / 2.0 + s.z
  {
    var size := ChildSize(pref, a.lockscaling, fac);
    Placement(size, ChildTranslation(parent, size, CalculatePosition(a.alignment, parent, size, a.originalPos, fac, lock)))
  }

  /** One step of calculatePreferredSize's loop, with its quirk: h takes d.z when d.y exceeds h. */
  function Accumulate(acc: Vec3, d: Vec3): Vec3
  {
    Vec3(if d.x > acc.x then d.x else acc.x,
         if d.y > acc.y then d.z else acc.y,
         if d.z > acc.z then d.z else acc.z)
  }

  /** calculatePreferredSize over the children's preferred sizes in the order visited. */
  function PreferredSizeOf(ds: seq<Vec3>): Vec3
  {
    if |ds| == 0 then Zero else Accumulate(PreferredSizeOf(ds[..|ds| - 1]), ds[|ds| - 1])
  }

  /** Visiting one more child folds its preferred size into the running result. */
  lemma PreferredSizeSnoc(ds: seq<Vec3>, d: Vec3)
    ensures PreferredSizeOf(ds + [d]) == Accumulate(PreferredSizeOf(ds), d)
  {
  }

  /** The preferred sizes along `order` followed by n. */
  lemma PrefsAlongSnoc(order: seq<NodeId>, n: NodeId, prefs: map<NodeId, Vec3>)
    requires forall i :: 0 <= i < |order| ==> order[i] in prefs
    requires n in prefs
    ensures PrefsAlong(order + [n], prefs) == PrefsAlong(order, prefs) + [prefs[n]]
  {
    assert (order + [n])[..|order|] == order;
  }

  /** The preferred width and depth are the largest child width and depth, or 0. */
  lemma {:induction false} PreferredWidthDepthAreMax(ds: seq<Vec3>)
    ensures var r := PreferredSizeOf(ds);
      && r.x >= 0.0 && (forall i :: 0 <= i < |ds| ==> ds[i].x <= r.x)
      && (r.x == 0.0 || exists i :: 0 <= i < |ds| && ds[i].x == r.x)
      && r.z >= 0.0 && (forall i :: 0 <= i < |ds| ==> ds[i].z <= r.z)
      && (r.z == 0.0 || exists i :: 0 <= i < |ds| && ds[i].z == r.z)
  {
    if |ds| > 0 {
      var init := ds[..|ds| - 1];
      PreferredWidthDepthAreMax(init);
      assert forall i :: 0 <= i < |init| ==> ds[i] == init[i];
    }
  }

  /**
   * The preferred height, as written: 0 unless some child is taller than 0,
   * and otherwise the DEPTH of one of the children.
   */
  lemma {:induction false} PreferredHeightQuirk(ds: seq<Vec3>)
    ensures var r := PreferredSizeOf(ds);
      && (r.y == 0.0 || exists i :: 0 <= i < |ds| && r.y == ds[i].z)
      && ((forall i :: 0 <= i < |ds| ==> ds[i].y <= 0.0) ==> r.y == 0.0)
  {
    if |ds| > 0 {
      var init := ds[..|ds| - 1];
      PreferredHeightQuirk(init);
      assert forall i :: 0 <= i < |init| ==> ds[i] == init[i];
    }
  }

  /** Width and depth do not depend on the order the HashMap hands out its entries. */
  lemma PreferredWidthDepthOrderFree(ds: seq<Vec3>, es: seq<Vec3>)
    requires multiset(ds) == multiset(es)
    ensures PreferredSizeOf(ds).x == PreferredSizeOf(es).x
    ensures PreferredSizeOf(ds).z == PreferredSizeOf(es).z
  {
    PreferredWidthDepthAreMax(ds);
    PreferredWidthDepthAreMax(es);
    var r, q := PreferredSizeOf(ds), PreferredSizeOf(es);
    forall i | 0 <= i < |ds| ensures ds[i].x <= q.x && ds[i].z <= q.z {
      assert ds[i] in multiset(es);
    }
    forall i | 0 <= i < |es| ensures es[i].x <= r.x && es[i].z <= r.z {
      assert es[i] in multiset(ds);
    }
  }

  /** The height does depend on that order: the same two children, visited both ways. */
  lemma PreferredHeightOrderDependent()
    ensures PreferredSizeOf([Vec3(0.0, 5.0, 1.0), Vec3(0.0, 3.0, 0.5)]).y == 0.5
    ensures PreferredSizeOf([Vec3(0.0, 3.0, 0.5), Vec3(0.0, 5.0, 1.0)]).y == 1.0
  {
    assert [Vec3(0.0, 5.0, 1.0), Vec3(0.0, 3.0, 0.5)][..1] == [Vec3(0.0, 5.0, 1.0)];
    assert [Vec3(0.0, 3.0, 0.5), Vec3(0.0, 5.0, 1.0)][..1] == [Vec3(0.0, 3.0, 0.5)];
  }

  /** The preferred sizes of the nodes in `order`, in that order. */
  function PrefsAlong(order: seq<NodeId>, prefs: map<NodeId, Vec3>): (ds: seq<Vec3>)
    requires forall i :: 0 <= i < |order| ==> order[i] in prefs
    ensures |ds| == |order| && forall i :: 0 <= i < |order| ==> ds[i] == prefs[order[i]]
  {
    if |order| == 0 then [] else PrefsAlong(order[..|order| - 1], prefs) + [prefs[order[|order| - 1]]]
  }

  /**
   * `order` lists every key of `keys` exactly once: its last element is a key,
   * and the elements before it list the other keys.
   */
  ghost predicate Enumerates(order: seq<NodeId>, keys: set<NodeId>)
    decreases |order|
  {
    if |order| == 0 then keys == {}
    else
      var last := order[|order| - 1];
      last in keys && Enumerates(order[..|order| - 1], keys - {last})
  }

  /** An enumeration is a duplicate-free listing of exactly the keys. */
  lemma {:induction false} EnumeratesListing(order: seq<NodeId>, keys: set<NodeId>)
    requires Enumerates(order, keys)
    ensures forall i :: 0 <= i < |order| ==> order[i] in keys
    ensures forall n :: n in keys ==> n in order
    ensures forall i, j :: 0 <= i < j < |order| ==> order[i] != order[j]
    ensures |order| == |keys|
  {
    if |order| > 0 {
      var rest, last := order[..|order| - 1], order[|order| - 1];
      EnumeratesListing(rest, keys - {last});
      forall n | n in keys ensures n in order {
        if n != last {
          assert n in keys - {last} && n in rest;
          var j :| 0 <= j < |rest| && rest[j] == n;
          assert order[j] == n;
        }
      }
      forall i, j | 0 <= i < j < |order| ensures order[i] != order[j] {
        assert order[i] == rest[i] && rest[i] in keys - {last};
        if j < |rest| {
          assert order[j] == rest[j];
        }
      }
    }
  }

  /** Conversely, a duplicate-free listing of exactly the keys is an enumeration. */
  lemma {:induction false} ListingEnumerates(order: seq<NodeId>, keys: set<NodeId>)
    requires forall i :: 0 <= i < |order| ==> order[i] in keys
    requires forall n :: n in keys ==> n in order
    requires forall i, j :: 0 <= i < j < |order| ==> order[i] != order[j]
    ensures Enumerates(order, keys)
  {
    if |order| == 0 {
      assert forall n :: n !in keys;
    } else {
      var rest, last := order[..|order| - 1], order[|order| - 1];
      forall i | 0 <= i < |rest| ensures rest[i] in keys - {last} {
        assert rest[i] == order[i];
      }
      forall n | n in keys - {last} ensures n in rest {
        var j :| 0 <= j < |order| && order[j] == n;
        assert j < |rest| && rest[j] == n;
      }
      ListingEnumerates(rest, keys - {last});
    }
  }

  /** Visiting a node not yet visited extends the enumeration by it. */
  lemma EnumeratesVisit(order: seq<NodeId>, visited: set<NodeId>, n: NodeId)
    requires Enumerates(order, visited) && n !in visited
    ensures Enumerates(order + [n], visited + {n})
  {
    assert (order + [n])[..|order|] == order;
    assert (visited + {n}) - {n} == visited;
  }

  /**
   * One iteration of calculatePreferredSize's loop: visiting a node `n` not yet
   * visited extends the enumeration, appends its preferred size to the sizes
   * folded so far, and folds that size into the running result.
   */
  lemma VisitStep(order: seq<NodeId>, visited: set<NodeId>, n: NodeId, prefs: map<NodeId, Vec3>)
    requires Enumerates(order, visited) && n !in visited && n in prefs
    requires forall i :: 0 <= i < |order| ==> order[i] in prefs
    ensures Enumerates(order + [n], visited + {n})
    ensures forall i :: 0 <= i < |order + [n]| ==> (order + [n])[i] in prefs
    ensures PrefsAlong(order + [n], prefs) == PrefsAlong(order, prefs) + [prefs[n]]
    ensures PreferredSizeOf(PrefsAlong(order + [n], prefs))
         == Accumulate(PreferredSizeOf(PrefsAlong(order, prefs)), prefs[n])
  {
    EnumeratesVisit(order, visited, n);
    PrefsAlongSnoc(order, n, prefs);
    PreferredSizeSnoc(PrefsAlong(order, prefs), prefs[n]);
  }

  /**
   * The facts about PreferredSizeOf restated over the registry: for an
   * enumeration of the registered nodes, the width and depth are the largest
   * preferred width and depth of a registered node (or 0), the height is 0 or
   * some registered node's preferred depth, and no children give (0, 0, 0).
   */
  lemma PreferredOverRegistry(order: seq<NodeId>, prefs: map<NodeId, Vec3>, keys: set<NodeId>)
    requires Enumerates(order, keys) && keys <= prefs.Keys
    requires forall i :: 0 <= i < |order| ==> order[i] in prefs
    ensures var r := PreferredSizeOf(PrefsAlong(order, prefs));
      && (keys == {} ==> r == Zero)
      && (forall n :: n in keys ==> prefs[n].x <= r.x && prefs[n].z <= r.z)
      && (r.x == 0.0 || exists n :: n in keys && prefs[n].x == r.x)
      && (r.z == 0.0 || exists n :: n in keys && prefs[n].z == r.z)
      && (r.y == 0.0 || exists n :: n in keys && prefs[n].z == r.y)
  {
    EnumeratesListing(order, keys);
    var ds := PrefsAlong(order, prefs);
    var r := PreferredSizeOf(ds);
    PreferredWidthDepthAreMax(ds);
    PreferredHeightQuirk(ds);
    if keys == {} {
      assert order == [];
    }
    forall n | n in keys ensures prefs[n].x <= r.x && prefs[n].z <= r.z {
      var i :| 0 <= i < |order| && order[i] == n;
      assert ds[i] == prefs[n];
    }
    if r.x != 0.0 {
      var i :| 0 <= i < |ds| && ds[i].x == r.x;
      assert order[i] in keys && prefs[order[i]].x == r.x;
    }
    if r.z != 0.0 {
      var i :| 0 <= i < |ds| && ds[i].z == r.z;
      assert order[i] in keys && prefs[order[i]].z == r.z;
    }
    if r.y != 0.0 {
      var i :| 0 <= i < |ds| && r.y == ds[i].z;
      assert order[i] in keys && prefs[order[i]].z == r.y;
    }
  }

  class MyLayout {
    /** The RootPane handed to the constructor. */
    const rootPane: RootPane
    /** getNode(): the container node this layout is installed on. */
    var node: NodeId
    /** That container's parent in the scene graph. */
    var parent: ParentNode
    /** getGuiControl().getSize(): the container's current size. */
    var containerSize: Vec3
    /** The children HashMap: each managed node and its attributes. */
    var children: map<NodeId, Attributes>
    /** The preferred size of each managed node's GuiControl. */
    var preferred: map<NodeId, Vec3>
    /** The size and local translation Control.resize last set on a node. */
    var placed: map<NodeId, Placement>
    /** Whether the layout was invalidated since the last reshape. */
    var dirty: bool

    ghost predicate Valid()
      reads this
    {
      rootPane.WellFormed() && preferred.Keys == children.Keys
    }

    constructor (rootPane: RootPane, node: NodeId, parent: ParentNode, containerSize: Vec3)
      requires rootPane.WellFormed()
      ensures Valid()
      ensures this.rootPane == rootPane && this.node == node && this.parent == parent && this.containerSize == containerSize
      ensures children == map[] && preferred == map[] && placed == map[] && !dirty
    {
      this.rootPane := rootPane;
      this.node := node;
      this.parent := parent;
      this.containerSize := containerSize;
      children := map[];
      preferred := map[];
      placed := map[];
      dirty := false;
    }

    /** The parent container's layout when it is a MyLayout. */
    function ParentLayout(): (l: Option<MyLayout>)
      reads this`parent
      ensures l.Some? <==> parent.Parent? && UseParentControlLayout(parent.control)
      ensures l.Some? ==> l.value == parent.control.value.layout
    {
      if parent.Parent? && UseParentControlLayout(parent.control) then Some(parent.control.value.layout) else None
    }

    /** The objects hasParentAndLockscaling reads besides this one. */
    function ParentFrame(): set<MyLayout>
      reads this`parent
    {
      if ParentLayout().Some? then {ParentLayout().value} else {}
    }

    /** isLockscalingChild: whether `target` is registered here with lock scaling on. */
    function IsLockscalingChild(target: NodeId): (r: bool)
      reads this`children
      ensures r ==> target in children
      ensures target in children ==> r == children[target].lockscaling
    {
      target in children && children[target].lockscaling
    }

    /**
     * hasParentAndLockscaling: whether this layout's container is registered
     * as lock-scaling in the layout of the container's parent.  It is false
     * without a parent, when the parent's layout is not a MyLayout, and when
     * the container is not registered there; it takes no child, so it is the
     * same for every child of this layout.
     */
    function HasParentAndLockscaling(): (r: bool)
      reads this`parent, this`node, ParentFrame()`children
      ensures parent.NoParent? ==> !r
      ensures parent.Parent? && !UseParentControlLayout(parent.control) ==> !r
      ensures r <==> ParentLayout().Some? && node in ParentLayout().value.children && ParentLayout().value.children[node].lockscaling
    {
      match ParentLayout()
      case None => false
      case Some(layout) => layout.IsLockscalingChild(node)
    }

    /** Where Control.resize puts child `n` when the lock lookup gives `lock`. */
    function PlacementOf(n: NodeId, lock: bool): Placement
      reads this`children, this`preferred, this`containerSize
      requires rootPane.WellFormed() && n in children && n in preferred
    {
      ResizeChild(children[n], preferred[n], containerSize, rootPane.ScaleFactor(), lock)
    }

    /** Control.resize on child `n`: set its size and its translation. */
    method Resize(n: NodeId)
      requires Valid() && n in children
      modifies this
      ensures Valid()
      ensures node == old(node) && parent == old(parent) && containerSize == old(containerSize)
      ensures children == old(children) && preferred == old(preferred) && dirty == old(dirty)
      ensures HasParentAndLockscaling() == old(HasParentAndLockscaling())
      ensures placed == old(placed)[n := PlacementOf(n, HasParentAndLockscaling())]
    {
      var fac := rootPane.ScaleFactor();
      var a := children[n];
      var mySize := ChildSize(preferred[n], a.lockscaling, fac);
      var pos := CalculatePosition(a.alignment, containerSize, mySize, a.originalPos, fac, HasParentAndLockscaling());
      placed := placed[n := Placement(mySize, ChildTranslation(containerSize, mySize, pos))];
    }

    /**
     * reshape: resize every managed child, each on its own.  The Java code
     * ignores both arguments and sizes against the container's own size.
     * Afterwards the layout is clean.
     */
    method Reshape(pos: Vec3, size: Vec3)
      requires Valid()
      modifies this
      ensures Valid() && !dirty
      ensures node == old(node) && parent == old(parent) && containerSize == old(containerSize)
      ensures children == old(children) && preferred == old(preferred)
      ensures HasParentAndLockscaling() == old(HasParentAndLockscaling())
      ensures placed.Keys == old(placed).Keys + children.Keys
      ensures forall n :: n in children ==> placed[n] == PlacementOf(n, HasParentAndLockscaling())
      ensures forall n :: n in old(placed) && n !in children ==> placed[n] == old(placed)[n]
    {
      ghost var lock := HasParentAndLockscaling();
      var remaining := children.Keys;
      while remaining != {}
        invariant Valid() && remaining <= children.Keys
        invariant node == old(node) && parent == old(parent) && containerSize == old(containerSize)
        invariant children == old(children) && preferred == old(preferred)
        invariant HasParentAndLockscaling() == lock
        invariant placed.Keys == old(placed).Keys + (children.Keys - remaining)
        invariant forall n :: n in children && n !in remaining ==> placed[n] == PlacementOf(n, lock)
        invariant forall n :: n in old(placed) && (n !in children || n in remaining) ==> placed[n] == old(placed)[n]
        decreases remaining
      {
        var n :| n in remaining;
        Resize(n);
        remaining := remaining - {n};
      }
      dirty := false;
    }

    /**
     * calculatePreferredSize: the children's preferred sizes folded in the
     * HashMap's iteration order, which is unspecified; `order` is the order
     * this run visited them in.  Width and depth are the largest child width
     * and depth (0 if none is positive); the height keeps the Java code's quirk
     * and is 0 or the depth of some child.
     */
    method CalculatePreferredSize() returns (size: Vec3, ghost order: seq<NodeId>)
      requires Valid()
      ensures Enumerates(order, children.Keys)
      ensures forall i :: 0 <= i < |order| ==> order[i] in preferred
      ensures size == PreferredSizeOf(PrefsAlong(order, preferred))
      ensures children == map[] ==> size == Zero
      ensures forall n :: n in children ==> preferred[n].x <= size.x && preferred[n].z <= size.z
      ensures size.x == 0.0 || exists n :: n in children && preferred[n].x == size.x
      ensures size.z == 0.0 || exists n :: n in children && preferred[n].z == size.z
      ensures size.y == 0.0 || exists n :: n in children && preferred[n].z == size.y
    {
      var prefs := preferred;
      var w, h, z := 0.0, 0.0, 0.0;
      var remaining := prefs.Keys;
      order := [];
      ghost var visited: set<NodeId> := {};
      while remaining != {}
        invariant remaining !! visited && remaining + visited == prefs.Keys
        invariant Enumerates(order, visited)
        invariant forall i :: 0 <= i < |order| ==> order[i] in prefs
        invariant Vec3(w, h, z) == PreferredSizeOf(PrefsAlong(order, prefs))
        decreases remaining
      {
        var n :| n in remaining;
        var d := prefs[n];
        VisitStep(order, visited, n, prefs);
        if d.x > w {
          w := d.x;
        }
        if d.y > h {
          h := d.z;
        }
        if d.z > z {
          z := d.z;
        }
        order, visited := order + [n], visited + {n};
        remaining := remaining - {n};
      }
      size := Vec3(w, h, z);
      PreferredOverRegistry(order, prefs, children.Keys);
    }

    /**
     * addChild: a node without a GuiControl is rejected (IllegalArgument) and
     * null is returned as it is, both without any change; otherwise the node
     * is (re-)registered with attributes freshly derived from the constraints,
     * replacing any earlier entry, and the layout is invalidated.
     */
    method AddChild(n: Option<GuiNode>, constraints: seq<Value>) returns (r: Result<Option<GuiNode>>)
      requires Valid()
      modifies this
      ensures Valid()
      ensures n.Some? && n.value.control.None? ==> r == Failure(IllegalArgument) && unchanged(this)
      ensures n.None? ==> r == Success(None) && unchanged(this)
      ensures n.Some? && n.value.control.Some? ==>
        && r == Success(n)
        && children == old(children)[n.value.id := DeriveAttributes(constraints)]
        && preferred == old(preferred)[n.value.id := n.value.control.value]
        && dirty
      ensures node == old(node) && parent == old(parent) && containerSize == old(containerSize)
      ensures placed == old(placed)
    {
      if n.Some? && n.value.control.None? {
        return Failure(IllegalArgument);
      }
      if n.None? {
        return Success(None);
      }
      var id := n.value.id;
      if id in children {
        RemoveChild(Some(id));
      }
      var attributes := NewAttributes(constraints);
      children := children[id := attributes];
      preferred := preferred[id := n.value.control.value];
      dirty := true;
      return Success(n);
    }

    /**
     * removeChild: drop `n` and invalidate; null, or a node that is not
     * registered, changes nothing.
     */
    method RemoveChild(n: Option<NodeId>)
      requires Valid()
      modifies this
      ensures Valid()
      ensures (n.None? || n.value !in old(children)) ==> unchanged(this)
      ensures n.Some? && n.value in old(children) ==>
        children == old(children) - {n.value} && preferred == old(preferred) - {n.value} && dirty
      ensures node == old(node) && parent == old(parent) && containerSize == old(containerSize)
      ensures placed == old(placed)
    {
      if n.Some? && n.value in children {
        children := children - {n.value};
        preferred := preferred - {n.value};
        dirty := true;
      }
    }

    /** clearChildren: forget every child and invalidate. */
    method ClearChildren()
      requires Valid()
      modifies this
      ensures Valid()
      ensures children == map[] && preferred == map[] && dirty
      ensures node == old(node) && parent == old(parent) && containerSize == old(containerSize)
      ensures placed == old(placed)
    {
      children := map[];
      preferred := map[];
      dirty := true;
    }

    /**
     * getAttribute: a null name or node is an IllegalArgument; a node that is
     * not registered gives null whatever the name; otherwise an unknown name is
     * an AssertionError and a known one gives a value of that attribute's type.
     */
    function GetAttribute(ac: Option<string>, tar: Option<NodeId>): (r: Result<Value>)
      reads this
      ensures r == Failure(IllegalArgument) <==> ac.None? || tar.None?
      ensures ac.Some? && tar.Some? && tar.value !in children ==> r == Success(Null)
      ensures r == Failure(AssertionFailure) <==>
        ac.Some? && tar.Some? && tar.value in children && !IsAttributeName(ac.value)
      ensures r.Success? && r.value != Null ==> tar.value in children && Accepts(ac.value, r.value)
    {
      if ac.None? || tar.None? then Failure(IllegalArgument)
      else if tar.value !in children then Success(Null)
      else match ReadAttribute(children[tar.value], ac.value)
        case None => Failure(AssertionFailure)
        case Some(v) => Success(v)
    }

    /**
     * setAttribute: a null name or node is an IllegalArgument and a node that
     * is not registered gives false, both without change.  On a registered
     * node an unknown name is an AssertionError; a value of the wrong type
     * gives false, except that a non-Alignment for Alignment gives true; both
     * change nothing.  An accepted value replaces that attribute alone, reads
     * back as written, and invalidates the layout unless it is a FontSize.
     */
    method SetAttribute(ac: Option<string>, tar: Option<NodeId>, value: Value) returns (r: Result<bool>)
      requires Valid()
      modifies this
      ensures Valid()
      ensures ac.None? || tar.None? ==> r == Failure(IllegalArgument) && unchanged(this)
      ensures ac.Some? && tar.Some? && tar.value !in old(children) ==> r == Success(false) && unchanged(this)
      ensures ac.Some? && tar.Some? && tar.value in old(children) ==>
        match WriteAttribute(old(children)[tar.value], ac.value, value)
        case UnknownName => r == Failure(AssertionFailure) && unchanged(this)
        case WrongType => r == Success(false) && unchanged(this)
        case Ignored => r == Success(true) && unchanged(this)
        case Written(a, invalidates) =>
          && r == Success(true)
          && children == old(children)[tar.value := a]
          && dirty == (old(dirty) || invalidates)
          && GetAttribute(ac, tar) == Success(value)
      ensures children.Keys == old(children.Keys) && preferred == old(preferred)
      ensures node == old(node) && parent == old(parent) && containerSize == old(containerSize)
      ensures placed == old(placed)
    {
      if ac.None? || tar.None? {
        return Failure(IllegalArgument);
      }
      var t := tar.value;
      if t !in children {
        return Success(false);
      }
      var outcome := WriteAttribute(children[t], ac.value, value);
      match outcome
      case UnknownName =>
        r := Failure(AssertionFailure);
      case WrongType =>
        r := Success(false);
      case Ignored =>
        r := Success(true);
      case Written(a, invalidates) =>
        ReadAfterWrite(children[t], ac.value, value);
        children := children[t := a];
        if invalidates {
          dirty := true;
        }
        r := Success(true);
    }
  }
}
