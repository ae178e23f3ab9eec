# MyLayout: an anchored, resolution-independent GUI layout

This project models the layout engine `MyLayout` of the game Jaime's Ascent. The engine is a
Lemur `GuiLayout` that positions and sizes GUI panels inside a container. It pins each child
to one of nine anchors (corners, edge midpoints, centre). It scales each child's size and
offset by the ratio between the physical window and a fixed design resolution. A
"lock-scaling" child keeps its aspect ratio by scaling its width with the vertical factor.

The model has four modules:

- `Common`: `Option` (a Java reference that may be null), `Result`, and the two exceptions
  the layout throws (`IllegalArgument` for `IllegalArgumentException`, `AssertionFailure`
  for `AssertionError`).
- `Geometry`: `Vec3` (jME's `Vector3f`, with floats as exact reals), the nine-valued
  `Alignment`, `RootPane.ScaleFactor`, the anchor switch `CalculatePosition`, and the size
  and translation that `Control.resize` computes.
- `AttributeStore`: the per-child `Attributes`, the constraint scan of the `Attributes`
  constructor (`NewAttributes`, a loop with an early `break`, proved against
  `DeriveAttributes`), and the switches of `getAttribute` and `setAttribute` on one child
  (`ReadAttribute`, `WriteAttribute`).
- `Layout`: the class `MyLayout`. Its fields are the children registry (`children`), each
  child's preferred size, what `resize` last set on each node (`placed`), the container's
  size, the container's parent, and a `dirty` flag. The flag stands for Lemur's
  `invalidate()`.

How the scene graph is represented:

- A node offered to `addChild` is a `GuiNode`: an identity plus, when the node carries a
  GuiControl, that control's preferred size.
- The container's parent is a `ParentNode`. It is either absent, or a node with or without a
  GuiControl. A GuiControl is described by its layout: none, another `GuiLayout`, or a live
  reference to a `MyLayout`. `HasParentAndLockscaling` reads that parent layout's registry.
- Java object arguments (constraints and attribute values) are the datatype `Value`:
  null, Boolean, Alignment, Number, Vector3f, or any other object.

Behaviour of the code worth knowing:

- The X factor of a child's position depends only on whether this layout's own container is
  registered as lock-scaling in the parent container's `MyLayout`
  (`MyLayout.java:334-353`). It is the same for every child. The child's own flag only
  affects its width (`MyLayout.java:146`).
- The z scale factor tests only `resolution.z` for zero (`MyLayout.java:281`). A zero
  window depth there is excluded by `RootPane.WellFormed`.
- In `calculatePreferredSize` the height is compared against the child's y but takes the
  child's z (`MyLayout.java:324-326`). This is reproduced as written. The height therefore
  depends on the unspecified HashMap order: `PreferredHeightOrderDependent` shows two
  children that give different heights in the two orders. Width and depth do not depend on
  the order (`PreferredWidthDepthOrderFree`).
- `getAttribute` and `setAttribute` look the node up before switching on the name. An unknown
  name on an unregistered node therefore gives null or false, not an `AssertionError`.
- `setAttribute(FontSize, …)` stores the value for any registered node. Only the relabelling
  that follows depends on the node being a `Label`.
- `setAttribute` invalidates the child's GuiControl. `addChild`, `removeChild` and
  `clearChildren` invalidate the layout itself. Both are modelled by the one `dirty` flag.
  `Reshape` clears it, standing for the relayout Lemur performs.
- `reshape(pos, size)` ignores both arguments. It sizes children against the container's
  own GuiControl size, `containerSize`.
- The nine cases of `calculatePosition` each repeat an `if` whose two branches differ only in
  the factor applied to the x offset. `CalculatePosition` computes that scaled offset once
  and keeps the nine cases.

## Model

| member | source | states |
|---|---|---|
| `Geometry.RootPane.ScaleFactor` | src/main/java/jme3test/jaimesascent/ui/MyLayout.java:278-283 | x and y factors times the resolution give the window, the z factor times the window gives the resolution (z inverted), and an axis with zero resolution gets factor 0 |
| `Geometry.CalculatePosition` | src/main/java/jme3test/jaimesascent/ui/MyLayout.java:161-265 | for every anchor: depth is the z offset times the z factor; a Left/Right anchor puts the child's left/right edge the scaled x offset inside the container's edge, a Middle one its centre at the scaled offset; the same for Top/Bottom/Level with y; x is scaled by the y factor exactly when lock is set |
| `Geometry.MirrorNegatesX` | src/main/java/jme3test/jaimesascent/ui/MyLayout.java:203-262 | swapping a Left anchor for the Right anchor of the same row negates the x position and keeps y |
| `Geometry.AnchorAxesIndependent` | src/main/java/jme3test/jaimesascent/ui/MyLayout.java:172-262 | the x position depends only on the anchor's column and y only on its row |
| `Geometry.LockUsesVerticalFactor` | src/main/java/jme3test/jaimesascent/ui/MyLayout.java:172-262 | a locked position equals the unlocked one computed with the x factor replaced by the y factor, and lock makes no difference when both factors agree |
| `Geometry.AnchorExamples` | src/main/java/jme3test/jaimesascent/ui/MyLayout.java:172-262 | container (200,100), child (50,20), no offset, unit scale: Center (0,0), CenterTop (0,40), CenterBottom (0,-40), LeftCenter (-75,0), LeftTop (-75,40), LeftBottom (-75,-40), RightCenter (75,0), RightTop (75,40), RightBottom (75,-40) |
| `Geometry.ChildSize` | src/main/java/jme3test/jaimesascent/ui/MyLayout.java:141-150 | y and z scaled by their own factors; an unlocked width scaled by the x factor, a lock-scaling child's width by the y factor, so that it keeps its preferred aspect ratio |
| `Geometry.ChildTranslation` | src/main/java/jme3test/jaimesascent/ui/MyLayout.java:152-158 | the child's centre lies at the container's centre plus the anchored position, on all three axes |
| `AttributeStore.FirstBoolIff` | src/main/java/jme3test/jaimesascent/ui/MyLayout.java:83-89 | the scan yields Boolean b exactly when some constraint is b and no Boolean precedes it |
| `AttributeStore.FirstBoolNone` | src/main/java/jme3test/jaimesascent/ui/MyLayout.java:83-101 | the scan yields no Boolean exactly when there is none among the constraints |
| `AttributeStore.FirstAlignmentIff` | src/main/java/jme3test/jaimesascent/ui/MyLayout.java:83-93 | the scan yields Alignment al exactly when some constraint is al and no Alignment precedes it |
| `AttributeStore.FirstAlignmentNone` | src/main/java/jme3test/jaimesascent/ui/MyLayout.java:83-104 | the scan yields no Alignment exactly when there is none among the constraints |
| `AttributeStore.FirstSnoc` | src/main/java/jme3test/jaimesascent/ui/MyLayout.java:87-93 | one more constraint keeps a value already found and otherwise may supply it |
| `AttributeStore.FirstIgnoresRest` | src/main/java/jme3test/jaimesascent/ui/MyLayout.java:95-97 | once both values are found, later constraints cannot change them, so the early break is safe |
| `AttributeStore.NewAttributes` | src/main/java/jme3test/jaimesascent/ui/MyLayout.java:82-107 | the constructor's loop, skipping nulls and breaking early, yields the first Boolean (default false), the first Alignment (default Center), a zero offset and font size 0 |
| `AttributeStore.DerivedDefaults` | src/main/java/jme3test/jaimesascent/ui/MyLayout.java:100-106 | lock scaling is on exactly when the first Boolean constraint is true; no Alignment gives Center; the offset starts at zero |
| `AttributeStore.ReadAttribute` | src/main/java/jme3test/jaimesascent/ui/MyLayout.java:375-392 | an unknown name is the assertion path; each of the five names yields a value of its own type |
| `AttributeStore.WriteAttribute` | src/main/java/jme3test/jaimesascent/ui/MyLayout.java:404-446 | unknown name is the assertion path; a value of the right type is written; a wrong type for Alignment is ignored (true), for the others rejected (false); every write invalidates except FontSize |
| `AttributeStore.ReadAfterWrite` | src/main/java/jme3test/jaimesascent/ui/MyLayout.java:375-446 | an accepted write reads back as the value written (DepthPosition as the new z) |
| `AttributeStore.WriteLeavesOthers` | src/main/java/jme3test/jaimesascent/ui/MyLayout.java:404-446 | an accepted write changes no other attribute, except that Position and DepthPosition share the offset's z |
| `AttributeStore.WriteWhatWasRead` | src/main/java/jme3test/jaimesascent/ui/MyLayout.java:375-446 | writing back the value just read is accepted and changes nothing |
| `Layout.ResizeChild` | src/main/java/jme3test/jaimesascent/ui/MyLayout.java:141-158 | in container coordinates, the child's size is its scaled preferred size and its left, right, top, bottom or centre sits at the scaled offset from the matching side or centre of the container, per its anchor |
| `Layout.PrefsAlong` | src/main/java/jme3test/jaimesascent/ui/MyLayout.java:318-320 | the preferred sizes of the visited children, in visiting order |
| `Layout.PreferredSizeSnoc` | src/main/java/jme3test/jaimesascent/ui/MyLayout.java:318-330 | visiting one more child folds its preferred size into the running result |
| `Layout.PrefsAlongSnoc` | src/main/java/jme3test/jaimesascent/ui/MyLayout.java:318-320 | visiting one more node appends exactly that node's preferred size to the sequence the loop folds |
| `Layout.EnumeratesListing` | src/main/java/jme3test/jaimesascent/ui/MyLayout.java:318 | the visit order lists every registered node, each exactly once, and nothing else |
| `Layout.ListingEnumerates` | src/main/java/jme3test/jaimesascent/ui/MyLayout.java:318 | conversely, any such duplicate-free listing of the nodes is a visit order |
| `Layout.EnumeratesVisit` | src/main/java/jme3test/jaimesascent/ui/MyLayout.java:318 | visiting a node not yet visited keeps the visit order a duplicate-free listing of exactly the visited nodes |
| `Layout.VisitStep` | src/main/java/jme3test/jaimesascent/ui/MyLayout.java:318-330 | one loop iteration: the visit order grows by the new node and the running size folds in that node's preferred size |
| `Layout.PreferredWidthDepthAreMax` | src/main/java/jme3test/jaimesascent/ui/MyLayout.java:313-332 | width and depth are non-negative, bound every child's width and depth, and are 0 or attained by some child |
| `Layout.PreferredHeightQuirk` | src/main/java/jme3test/jaimesascent/ui/MyLayout.java:324-326 | the height is 0 or some child's depth, and 0 when no child has positive height |
| `Layout.PreferredWidthDepthOrderFree` | src/main/java/jme3test/jaimesascent/ui/MyLayout.java:318-330 | any two visiting orders of the same children give the same width and depth |
| `Layout.PreferredHeightOrderDependent` | src/main/java/jme3test/jaimesascent/ui/MyLayout.java:318-330 | two children visited in the two orders give heights 0.5 and 1.0 |
| `Layout.PreferredOverRegistry` | src/main/java/jme3test/jaimesascent/ui/MyLayout.java:313-332 | the same facts over the registry's nodes; no children give (0,0,0) |
| `Layout.MyLayout.constructor` | src/main/java/jme3test/jaimesascent/ui/MyLayout.java:301-306 | a new layout has no children, has placed nothing and is clean |
| `Layout.MyLayout.ParentLayout` | src/main/java/jme3test/jaimesascent/ui/MyLayout.java:295-299 | the parent's layout is used exactly when there is a parent node whose GuiControl exists and holds a MyLayout, and it is that control's own layout |
| `Layout.MyLayout.IsLockscalingChild` | src/main/java/jme3test/jaimesascent/ui/MyLayout.java:347-353 | true only for a registered node, and then exactly its lock-scaling flag |
| `Layout.MyLayout.HasParentAndLockscaling` | src/main/java/jme3test/jaimesascent/ui/MyLayout.java:334-345 | false without a parent, false when the parent's layout is not a MyLayout, and otherwise true exactly when this container is registered there with lock scaling on |
| `Layout.MyLayout.Resize` | src/main/java/jme3test/jaimesascent/ui/MyLayout.java:141-158 | sets exactly the one child's size and translation, as `ResizeChild` places it, and changes nothing else |
| `Layout.MyLayout.Reshape` | src/main/java/jme3test/jaimesascent/ui/MyLayout.java:355-364 | every registered child is placed as `ResizeChild` says, with the same lock answer for all; nodes not registered keep what they had; the registry is unchanged; the layout is clean |
| `Layout.MyLayout.CalculatePreferredSize` | src/main/java/jme3test/jaimesascent/ui/MyLayout.java:312-332 | visits every registered node once; width and depth are the largest preferred width and depth (or 0); height is 0 or some child's depth; an empty registry gives (0,0,0) |
| `Layout.MyLayout.AddChild` | src/main/java/jme3test/jaimesascent/ui/MyLayout.java:449-466 | a node without a GuiControl throws IllegalArgument and null returns null, both without change; otherwise the node's entry is replaced by freshly derived attributes and the layout is dirty |
| `Layout.MyLayout.RemoveChild` | src/main/java/jme3test/jaimesascent/ui/MyLayout.java:468-475 | null or an absent node changes nothing; otherwise only that key is removed and the layout is dirty |
| `Layout.MyLayout.ClearChildren` | src/main/java/jme3test/jaimesascent/ui/MyLayout.java:482-489 | the registry is emptied and the layout is dirty |
| `Layout.MyLayout.GetAttribute` | src/main/java/jme3test/jaimesascent/ui/MyLayout.java:366-393 | null name or node throws IllegalArgument; an unregistered node gives null; on a registered node an unknown name is the assertion path and a known one gives a value of its type |
| `Layout.MyLayout.SetAttribute` | src/main/java/jme3test/jaimesascent/ui/MyLayout.java:395-447 | null name or node throws IllegalArgument, an unregistered node gives false, an unknown name takes the assertion path, a wrong type gives false (true for Alignment), all without change; an accepted value replaces that child's attributes alone, reads back as written, and dirties the layout unless it is a FontSize |

## Left out

- Scene-graph effects are calls into jME and Lemur. These are `attachChild` in `addChild`, `removeFromParent` in `removeChild` and `clearChildren`, `attach`, `detach`, and `isAttached`.
- The body of Lemur's `invalidate()` is external. It is represented only by the `dirty` flag.
- `Control.setFontSize` is a foreign call. It relabels a `Label` or logs a warning. Only the stored font size is modelled, and the fact that it does not invalidate.
- `clone()` always throws `UnsupportedOperationException`. It is not modelled.
- `getChildren`, `getRootPane`, `RootPane.getWindow`, `RootPane.getResolution` and `onCreateRootPane` are plain accessors. The datatypes expose the same values directly.
- Float rounding, NaN and infinities are not modelled: components are exact reals. `RootPane.WellFormed` excludes the one division by zero the code can reach.
- Aliasing of `Vector3f` objects is not modelled. `setAttribute(Position, …)` keeps the caller's vector and `getAttribute(Position, …)` hands the stored one out. In Java a later `DepthPosition` write, or a caller's mutation, is therefore visible through the other reference. Attributes here are values.
- The null check on map entries in `reshape` is not modelled. `addChild` never stores null, so the check cannot fire.
- The preferred size a child's GuiControl reports is fixed when the child is added. In Lemur it may change later.
- Window.java, PauseMenu.java, AbstractScreen.java and Main.java are not part of this model. They are UI wiring, widget construction, app-state lifecycle and bootstrap code around the layout.
