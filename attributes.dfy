/**
 * MyLayout.Attributes: what the layout keeps for every child it manages, the
 * constructor that sniffs a lock-scaling flag and an anchor out of the
 * constraints passed to addChild, and the five named attributes that
 * getAttribute and setAttribute read and write.
 */
module AttributeStore {
  import opened Common
  import opened Geometry

  /** The attribute names MyLayout exports. */
  const PositionName: string := "Position"
  const AlignmentName: string := "Alignment"
  const FontSizeName: string := "FontSize"
  const LockscalingName: string := "Lockscaling"
  const DepthPositionName: string := "DepthPosition"

  predicate IsAttributeName(name: string)
  {
    name in {PositionName, AlignmentName, FontSizeName, LockscalingName, DepthPositionName}
  }

  /**
   * A Java object passed as a constraint or an attribute value: null, a
   * Boolean, an Alignment, a Number (read through floatValue()), a Vector3f,
   * or anything else.
   */
  datatype Value = Null | Bool(b: bool) | Align(alignment: Alignment) | Number(n: real) | Vector(v: Vec3) | Other

  /** The per-child attributes.  fontsize is a Java float field, so it starts at 0. */
  datatype Attributes = Attributes(lockscaling: bool, originalPos: Vec3, alignment: Alignment, fontsize: real)

  /** The first Boolean among the constraints, if any. */
  function FirstBool(cs: seq<Value>): Option<bool>
  {
    if |cs| == 0 then None
    else if cs[0].Bool? then Some(cs[0].b)
    else FirstBool(cs[1..])
  }

  /** The first Alignment among the constraints, if any. */
  function FirstAlignment(cs: seq<Value>): Option<Alignment>
  {
    if |cs| == 0 then None
    else if cs[0].Align? then Some(cs[0].alignment)
    else FirstAlignment(cs[1..])
  }

  /**
   * The attributes addChild derives from its constraints: the first Boolean
   * (default false), the first Alignment (default Center), a zero offset and a
   * zero font size.  Everything else among the constraints is ignored.
   */
  function DeriveAttributes(cs: seq<Value>): Attributes
  {
    Attributes(FirstBool(cs).GetOr(false), Zero, FirstAlignment(cs).GetOr(Center), 0.0)
  }

  /**
   * FirstBool(cs) is Some(b) exactly when some constraint is the Boolean b and
   * no Boolean comes before it.
   */
  lemma {:induction false} FirstBoolIff(cs: seq<Value>, b: bool)
    ensures FirstBool(cs) == Some(b) <==>
      exists i :: 0 <= i < |cs| && cs[i] == Bool(b) && forall j :: 0 <= j < i ==> !cs[j].Bool?
  {
    if |cs| > 0 && !cs[0].Bool? {
      var tail := cs[1..];
      FirstBoolIff(tail, b);
      if FirstBool(cs) == Some(b) {
        var k :| 0 <= k < |tail| && tail[k] == Bool(b) && forall j :: 0 <= j < k ==> !tail[j].Bool?;
        assert forall j :: 1 <= j < k + 1 ==> cs[j] == tail[j - 1];
        assert cs[k + 1] == Bool(b);
      }
      if exists i :: 0 <= i < |cs| && cs[i] == Bool(b) && forall j :: 0 <= j < i ==> !cs[j].Bool? {
        var i :| 0 <= i < |cs| && cs[i] == Bool(b) && forall j :: 0 <= j < i ==> !cs[j].Bool?;
        assert forall j :: 0 <= j < i - 1 ==> tail[j] == cs[j + 1];
        assert tail[i - 1] == Bool(b);
      }
    }
  }

  /** FirstBool finds nothing exactly when there is no Boolean at all. */
  lemma {:induction false} FirstBoolNone(cs: seq<Value>)
    ensures FirstBool(cs).None? <==> forall i :: 0 <= i < |cs| ==> !cs[i].Bool?
  {
    if |cs| > 0 {
      FirstBoolNone(cs[1..]);
      assert forall i :: 1 <= i < |cs| ==> cs[i] == cs[1..][i - 1];
    }
  }

  /**
   * FirstAlignment(cs) is Some(al) exactly when some constraint is the
   * Alignment al and no Alignment comes before it.
   */
  lemma {:induction false} FirstAlignmentIff(cs: seq<Value>, al: Alignment)
    ensures FirstAlignment(cs) == Some(al) <==>
      exists i :: 0 <= i < |cs| && cs[i] == Align(al) && forall j :: 0 <= j < i ==> !cs[j].Align?
  {
    if |cs| > 0 && !cs[0].Align? {
      var tail := cs[1..];
      FirstAlignmentIff(tail, al);
      if FirstAlignment(cs) == Some(al) {
        var k :| 0 <= k < |tail| && tail[k] == Align(al) && forall j :: 0 <= j < k ==> !tail[j].Align?;
        assert forall j :: 1 <= j < k + 1 ==> cs[j] == tail[j - 1];
        assert cs[k + 1] == Align(al);
      }
      if exists i :: 0 <= i < |cs| && cs[i] == Align(al) && forall j :: 0 <= j < i ==> !cs[j].Align? {
        var i :| 0 <= i < |cs| && cs[i] == Align(al) && forall j :: 0 <= j < i ==> !cs[j].Align?;
        assert forall j :: 0 <= j < i - 1 ==> tail[j] == cs[j + 1];
        assert tail[i - 1] == Align(al);
      }
    }
  }

  /** FirstAlignment finds nothing exactly when there is no Alignment at all. */
  lemma {:induction false} FirstAlignmentNone(cs: seq<Value>)
    ensures FirstAlignment(cs).None? <==> forall i :: 0 <= i < |cs| ==> !cs[i].Align?
  {
    if |cs| > 0 {
      FirstAlignmentNone(cs[1..]);
      assert forall i :: 1 <= i < |cs| ==> cs[i] == cs[1..][i - 1];
    }
  }

  /** Scanning one more constraint: a result already found stays; otherwise the new one may supply it. */
  lemma {:induction false} FirstSnoc(cs: seq<Value>, v: Value)
    ensures FirstBool(cs + [v]) == if FirstBool(cs).Some? then FirstBool(cs) else if v.Bool? then Some(v.b) else None
    ensures FirstAlignment(cs + [v]) == if FirstAlignment(cs).Some? then FirstAlignment(cs) else if v.Align? then Some(v.alignment) else None
  {
    if |cs| > 0 {
      assert (cs + [v])[1..] == cs[1..] + [v];
      FirstSnoc(cs[1..], v);
    }
  }

  /** Constraints after the first Boolean and the first Alignment cannot change either. */
  lemma {:induction false} FirstIgnoresRest(cs: seq<Value>, rest: seq<Value>)
    ensures FirstBool(cs).Some? ==> FirstBool(cs + rest) == FirstBool(cs)
    ensures FirstAlignment(cs).Some? ==> FirstAlignment(cs + rest) == FirstAlignment(cs)
  {
    if |cs| > 0 {
      assert (cs + rest)[1..] == cs[1..] + rest;
      FirstIgnoresRest(cs[1..], rest);
    }
  }

  /**
   * The Attributes constructor: one pass over the constraints, skipping nulls,
   * keeping the first Boolean and the first Alignment, and stopping as soon as
   * both are known.
   */
  method NewAttributes(constraints: seq<Value>) returns (a: Attributes)
    ensures a == DeriveAttributes(constraints)
  {
    var lockscaling: Option<bool> := None;
    var alignment: Option<Alignment> := None;
    var i := 0;
    while i < |constraints|
      invariant 0 <= i <= |constraints|
      invariant lockscaling == FirstBool(constraints[..i])
      invariant alignment == FirstAlignment(constraints[..i])
    {
      var element := constraints[i];
      assert constraints[..i + 1] == constraints[..i] + [element];
      FirstSnoc(constraints[..i], element);
      i := i + 1;
      if element.Null? {
        continue;
      }
      if element.Bool? && lockscaling.None? {
        lockscaling := Some(element.b);
      } else if element.Align? && alignment.None? {
        alignment := Some(element.alignment);
      }
      if alignment.Some? && lockscaling.Some? {
        break;
      }
    }
    if i == |constraints| {
      assert constraints[..i] == constraints;
    } else {
      // the loop broke early: both values are known and the rest cannot change them
      assert constraints == constraints[..i] + constraints[i..];
      FirstIgnoresRest(constraints[..i], constraints[i..]);
    }
    a := Attributes(lockscaling.GetOr(false), Zero, alignment.GetOr(Center), 0.0);
  }

  /** Whether `v` has the type setAttribute accepts for the attribute `name`. */
  predicate Accepts(name: string, v: Value)
  {
    if name == AlignmentName then v.Align?
    else if name == DepthPositionName || name == FontSizeName then v.Number?
    else if name == LockscalingName then v.Bool?
    else if name == PositionName then v.Vector?
    else false
  }

  /**
   * The switch of getAttribute on a registered child: the value of the named
   * attribute, or None for a name outside the five (an AssertionError).
   * DepthPosition is the z of the offset.
   */
  function ReadAttribute(a: Attributes, name: string): (r: Option<Value>)
    ensures r.None? <==> !IsAttributeName(name)
    ensures r.Some? ==> Accepts(name, r.value)
  {
    if name == AlignmentName then Some(Align(a.alignment))
    else if name == DepthPositionName then Some(Number(a.originalPos.z))
    else if name == FontSizeName then Some(Number(a.fontsize))
    else if name == LockscalingName then Some(Bool(a.lockscaling))
    else if name == PositionName then Some(Vector(a.originalPos))
    else None
  }

  /**
   * What the switch of setAttribute does to a registered child: an unknown name
   * (AssertionError); a value of the wrong type (returns false); an Alignment
   * attribute given a non-Alignment (returns true, nothing changes); or new
   * attributes, and whether the change invalidates the layout.
   */
  datatype WriteOutcome = UnknownName | WrongType | Ignored | Written(attributes: Attributes, invalidates: bool)

  /**
   * The switch of setAttribute on a registered child.  Every accepted write
   * invalidates except FontSize, which is stored and applied to the label at
   * once instead.
   */
  function WriteAttribute(a: Attributes, name: string, v: Value): (r: WriteOutcome)
    ensures r.UnknownName? <==> !IsAttributeName(name)
    ensures r.Written? <==> Accepts(name, v)
    ensures r.Ignored? <==> name == AlignmentName && !v.Align?
    ensures r.Written? ==> (r.invalidates <==> name != FontSizeName)
  {
    if name == AlignmentName then
      if v.Align? then Written(a.(alignment := v.alignment), true) else Ignored
    else if name == DepthPositionName then
      if v.Number? then Written(a.(originalPos := a.originalPos.(z := v.n)), true) else WrongType
    else if name == FontSizeName then
      if v.Number? then Written(a.(fontsize := v.n), false) else WrongType
    else if name == LockscalingName then
      if v.Bool? then Written(a.(lockscaling := v.b), true) else WrongType
    else if name == PositionName then
      if v.Vector? then Written(a.(originalPos := v.v), true) else WrongType
    else UnknownName
  }

  /** Reading an attribute back after an accepted write gives the value written. */
  lemma ReadAfterWrite(a: Attributes, name: string, v: Value)
    requires WriteAttribute(a, name, v).Written?
    ensures ReadAttribute(WriteAttribute(a, name, v).attributes, name) == Some(v)
  {
  }

  /**
   * An accepted write leaves every other attribute as it was, except that
   * Position and DepthPosition share the offset's z: writing DepthPosition is
   * seen through Position as a change of z alone, and writing Position is seen
   * through DepthPosition as its new z.
   */
  lemma WriteLeavesOthers(a: Attributes, name: string, other: string, v: Value)
    requires WriteAttribute(a, name, v).Written?
    requires other != name
    ensures var a' := WriteAttribute(a, name, v).attributes;
      if name == DepthPositionName && other == PositionName then
        ReadAttribute(a', other) == Some(Vector(Vec3(a.originalPos.x, a.originalPos.y, v.n)))
      else if name == PositionName && other == DepthPositionName then
        ReadAttribute(a', other) == Some(Number(v.v.z))
      else ReadAttribute(a', other) == ReadAttribute(a, other)
  {
  }
  /** Writing back the value just read is accepted and changes nothing. */
  lemma WriteWhatWasRead(a: Attributes, name: string)
    requires IsAttributeName(name)
    ensures WriteAttribute(a, name, ReadAttribute(a, name).value).Written?
    ensures WriteAttribute(a, name, ReadAttribute(a, name).value).attributes == a
  {
  }

  /**
   * The attributes addChild derives: lock scaling is on exactly when the first
   * Boolean constraint is true, and the anchor is Center when no constraint is
   * an Alignment.  Duplicates after the first of each kind are ignored.
   */
  lemma DerivedDefaults(cs: seq<Value>)
    ensures DeriveAttributes(cs).lockscaling <==>
      exists i :: 0 <= i < |cs| && cs[i] == Bool(true) && forall j :: 0 <= j < i ==> !cs[j].Bool?
    ensures (forall i :: 0 <= i < |cs| ==> !cs[i].Align?) ==> DeriveAttributes(cs).alignment == Center
    ensures DeriveAttributes(cs).originalPos == Zero
  {
    FirstBoolIff(cs, true);
    FirstBoolNone(cs);
    FirstAlignmentNone(cs);
  }
}
