/**
 * Axis-aligned boxes (Unity's Bounds) as exact min/max corners, Encapsulate,
 * and CalculatePrefabBounds, which folds Encapsulate over the renderer boxes.
 */
module Bounds {
  datatype Vec3 = Vec3(x: real, y: real, z: real)

  datatype Axis = X | Y | Z

  function Coord(v: Vec3, a: Axis): real
  {
    match a
    case X => v.x
    case Y => v.y
    case Z => v.z
  }

  /** Mathf.Min and Mathf.Max */
  function Min(a: real, b: real): real { if a < b then a else b }
  function Max(a: real, b: real): real { if a > b then a else b }

  /** Vector3.Min and Vector3.Max: per axis. */
  function Vec3Min(u: Vec3, v: Vec3): Vec3 { Vec3(Min(u.x, v.x), Min(u.y, v.y), Min(u.z, v.z)) }
  function Vec3Max(u: Vec3, v: Vec3): Vec3 { Vec3(Max(u.x, v.x), Max(u.y, v.y), Max(u.z, v.z)) }

  datatype Box = Box(min: Vec3, max: Vec3)

  /** default(Bounds): zero center and zero extents. */
  const DefaultBounds := Box(Vec3(0.0, 0.0, 0.0), Vec3(0.0, 0.0, 0.0))

  /** Half the size on each axis. */
  function Extents(b: Box): Vec3
  {
    Vec3((b.max.x - b.min.x) / 2.0, (b.max.y - b.min.y) / 2.0, (b.max.z - b.min.z) / 2.0)
  }

  /** A box whose extents are not negative on any axis. */
  predicate WellFormed(b: Box)
  {
    forall a: Axis :: Coord(Extents(b), a) >= 0.0
  }

  predicate Contains(outer: Box, inner: Box)
  {
    forall a: Axis :: Coord(outer.min, a) <= Coord(inner.min, a) && Coord(inner.max, a) <= Coord(outer.max, a)
  }

  /** Bounds.Encapsulate(Bounds): grow acc so that it contains b as well. */
  function Encapsulate(acc: Box, b: Box): Box
  {
    Box(Vec3Min(acc.min, b.min), Vec3Max(acc.max, b.max))
  }

  /** Encapsulate gives the least box containing both of its arguments. */
  lemma EncapsulateIsLeast(acc: Box, b: Box)
    ensures Contains(Encapsulate(acc, b), acc) && Contains(Encapsulate(acc, b), b)
    ensures forall c: Box :: Contains(c, acc) && Contains(c, b) ==> Contains(c, Encapsulate(acc, b))
  {
  }

  /** The smallest min coordinate on axis a over the non-empty list of boxes s. */
  function LowestMin(s: seq<Box>, a: Axis): (r: real)
    requires |s| > 0
    ensures forall i :: 0 <= i < |s| ==> r <= Coord(s[i].min, a)
    ensures exists i :: 0 <= i < |s| && r == Coord(s[i].min, a)
  {
    if |s| == 1 then Coord(s[0].min, a)
    else
      var front := s[..|s| - 1];
      var m := LowestMin(front, a);
      assert exists i :: 0 <= i < |front| && m == Coord(s[i].min, a);
      Min(m, Coord(s[|s| - 1].min, a))
  }

  /** The largest max coordinate on axis a over the non-empty list of boxes s. */
  function HighestMax(s: seq<Box>, a: Axis): (r: real)
    requires |s| > 0
    ensures forall i :: 0 <= i < |s| ==> Coord(s[i].max, a) <= r
    ensures exists i :: 0 <= i < |s| && r == Coord(s[i].max, a)
  {
    if |s| == 1 then Coord(s[0].max, a)
    else
      var front := s[..|s| - 1];
      var m := HighestMax(front, a);
      assert exists i :: 0 <= i < |front| && m == Coord(s[i].max, a);
      Max(m, Coord(s[|s| - 1].max, a))
  }

  /** The union of a non-empty list of boxes: per-axis min of mins and max of maxes. */
  function Hull(s: seq<Box>): Box
    requires |s| > 0
  {
    Box(Vec3(LowestMin(s, X), LowestMin(s, Y), LowestMin(s, Z)),
        Vec3(HighestMax(s, X), HighestMax(s, Y), HighestMax(s, Z)))
  }

  lemma HullCoords(s: seq<Box>, a: Axis)
    requires |s| > 0
    ensures Coord(Hull(s).min, a) == LowestMin(s, a) && Coord(Hull(s).max, a) == HighestMax(s, a)
  {
  }

  /** Every box of the list lies inside the union. */
  lemma HullContainsAll(s: seq<Box>)
    requires |s| > 0
    ensures forall i :: 0 <= i < |s| ==> Contains(Hull(s), s[i])
  {
    forall i, a: Axis | 0 <= i < |s|
      ensures Coord(Hull(s).min, a) <= Coord(s[i].min, a) && Coord(s[i].max, a) <= Coord(Hull(s).max, a)
    {
      HullCoords(s, a);
    }
  }

  /** The union is the least box that contains every box of the list. */
  lemma HullIsLeast(s: seq<Box>, c: Box)
    requires |s| > 0
    requires forall i :: 0 <= i < |s| ==> Contains(c, s[i])
    ensures Contains(c, Hull(s))
  {
    forall a: Axis
      ensures Coord(c.min, a) <= Coord(Hull(s).min, a) && Coord(Hull(s).max, a) <= Coord(c.max, a)
    {
      HullCoords(s, a);
      var i :| 0 <= i < |s| && LowestMin(s, a) == Coord(s[i].min, a);
      var j :| 0 <= j < |s| && HighestMax(s, a) == Coord(s[j].max, a);
      assert Contains(c, s[i]) && Contains(c, s[j]);
    }
  }

  /** The union depends only on which boxes occur, not on their order or repetitions. */
  lemma HullSameElements(s: seq<Box>, t: seq<Box>)
    requires |s| > 0 && |t| > 0
    requires forall b :: b in s <==> b in t
    ensures Hull(s) == Hull(t)
  {
    forall a: Axis
      ensures LowestMin(s, a) == LowestMin(t, a) && HighestMax(s, a) == HighestMax(t, a)
    {
      var i :| 0 <= i < |s| && LowestMin(s, a) == Coord(s[i].min, a);
      var j :| 0 <= j < |t| && LowestMin(t, a) == Coord(t[j].min, a);
      assert s[i] in t && t[j] in s;
      var k :| 0 <= k < |s| && HighestMax(s, a) == Coord(s[k].max, a);
      var l :| 0 <= l < |t| && HighestMax(t, a) == Coord(t[l].max, a);
      assert s[k] in t && t[l] in s;
    }
  }

  /** Renderer order does not matter. */
  lemma HullPermutation(s: seq<Box>, t: seq<Box>)
    requires |s| > 0
    requires multiset(s) == multiset(t)
    ensures |t| == |s| && Hull(s) == Hull(t)
  {
    assert |t| == |multiset(t)| == |multiset(s)| == |s|;
    forall b ensures b in s <==> b in t {
      assert b in s <==> b in multiset(s);
      assert b in t <==> b in multiset(t);
    }
    HullSameElements(s, t);
  }

  /** Encapsulating renderers[0] once more, as the loop does first, has no effect. */
  lemma HullRepeatFirst(s: seq<Box>)
    requires |s| > 0
    ensures Hull([s[0]] + s) == Hull(s)
  {
    HullSameElements([s[0]] + s, s);
  }

  /** A box is well-formed exactly when its min corner is below its max corner on every axis. */
  lemma WellFormedIff(b: Box)
    ensures WellFormed(b) <==> forall a: Axis :: Coord(b.min, a) <= Coord(b.max, a)
  {
    forall a: Axis ensures Coord(Extents(b), a) >= 0.0 <==> Coord(b.min, a) <= Coord(b.max, a) {
      match a
      case X =>
      case Y =>
      case Z =>
    }
  }

  /** The union of well-formed boxes is well-formed: its extents are not negative. */
  lemma HullWellFormed(s: seq<Box>)
    requires |s| > 0
    requires forall i :: 0 <= i < |s| ==> WellFormed(s[i])
    ensures WellFormed(Hull(s))
  {
    WellFormedIff(s[0]);
    WellFormedIff(Hull(s));
    forall a: Axis ensures Coord(Hull(s).min, a) <= Coord(Hull(s).max, a) {
      HullCoords(s, a);
    }
  }

  /** Adding one box to the list encapsulates it into the union. */
  lemma HullSnoc(s: seq<Box>, b: Box)
    requires |s| > 0
    ensures Hull(s + [b]) == Encapsulate(Hull(s), b)
  {
    assert (s + [b])[..|s|] == s;
  }

  /** Encapsulating a box into itself changes nothing. */
  lemma EncapsulateSelf(b: Box)
    ensures Encapsulate(b, b) == b
  {
  }

  lemma HullSingleton(s: seq<Box>)
    requires |s| > 0
    ensures Hull(s[..1]) == s[0]
  {
    assert s[..1] == [s[0]];
  }

  lemma HullPrefixStep(s: seq<Box>, i: nat)
    requires 0 < i < |s|
    ensures Encapsulate(Hull(s[..i]), s[i]) == Hull(s[..i + 1])
  {
    assert s[..i] + [s[i]] == s[..i + 1];
    HullSnoc(s[..i], s[i]);
  }

  /** One step of the loop: the first step re-encapsulates renderers[0], the others add renderers[i]. */
  lemma EncapsulatePrefix(s: seq<Box>, i: nat)
    requires i < |s|
    ensures Encapsulate(Hull(s[..if i == 0 then 1 else i]), s[i]) == Hull(s[..i + 1])
  {
    if i == 0 {
      HullSingleton(s);
      EncapsulateSelf(s[0]);
    } else {
      HullPrefixStep(s, i);
    }
  }

  function BoundsOf(renderers: seq<Box>): Box
  {
    if |renderers| == 0 then DefaultBounds else Hull(renderers)
  }

  /**
   * CalculatePrefabBounds over the world boxes of the instance's renderers:
   * the default box (and an error message) when there are none, otherwise
   * renderers[0] encapsulated with every renderer in turn.
   */
  method CalculatePrefabBounds(renderers: seq<Box>) returns (bounds: Box, noRenderers: bool)
    ensures noRenderers <==> |renderers| == 0
    ensures noRenderers ==> bounds == DefaultBounds
    ensures !noRenderers ==> bounds == Hull(renderers)
  {
    if |renderers| == 0 {
      return DefaultBounds, true;
    }
    noRenderers := false;
    bounds := renderers[0];
    HullSingleton(renderers);
    for i := 0 to |renderers|
      invariant bounds == Hull(renderers[..if i == 0 then 1 else i])
    {
      EncapsulatePrefix(renderers, i);
      bounds := Encapsulate(bounds, renderers[i]);
    }
    assert renderers[..|renderers|] == renderers;
  }
}
