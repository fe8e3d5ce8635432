/** Dragging a circle with the mouse: a press on a circle selects the first
    circle under the pointer (`onMouseDown`), moving the pointer carries the
    selected circle along by the pointer's displacement (`onMouseMove`) and a
    release drops it (`onMouseUp`). Pointer positions arrive already converted
    to canvas coordinates. */
module Interaction {
  import opened Vectors
  import opened Options
  import opened Field

  /** `sel`: the circle being dragged, by its index in the circle list, and
      the pointer position of the last press or move while dragging. */
  datatype Selection = Selection(circle: Option<nat>, lastPt: Vec)

  /** The circles and the selection together. */
  datatype Scene = Scene(circles: seq<Circle>, sel: Selection)

  /** The selection, if any, names one of the circles. */
  predicate Valid(s: Scene) {
    s.sel.circle.Some? ==> s.sel.circle.value < |s.circles|
  }

  /** `isPointInCircle(c, pt)`: strictly closer to the centre than the radius.
      The source measures centre − pt, the field pt − centre; either way a hit
      off the centre is where the circle alone lifts the field above the level. */
  function IsPointInCircle(c: Circle, pt: Vec): (hit: bool)
    ensures hit <==> SqrDist(c.centre, pt) < c.radius * c.radius
    ensures hit && SqrDist(c.centre, pt) > 0.0 ==> Contribution(c, pt) > 1.0
  {
    SqrLenFlip(c.centre, pt);
    var hit := SqrLen(Sub(c.centre, pt)) < c.radius * c.radius;
    if hit && SqrDist(c.centre, pt) > 0.0 then
      ContributionAboveOne(c, pt);
      hit
    else
      hit
  }

  lemma SqrLenFlip(a: Vec, b: Vec)
    ensures SqrLen(Sub(a, b)) == SqrLen(Sub(b, a))
  {
    assert (a.x - b.x) * (a.x - b.x) == (b.x - a.x) * (b.x - a.x);
    assert (a.y - b.y) * (a.y - b.y) == (b.y - a.y) * (b.y - a.y);
  }

  /** A point that hits a circle (and sits on no centre) has a field value
      above the contour level: what can be grabbed is drawn as inside. */
  lemma HitIsInside(cs: seq<Circle>, i: nat, pt: Vec)
    requires i < |cs| && DefinedAt(cs, pt)
    requires IsPointInCircle(cs[i], pt)
    ensures Value(cs, pt) > 1.0
  {
    InsideCircleAboveLevel(cs, i, pt);
  }

  /** `onMouseDown`: scan the circles in order and select the first one under
      the pointer, remembering the pointer; with no hit the selection stays as
      it was. */
  method MouseDown(s: Scene, pt: Vec) returns (t: Scene)
    requires Valid(s)
    ensures Valid(t) && t.circles == s.circles
    ensures (forall k :: 0 <= k < |s.circles| ==> !IsPointInCircle(s.circles[k], pt)) ==> t == s
    ensures t.sel.circle != s.sel.circle || t.sel.lastPt != s.sel.lastPt ==>
      t.sel.lastPt == pt && t.sel.circle.Some?
    ensures (exists k :: 0 <= k < |s.circles| && IsPointInCircle(s.circles[k], pt)) ==>
      && t.sel.lastPt == pt
      && t.sel.circle.Some?
      && IsPointInCircle(s.circles[t.sel.circle.value], pt)
      && forall k :: 0 <= k < t.sel.circle.value ==> !IsPointInCircle(s.circles[k], pt)
  {
    t := s;
    var n := |s.circles|;
    var i := 0;
    while i < n
      invariant 0 <= i <= n
      invariant t == s
      invariant forall k :: 0 <= k < i ==> !IsPointInCircle(s.circles[k], pt)
    {
      if IsPointInCircle(s.circles[i], pt) {
        t := s.(sel := Selection(Some(i), pt));
        return;
      }
      i := i + 1;
    }
  }

  /** `onMouseMove`: while a circle is selected, move it by the pointer's
      displacement since the last event and remember the new pointer. */
  function MouseMove(s: Scene, pt: Vec): (t: Scene)
    requires Valid(s)
    ensures Valid(t) && |t.circles| == |s.circles| && t.sel.circle == s.sel.circle
    ensures s.sel.circle.None? ==> t == s
    ensures s.sel.circle.Some? ==>
      var k := s.sel.circle.value;
      && t.sel.lastPt == pt
      && Sub(t.circles[k].centre, s.circles[k].centre) == Sub(pt, s.sel.lastPt)
      && t.circles[k].radius == s.circles[k].radius && t.circles[k].vel == s.circles[k].vel
      && forall m :: 0 <= m < |s.circles| && m != k ==> t.circles[m] == s.circles[m]
  {
    match s.sel.circle
    case None => s
    case Some(k) =>
      var d := Sub(pt, s.sel.lastPt);
      var c := s.circles[k];
      Scene(s.circles[k := c.(centre := Add(c.centre, d))], s.sel.(lastPt := pt))
  }

  /** `onMouseUp`: drop the selection. */
  function MouseUp(s: Scene): (t: Scene)
    ensures t.sel.circle.None? && t.circles == s.circles
    ensures t.sel.lastPt == s.sel.lastPt
  {
    s.(sel := s.sel.(circle := None))
  }

  /** After a release, moving the pointer changes nothing. */
  lemma MoveAfterRelease(s: Scene, pt: Vec)
    ensures Valid(MouseUp(s))
    ensures MouseMove(MouseUp(s), pt) == MouseUp(s)
  {
  }

  /** A drag: the pointer moves through `pts` one event at a time. */
  function Drag(s: Scene, pts: seq<Vec>): (t: Scene)
    requires Valid(s)
    ensures Valid(t) && |t.circles| == |s.circles| && t.sel.circle == s.sel.circle
    decreases |pts|
  {
    if |pts| == 0 then s else Drag(MouseMove(s, pts[0]), pts[1..])
  }

  /** Over a whole drag the selected circle moves by exactly the pointer's
      total displacement, however many events it took, and every other
      circle stays where it was. */
  lemma {:induction false} DragFollowsPointer(s: Scene, pts: seq<Vec>)
    requires Valid(s) && s.sel.circle.Some? && |pts| > 0
    ensures var k := s.sel.circle.value;
            var t := Drag(s, pts);
            && t.sel.lastPt == pts[|pts| - 1]
            && Sub(t.circles[k].centre, s.circles[k].centre) == Sub(pts[|pts| - 1], s.sel.lastPt)
            && forall m :: 0 <= m < |s.circles| && m != k ==> t.circles[m] == s.circles[m]
    decreases |pts|
  {
    var k := s.sel.circle.value;
    var s1 := MouseMove(s, pts[0]);
    if |pts| == 1 {
      assert Drag(s, pts) == Drag(s1, []);
    } else {
      DragFollowsPointer(s1, pts[1..]);
      assert pts[1..][|pts[1..]| - 1] == pts[|pts| - 1];
    }
  }
}
