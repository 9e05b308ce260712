/**
 * Measurement and layout arithmetic of the floating menu, on values: the
 * children are a sequence whose last element is the root button, and a
 * layout pass is a function from the children before to the children
 * after. The container class applies these step by step.
 */
module MenuLayout {
  import opened Wrappers

  const SHADOW_OFFSET: int := 20

  const FLOATING_DIRECTION_UP: int := 0
  const FLOATING_DIRECTION_LEFT: int := 1
  const FLOATING_DIRECTION_DOWN: int := 2
  const FLOATING_DIRECTION_RIGHT: int := 3

  /** The expansion axis: Up and Down are vertical, Left and Right horizontal. */
  datatype Axis = Horizontal | Vertical

  /** A child's layout rectangle, relative to the container. */
  datatype Frame = Frame(left: int, top: int, right: int, bottom: int)

  /** The translation halves of a child's expand and collapse animations. */
  datatype DirAnim = DirAnim(axis: Axis, expandFrom: int, expandTo: int, collapseFrom: int, collapseTo: int)

  /**
   * A child button as the container sees it: identity, measured size and
   * whether it is GONE (the layout's inputs), and the properties the layout
   * and the animations write. dirAnim is None until the child's animations
   * have been bound and added to the container's animator sets.
   */
  datatype ChildView = ChildView(
    id: nat,
    measuredWidth: nat,
    measuredHeight: nat,
    gone: bool,
    frame: Frame,
    translationX: int,
    translationY: int,
    alpha: real,
    dirAnim: Option<DirAnim>)

  function DirectionAxis(direction: int): Axis
    requires 0 <= direction <= 3
  {
    if direction == FLOATING_DIRECTION_UP || direction == FLOATING_DIRECTION_DOWN then Vertical else Horizontal
  }

  function MainSize(c: ChildView, axis: Axis): nat {
    if axis == Vertical then c.measuredHeight else c.measuredWidth
  }

  function CrossSize(c: ChildView, axis: Axis): nat {
    if axis == Vertical then c.measuredWidth else c.measuredHeight
  }

  /** Leading (top or left) and trailing (bottom or right) edges. */
  function MainStart(f: Frame, axis: Axis): int {
    if axis == Vertical then f.top else f.left
  }

  function MainEnd(f: Frame, axis: Axis): int {
    if axis == Vertical then f.bottom else f.right
  }

  function CrossStart(f: Frame, axis: Axis): int {
    if axis == Vertical then f.left else f.top
  }

  function CrossEnd(f: Frame, axis: Axis): int {
    if axis == Vertical then f.right else f.bottom
  }

  function Translation(c: ChildView, axis: Axis): int {
    if axis == Vertical then c.translationY else c.translationX
  }

  function Other(axis: Axis): Axis {
    if axis == Vertical then Horizontal else Vertical
  }

  function WithTranslation(c: ChildView, axis: Axis, t: int): (r: ChildView)
    ensures Translation(r, axis) == t && Translation(r, Other(axis)) == Translation(c, Other(axis))
    ensures r.(translationX := c.translationX, translationY := c.translationY) == c
  {
    if axis == Vertical then c.(translationY := t) else c.(translationX := t)
  }

  /** Java's int division, which truncates toward zero. */
  function JavaDiv(a: int, b: int): int
    requires b > 0
  {
    if a >= 0 then a / b else -((-a) / b)
  }

  lemma FifthOf(length: int)
    requires length >= 0
    ensures (length * 12) / 10 == length + length / 5
  {
    var q, r := length / 5, length % 5;
    assert length == 5 * q + r;
    assert length * 12 == 10 * (6 * q + r) + 2 * r;
    assert 0 <= 2 * r < 10;
  }

  lemma TenthOf(a: int)
    ensures a >= 0 ==> 10 * JavaDiv(a, 10) <= a < 10 * JavaDiv(a, 10) + 10
    ensures a < 0 ==> 10 * JavaDiv(a, 10) - 10 < a <= 10 * JavaDiv(a, 10) <= 0
  {
  }

  /** adjustShootLength: the expansion-axis size grown by 20% with int
      arithmetic, so that a far-travelling child's overshoot still fits. */
  function AdjustShootLength(length: int): (r: int)
    ensures length >= 0 ==> length <= r && r == length + length / 5
    ensures length >= 0 ==> 10 * r <= 12 * length < 10 * r + 10
    ensures length < 0 ==> 10 * r - 10 < 12 * length <= 10 * r <= 0
  {
    TenthOf(length * 12);
    if length >= 0 then FifthOf(length); JavaDiv(length * 12, 10) else JavaDiv(length * 12, 10)
  }

  function Max(a: nat, b: nat): nat { if a >= b then a else b }

  /** Sum of the expansion-axis sizes of the children that are not GONE. */
  function SumVisible(s: seq<ChildView>, axis: Axis): nat {
    if s == [] then 0 else (if s[0].gone then 0 else MainSize(s[0], axis)) + SumVisible(s[1..], axis)
  }

  /** Largest cross-axis size among the children that are not GONE (0 if none). */
  function MaxVisible(s: seq<ChildView>, axis: Axis): nat {
    if s == [] then 0 else Max(if s[0].gone then 0 else CrossSize(s[0], axis), MaxVisible(s[1..], axis))
  }

  function VisibleCount(s: seq<ChildView>): (n: nat)
    ensures n <= |s|
  {
    if s == [] then 0 else (if s[0].gone then 0 else 1) + VisibleCount(s[1..])
  }

  /** The measured expansion-axis size: visible sizes, shadow padding on
      both ends, one interval per child after the first (GONE children
      included), then inflated. */
  function MeasuredMain(s: seq<ChildView>, axis: Axis, interval: int): int {
    AdjustShootLength(SumVisible(s, axis) + SHADOW_OFFSET * 2 + interval * (|s| - 1))
  }

  /** The measured cross-axis size: the widest visible child plus padding. */
  function MeasuredCross(s: seq<ChildView>, axis: Axis): int {
    MaxVisible(s, axis) + SHADOW_OFFSET * 2
  }

  /**
   * onMeasureVerticalDirection / onMeasureHorizontalDirection: one pass
   * over the children accumulating the sum along the axis and the maximum
   * across it, skipping GONE children.
   */
  method MeasureAlong(s: seq<ChildView>, axis: Axis, interval: int) returns (main: int, cross: int)
    ensures main == MeasuredMain(s, axis, interval)
    ensures cross == MeasuredCross(s, axis)
  {
    main, cross := 0, 0;
    var i := 0;
    assert s[i..] == s;
    while i < |s|
      invariant 0 <= i <= |s|
      invariant main >= 0 && main + SumVisible(s[i..], axis) == SumVisible(s, axis)
      invariant cross >= 0 && Max(cross, MaxVisible(s[i..], axis)) == MaxVisible(s, axis)
    {
      assert s[i..][1..] == s[i + 1..];
      var child := s[i];
      if !child.gone {
        cross := Max(CrossSize(child, axis), cross);
        main := main + MainSize(child, axis);
      }
      i := i + 1;
    }
    cross := cross + SHADOW_OFFSET * 2;
    main := main + SHADOW_OFFSET * 2;
    main := main + interval * (|s| - 1);
    main := AdjustShootLength(main);
  }

  /** The maximum bounds every visible child, and is reached by one of
      them unless it is 0. */
  lemma {:induction false} MaxVisibleIsMaximum(s: seq<ChildView>, axis: Axis)
    ensures forall k :: 0 <= k < |s| && !s[k].gone ==> CrossSize(s[k], axis) <= MaxVisible(s, axis)
    ensures MaxVisible(s, axis) == 0 ||
      exists k :: 0 <= k < |s| && !s[k].gone && CrossSize(s[k], axis) == MaxVisible(s, axis)
  {
    if s != [] {
      MaxVisibleIsMaximum(s[1..], axis);
      forall k | 1 <= k < |s| && !s[k].gone
        ensures CrossSize(s[k], axis) <= MaxVisible(s, axis)
      {
        assert s[k] == s[1..][k - 1];
      }
      if MaxVisible(s, axis) != 0 && MaxVisible(s, axis) != (if s[0].gone then 0 else CrossSize(s[0], axis)) {
        var k :| 0 <= k < |s[1..]| && !s[1..][k].gone && CrossSize(s[1..][k], axis) == MaxVisible(s[1..], axis);
        assert s[k + 1] == s[1..][k];
      }
    }
  }

  lemma MeasureExample()
    ensures var c := ChildView(0, 100, 100, false, Frame(0, 0, 0, 0), 0, 0, 1.0, None);
      var s := [c.(id := 1), c.(id := 2)];
      && SumVisible(s, Vertical) + SHADOW_OFFSET * 2 + 10 * (|s| - 1) == 250
      && MeasuredMain(s, Vertical, 10) == 300
      && MeasuredCross(s, Vertical) == 140
  {
    var c := ChildView(0, 100, 100, false, Frame(0, 0, 0, 0), 0, 0, 1.0, None);
    var s := [c.(id := 1), c.(id := 2)];
    assert s[1..][1..] == [];
    assert SumVisible(s[1..], Vertical) == 100;
    assert MaxVisible(s[1..], Vertical) == 100;
  }

  // ---------------------------------------------------------------------
  // Layout

  /** The expansion-axis room a child takes in a layout pass: its size
      and one interval, or nothing when it is GONE. */
  function Step(c: ChildView, axis: Axis, interval: int): int {
    if c.gone then 0 else MainSize(c, axis) + interval
  }

  function Extent(s: seq<ChildView>, axis: Axis, interval: int): int {
    if s == [] then 0 else Step(s[0], axis, interval) + Extent(s[1..], axis, interval)
  }

  lemma {:induction false} ExtentAppend(a: seq<ChildView>, b: seq<ChildView>, axis: Axis, interval: int)
    ensures Extent(a + b, axis, interval) == Extent(a, axis, interval) + Extent(b, axis, interval)
  {
    if a == [] {
      assert a + b == b;
    } else {
      assert (a + b)[1..] == a[1..] + b;
      ExtentAppend(a[1..], b, axis, interval);
    }
  }

  lemma {:induction false} ExtentNonNegative(s: seq<ChildView>, axis: Axis, interval: int)
    requires interval >= 0
    ensures Extent(s, axis, interval) >= 0
  {
    if s != [] {
      ExtentNonNegative(s[1..], axis, interval);
    }
  }

  lemma {:induction false} ExtentOfGone(s: seq<ChildView>, axis: Axis, interval: int)
    requires forall k :: 0 <= k < |s| ==> s[k].gone
    ensures Extent(s, axis, interval) == 0
  {
    if s != [] {
      assert forall k :: 0 <= k < |s[1..]| ==> s[1..][k] == s[k + 1];
      ExtentOfGone(s[1..], axis, interval);
    }
  }

  /** The room a layout pass uses is the measured sum plus one interval per
      visible child. */
  lemma {:induction false} ExtentBySums(s: seq<ChildView>, axis: Axis, interval: int)
    ensures Extent(s, axis, interval) == SumVisible(s, axis) + VisibleCount(s) * interval
  {
    if s != [] {
      ExtentBySums(s[1..], axis, interval);
      var v := VisibleCount(s[1..]);
      assert (v + 1) * interval == v * interval + interval;
    }
  }

  /** Extent reads only sizes and GONE flags. */
  lemma {:induction false} ExtentSameShape(a: seq<ChildView>, b: seq<ChildView>, axis: Axis, interval: int)
    requires |a| == |b|
    requires forall k :: 0 <= k < |a| ==> SameShape(a[k], b[k])
    ensures Extent(a, axis, interval) == Extent(b, axis, interval)
  {
    if a != [] {
      assert forall k :: 0 <= k < |a[1..]| ==> a[1..][k] == a[k + 1] && b[1..][k] == b[k + 1];
      ExtentSameShape(a[1..], b[1..], axis, interval);
    }
  }

  lemma {:induction false} ExtentSameShapeFrom(a: seq<ChildView>, b: seq<ChildView>, lo: int, axis: Axis, interval: int)
    requires |a| == |b| && 0 <= lo <= |a|
    requires forall k :: 0 <= k < |a| ==> SameShape(a[k], b[k])
    ensures Extent(a[lo..], axis, interval) == Extent(b[lo..], axis, interval)
    decreases |a| - lo
  {
    if lo < |a| {
      assert a[lo..][1..] == a[lo + 1..] && b[lo..][1..] == b[lo + 1..];
      ExtentSameShapeFrom(a, b, lo + 1, axis, interval);
    }
  }

  /** What a layout pass reads of a child and never writes. */
  predicate SameShape(c: ChildView, d: ChildView) {
    c.id == d.id && c.measuredWidth == d.measuredWidth && c.measuredHeight == d.measuredHeight && c.gone == d.gone
  }

  /** child.layout: the leading edge at lead along the axis, centred on
      center across it (each half of the cross size is an int halved). */
  function PlaceAt(c: ChildView, axis: Axis, lead: int, center: int): (r: ChildView)
    ensures r == c.(frame := r.frame)
    ensures MainStart(r.frame, axis) == lead && MainEnd(r.frame, axis) == lead + MainSize(c, axis)
    ensures CrossStart(r.frame, axis) == center - CrossSize(c, axis) / 2
    ensures CrossEnd(r.frame, axis) == center + CrossSize(c, axis) / 2
  {
    var f := if axis == Vertical
      then Frame(center - c.measuredWidth / 2, lead, center + c.measuredWidth / 2, lead + c.measuredHeight)
      else Frame(lead, center - c.measuredHeight / 2, lead + c.measuredWidth, center + c.measuredHeight / 2);
    c.(frame := f)
  }

  /** A peer's animation state after layout: snapped to the current
      expanded/collapsed end, with the expand animation bound to run
      collapsed -> 0 and the collapse animation 0 -> collapsed. */
  function Animate(c: ChildView, axis: Axis, collapsed: int, expanded: bool): (r: ChildView)
    ensures Translation(r, axis) == (if expanded then 0 else collapsed)
    ensures r.alpha == (if expanded then 1.0 else 0.0)
    ensures r.dirAnim == Some(DirAnim(axis, collapsed, 0, 0, collapsed))
    ensures Translation(r, Other(axis)) == Translation(c, Other(axis))
    ensures SameShape(r, c) && r.frame == c.frame
  {
    WithTranslation(c, axis, if expanded then 0 else collapsed).(
      alpha := if expanded then 1.0 else 0.0,
      dirAnim := Some(DirAnim(axis, collapsed, 0, 0, collapsed)))
  }

  /**
   * The Up and Left layouts: walking from the root (last child) back to
   * the first, each visible child's trailing edge sits where the previous
   * one's room ended, starting from start = size - SHADOW_OFFSET. A peer's
   * collapsed translation is the distance from its trailing edge to start.
   */
  function TowardStartAt(s: seq<ChildView>, i: int, axis: Axis, start: int, center: int,
                         interval: int, expanded: bool): (r: ChildView)
    requires 0 <= i < |s|
    ensures SameShape(r, s[i])
  {
    if s[i].gone then s[i]
    else
      var trailing := start - Extent(s[i + 1..], axis, interval);
      var placed := PlaceAt(s[i], axis, trailing - MainSize(s[i], axis), center);
      if i == |s| - 1 then placed else Animate(placed, axis, start - trailing, expanded)
  }

  function LayoutTowardStart(s: seq<ChildView>, axis: Axis, start: int, center: int,
                             interval: int, expanded: bool): (r: seq<ChildView>)
    ensures |r| == |s|
    ensures forall k :: 0 <= k < |s| ==> SameShape(r[k], s[k])
    ensures forall k :: 0 <= k < |s| && s[k].gone ==> r[k] == s[k]
  {
    seq(|s|, k requires 0 <= k < |s| => TowardStartAt(s, k, axis, start, center, interval, expanded))
  }

  /**
   * The Down and Right layouts: the root goes first at the leading
   * padding (whether GONE or not), then the visible peers in index order,
   * each one interval after the previous. A peer's collapsed translation
   * is minus its leading edge.
   */
  function FromStartAt(s: seq<ChildView>, i: int, axis: Axis, center: int,
                       interval: int, expanded: bool): (r: ChildView)
    requires 0 <= i < |s|
    ensures SameShape(r, s[i])
  {
    if i == |s| - 1 then PlaceAt(s[i], axis, SHADOW_OFFSET, center)
    else if s[i].gone then s[i]
    else
      var lead := SHADOW_OFFSET + MainSize(s[|s| - 1], axis) + interval + Extent(s[..i], axis, interval);
      Animate(PlaceAt(s[i], axis, lead, center), axis, -lead, expanded)
  }

  function LayoutFromStart(s: seq<ChildView>, axis: Axis, center: int,
                           interval: int, expanded: bool): (r: seq<ChildView>)
    ensures |r| == |s|
    ensures forall k :: 0 <= k < |s| ==> SameShape(r[k], s[k])
    ensures forall k :: 0 <= k < |s| - 1 && s[k].gone ==> r[k] == s[k]
  {
    seq(|s|, k requires 0 <= k < |s| => FromStartAt(s, k, axis, center, interval, expanded))
  }

  /** The visible root's trailing edge is at start; it gets a frame and
      nothing else (no translation, alpha or animation). */
  lemma TowardStartRoot(s: seq<ChildView>, axis: Axis, start: int, center: int, interval: int, expanded: bool)
    requires |s| >= 1 && !s[|s| - 1].gone
    ensures var r := LayoutTowardStart(s, axis, start, center, interval, expanded)[|s| - 1];
      && MainEnd(r.frame, axis) == start
      && MainStart(r.frame, axis) == start - MainSize(s[|s| - 1], axis)
      && r == s[|s| - 1].(frame := r.frame)
  {
    assert s[|s|..] == [];
  }

  /** Extent of a slice whose children are all GONE. */
  lemma GoneSliceExtent(s: seq<ChildView>, lo: int, hi: int, axis: Axis, interval: int)
    requires 0 <= lo <= hi <= |s|
    requires forall k :: lo <= k < hi ==> s[k].gone
    ensures Extent(s[lo..hi], axis, interval) == 0
  {
    var t := s[lo..hi];
    forall k | 0 <= k < |t|
      ensures t[k].gone
    {
      assert t[k] == s[lo + k];
    }
    ExtentOfGone(t, axis, interval);
  }

  /** Splitting the room at a visible child: what comes before, the child's
      own step, and what comes after. */
  lemma ExtentAround(s: seq<ChildView>, i: int, axis: Axis, interval: int)
    requires 0 <= i < |s|
    ensures Extent(s, axis, interval)
         == Extent(s[..i], axis, interval) + Step(s[i], axis, interval) + Extent(s[i + 1..], axis, interval)
    ensures Extent(s[i..], axis, interval) == Step(s[i], axis, interval) + Extent(s[i + 1..], axis, interval)
  {
    assert s[i..][1..] == s[i + 1..];
    assert s == s[..i] + s[i..];
    ExtentAppend(s[..i], s[i..], axis, interval);
  }

  /** Consecutive visible children (GONE ones between them take no room)
      are exactly one interval apart: the earlier one ends where the later
      one starts, minus the interval. */
  lemma TowardStartNeighbours(s: seq<ChildView>, axis: Axis, start: int, center: int, interval: int,
                              expanded: bool, i: int, j: int)
    requires 0 <= i < j < |s| && !s[i].gone && !s[j].gone
    requires forall k :: i < k < j ==> s[k].gone
    ensures var r := LayoutTowardStart(s, axis, start, center, interval, expanded);
      MainEnd(r[i].frame, axis) == MainStart(r[j].frame, axis) - interval
  {
    assert s[i + 1..] == s[i + 1..j] + s[j..];
    ExtentAppend(s[i + 1..j], s[j..], axis, interval);
    GoneSliceExtent(s, i + 1, j, axis, interval);
    assert s[j..][1..] == s[j + 1..];
  }

  /** A visible peer: its translation and alpha match the expanded or
      collapsed state, and its collapsed translation moves its trailing edge
      back onto the root's trailing edge, which is a non-negative distance
      when the interval is. */
  lemma TowardStartPeer(s: seq<ChildView>, axis: Axis, start: int, center: int, interval: int,
                        expanded: bool, i: int)
    requires 0 <= i < |s| - 1 && !s[i].gone
    ensures var r := LayoutTowardStart(s, axis, start, center, interval, expanded)[i];
      var collapsed := start - MainEnd(r.frame, axis);
      && r.dirAnim == Some(DirAnim(axis, collapsed, 0, 0, collapsed))
      && Translation(r, axis) == (if expanded then 0 else collapsed)
      && r.alpha == (if expanded then 1.0 else 0.0)
      && Translation(r, Other(axis)) == Translation(s[i], Other(axis))
      && (interval >= 0 ==> collapsed >= 0)
  {
    if interval >= 0 {
      ExtentNonNegative(s[i + 1..], axis, interval);
    }
  }

  /** The main-axis edges of a visible child in the Up/Left layout lie
      between start - Extent(s) + interval and start. */
  lemma TowardStartAtBounds(s: seq<ChildView>, axis: Axis, start: int, center: int, interval: int,
                            expanded: bool, i: int)
    requires interval >= 0 && 0 <= i < |s| && !s[i].gone
    ensures var r := TowardStartAt(s, i, axis, start, center, interval, expanded);
      start + interval - Extent(s, axis, interval) <= MainStart(r.frame, axis) && MainEnd(r.frame, axis) <= start
  {
    ExtentAround(s, i, axis, interval);
    ExtentNonNegative(s[i + 1..], axis, interval);
    ExtentNonNegative(s[..i], axis, interval);
  }

  /** The measured expansion-axis size leaves room for the room a layout
      pass uses, plus the padding on both ends. */
  lemma MeasuredRoom(s: seq<ChildView>, axis: Axis, interval: int)
    requires interval >= 0 && |s| >= 1
    ensures Extent(s, axis, interval) - interval + 2 * SHADOW_OFFSET <= MeasuredMain(s, axis, interval)
  {
    ExtentBySums(s, axis, interval);
    var sum := SumVisible(s, axis);
    var gaps := interval * (|s| - 1);
    GapsBound(VisibleCount(s), |s|, interval);
    var pre := sum + SHADOW_OFFSET * 2 + gaps;
    assert Extent(s, axis, interval) - interval + 2 * SHADOW_OFFSET <= pre;
    assert pre <= AdjustShootLength(pre);
  }

  /** Intervals between visible children are at most the ones counted by
      the measure, which counts GONE children too. */
  lemma GapsBound(vis: int, n: int, interval: int)
    requires 0 <= vis <= n && n >= 1 && interval >= 0
    ensures vis * interval - interval <= interval * (n - 1)
    ensures interval * (n - 1) >= 0
  {
    MulMonotone(vis - 1, n - 1, interval);
    MulMonotone(0, n - 1, interval);
  }

  lemma MulMonotone(a: int, b: int, c: int)
    requires a <= b && c >= 0
    ensures a * c <= b * c
  {
    assert b * c - a * c == (b - a) * c;
  }

  lemma CrossFits(s: seq<ChildView>, axis: Axis, crossSize: int, i: int)
    requires 0 <= i < |s| && !s[i].gone && crossSize >= MeasuredCross(s, axis)
    ensures SHADOW_OFFSET <= JavaDiv(crossSize, 2) - CrossSize(s[i], axis) / 2
    ensures JavaDiv(crossSize, 2) + CrossSize(s[i], axis) / 2 <= crossSize - SHADOW_OFFSET
  {
    MaxVisibleIsMaximum(s, axis);
    var c := CrossSize(s[i], axis);
    assert crossSize >= c + 2 * SHADOW_OFFSET;
  }

  /** Laid out at (at least) its measured size, with a non-negative
      interval, every visible child lies inside the shadow padding on both
      axes. */
  lemma TowardStartFits(s: seq<ChildView>, axis: Axis, size: int, crossSize: int, interval: int,
                        expanded: bool, i: int)
    requires interval >= 0 && 0 <= i < |s| && !s[i].gone
    requires size >= MeasuredMain(s, axis, interval) && crossSize >= MeasuredCross(s, axis)
    ensures var r := LayoutTowardStart(s, axis, size - SHADOW_OFFSET, JavaDiv(crossSize, 2), interval, expanded)[i];
      && SHADOW_OFFSET <= MainStart(r.frame, axis) && MainEnd(r.frame, axis) <= size - SHADOW_OFFSET
      && SHADOW_OFFSET <= CrossStart(r.frame, axis) && CrossEnd(r.frame, axis) <= crossSize - SHADOW_OFFSET
  {
    TowardStartAtBounds(s, axis, size - SHADOW_OFFSET, JavaDiv(crossSize, 2), interval, expanded, i);
    MeasuredRoom(s, axis, interval);
    CrossFits(s, axis, crossSize, i);
  }

  /** The root is placed at the leading padding, GONE or not, and gets a
      frame and nothing else. */
  lemma FromStartRoot(s: seq<ChildView>, axis: Axis, center: int, interval: int, expanded: bool)
    requires |s| >= 1
    ensures var r := LayoutFromStart(s, axis, center, interval, expanded)[|s| - 1];
      && MainStart(r.frame, axis) == SHADOW_OFFSET
      && MainEnd(r.frame, axis) == SHADOW_OFFSET + MainSize(s[|s| - 1], axis)
      && r == s[|s| - 1].(frame := r.frame)
  {
  }

  /** The first visible peer starts one interval after the root ends. */
  lemma FromStartFirstPeer(s: seq<ChildView>, axis: Axis, center: int, interval: int, expanded: bool, j: int)
    requires 0 <= j < |s| - 1 && !s[j].gone
    requires forall k :: 0 <= k < j ==> s[k].gone
    ensures var r := LayoutFromStart(s, axis, center, interval, expanded);
      MainStart(r[j].frame, axis) == MainEnd(r[|s| - 1].frame, axis) + interval
  {
    GoneSliceExtent(s, 0, j, axis, interval);
    assert s[0..j] == s[..j];
  }

  /** Consecutive visible peers are exactly one interval apart. */
  lemma FromStartNeighbours(s: seq<ChildView>, axis: Axis, center: int, interval: int,
                            expanded: bool, i: int, j: int)
    requires 0 <= i < j < |s| - 1 && !s[i].gone && !s[j].gone
    requires forall k :: i < k < j ==> s[k].gone
    ensures var r := LayoutFromStart(s, axis, center, interval, expanded);
      MainStart(r[j].frame, axis) == MainEnd(r[i].frame, axis) + interval
  {
    var pre := s[..j];
    ExtentAround(pre, i, axis, interval);
    assert pre[..i] == s[..i] && pre[i] == s[i];
    assert pre[i + 1..] == s[i + 1..j];
    GoneSliceExtent(s, i + 1, j, axis, interval);
  }

  /** A visible peer: translation and alpha match the state, and the
      collapsed translation is minus the leading edge, so collapsing moves
      the peer's leading edge to 0 (not to the root's edge at the padding). */
  lemma FromStartPeer(s: seq<ChildView>, axis: Axis, center: int, interval: int, expanded: bool, i: int)
    requires 0 <= i < |s| - 1 && !s[i].gone
    ensures var r := LayoutFromStart(s, axis, center, interval, expanded)[i];
      var collapsed := -MainStart(r.frame, axis);
      && r.dirAnim == Some(DirAnim(axis, collapsed, 0, 0, collapsed))
      && Translation(r, axis) == (if expanded then 0 else collapsed)
      && r.alpha == (if expanded then 1.0 else 0.0)
      && Translation(r, Other(axis)) == Translation(s[i], Other(axis))
      && (interval >= 0 ==> collapsed <= -(SHADOW_OFFSET + MainSize(s[|s| - 1], axis)))
  {
    if interval >= 0 {
      ExtentNonNegative(s[..i], axis, interval);
    }
  }

  /** The main-axis edges of a visible child in the Down/Right layout lie
      between the padding and the padding plus Extent(s) - interval. */
  lemma FromStartAtBounds(s: seq<ChildView>, axis: Axis, center: int, interval: int, expanded: bool, i: int)
    requires interval >= 0 && 0 <= i < |s| && !s[i].gone && !s[|s| - 1].gone
    ensures var r := FromStartAt(s, i, axis, center, interval, expanded);
      SHADOW_OFFSET <= MainStart(r.frame, axis)
      && MainEnd(r.frame, axis) <= SHADOW_OFFSET + Extent(s, axis, interval) - interval
  {
    var n := |s|;
    var peers := s[..n - 1];
    ExtentAround(s, n - 1, axis, interval);
    assert s[n..] == [];
    ExtentNonNegative(peers, axis, interval);
    if i < n - 1 {
      ExtentAround(peers, i, axis, interval);
      assert peers[..i] == s[..i];
      ExtentNonNegative(s[..i], axis, interval);
      ExtentNonNegative(peers[i + 1..], axis, interval);
    }
  }

  /** Laid out at its measured size with a visible root and a non-negative
      interval, every visible child lies inside the padding. (A GONE root
      is not measured but is still placed, so it is excluded here.) */
  lemma FromStartFits(s: seq<ChildView>, axis: Axis, size: int, crossSize: int, interval: int,
                      expanded: bool, i: int)
    requires interval >= 0 && 0 <= i < |s| && !s[i].gone && !s[|s| - 1].gone
    requires size >= MeasuredMain(s, axis, interval) && crossSize >= MeasuredCross(s, axis)
    ensures var r := LayoutFromStart(s, axis, JavaDiv(crossSize, 2), interval, expanded)[i];
      && SHADOW_OFFSET <= MainStart(r.frame, axis) && MainEnd(r.frame, axis) <= size - SHADOW_OFFSET
      && SHADOW_OFFSET <= CrossStart(r.frame, axis) && CrossEnd(r.frame, axis) <= crossSize - SHADOW_OFFSET
  {
    FromStartAtBounds(s, axis, JavaDiv(crossSize, 2), interval, expanded, i);
    MeasuredRoom(s, axis, interval);
    CrossFits(s, axis, crossSize, i);
  }

  /** A child laid out again from a sequence of the same shape comes out
      the same, whatever its previous frame, translation and alpha. */
  lemma TowardStartAtRelayout(s: seq<ChildView>, r: seq<ChildView>, axis: Axis, start: int, center: int,
                              interval: int, expanded: bool, k: int)
    requires |r| == |s| && 0 <= k < |s|
    requires forall m :: 0 <= m < |s| ==> SameShape(r[m], s[m])
    requires r[k] == TowardStartAt(s, k, axis, start, center, interval, expanded)
    ensures TowardStartAt(r, k, axis, start, center, interval, expanded) == r[k]
  {
    ExtentSameShapeFrom(r, s, k + 1, axis, interval);
  }

  lemma FromStartAtRelayout(s: seq<ChildView>, r: seq<ChildView>, axis: Axis, center: int,
                            interval: int, expanded: bool, k: int)
    requires |r| == |s| && 0 <= k < |s|
    requires forall m :: 0 <= m < |s| ==> SameShape(r[m], s[m])
    requires r[k] == FromStartAt(s, k, axis, center, interval, expanded)
    ensures FromStartAt(r, k, axis, center, interval, expanded) == r[k]
  {
    forall m | 0 <= m < |s[..k]|
      ensures SameShape(r[..k][m], s[..k][m])
    {
      assert r[..k][m] == r[m] && s[..k][m] == s[m];
    }
    ExtentSameShape(r[..k], s[..k], axis, interval);
  }

  /** Layout is recomputed, not accumulated: a second pass over its own
      result changes nothing. */
  lemma TowardStartIdempotent(s: seq<ChildView>, axis: Axis, start: int, center: int, interval: int, expanded: bool)
    ensures var r := LayoutTowardStart(s, axis, start, center, interval, expanded);
      LayoutTowardStart(r, axis, start, center, interval, expanded) == r
  {
    var r := LayoutTowardStart(s, axis, start, center, interval, expanded);
    var rr := LayoutTowardStart(r, axis, start, center, interval, expanded);
    forall k | 0 <= k < |s|
      ensures rr[k] == r[k]
    {
      TowardStartAtRelayout(s, r, axis, start, center, interval, expanded, k);
    }
  }

  lemma FromStartIdempotent(s: seq<ChildView>, axis: Axis, center: int, interval: int, expanded: bool)
    ensures var r := LayoutFromStart(s, axis, center, interval, expanded);
      LayoutFromStart(r, axis, center, interval, expanded) == r
  {
    var r := LayoutFromStart(s, axis, center, interval, expanded);
    var rr := LayoutFromStart(r, axis, center, interval, expanded);
    forall k | 0 <= k < |s|
      ensures rr[k] == r[k]
    {
      FromStartAtRelayout(s, r, axis, center, interval, expanded, k);
    }
  }

  // ---------------------------------------------------------------------
  // Animation ends

  /** A bound child once an expand (or collapse) animation has run to its
      end: translation at the animation's end value, alpha 1 (or 0). */
  function Settle(c: ChildView, expandedEnd: bool): (r: ChildView)
    ensures SameShape(r, c) && r.frame == c.frame && r.dirAnim == c.dirAnim
    ensures c.dirAnim.None? ==> r == c
    ensures c.dirAnim.Some? ==>
      && Translation(r, c.dirAnim.value.axis) == (if expandedEnd then c.dirAnim.value.expandTo else c.dirAnim.value.collapseTo)
      && Translation(r, Other(c.dirAnim.value.axis)) == Translation(c, Other(c.dirAnim.value.axis))
      && r.alpha == (if expandedEnd then 1.0 else 0.0)
  {
    if c.dirAnim.None? then c
    else
      var a := c.dirAnim.value;
      WithTranslation(c, a.axis, if expandedEnd then a.expandTo else a.collapseTo).(alpha := if expandedEnd then 1.0 else 0.0)
  }

  /** Finishing an animation lands every visible peer exactly where a
      layout in the animation's end state puts it. */
  lemma SettleMatchesTowardStart(s: seq<ChildView>, axis: Axis, start: int, center: int, interval: int,
                                 expanded: bool, expandedEnd: bool, i: int)
    requires 0 <= i < |s| - 1 && !s[i].gone
    ensures Settle(LayoutTowardStart(s, axis, start, center, interval, expanded)[i], expandedEnd)
         == LayoutTowardStart(s, axis, start, center, interval, expandedEnd)[i]
  {
  }

  lemma SettleMatchesFromStart(s: seq<ChildView>, axis: Axis, center: int, interval: int,
                               expanded: bool, expandedEnd: bool, i: int)
    requires 0 <= i < |s| - 1 && !s[i].gone
    ensures Settle(LayoutFromStart(s, axis, center, interval, expanded)[i], expandedEnd)
         == LayoutFromStart(s, axis, center, interval, expandedEnd)[i]
  {
  }
}
