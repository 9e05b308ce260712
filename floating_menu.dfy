/**
 * The FloatingMusicMenu container: a view group whose last child is the
 * root music button and whose other children are action buttons that
 * fly out along one of four directions. Children are values (see
 * MenuLayout); the container owns the sequence and rewrites it.
 */
module FloatingMenu {
  import opened Wrappers
  import opened MenuLayout

  const ANIMATION_DURATION: nat := 300

  datatype Visibility = VISIBLE | INVISIBLE | GONE

  predicate DistinctIds(s: seq<ChildView>) {
    forall i, j :: 0 <= i < j < |s| ==> s[i].id != s[j].id
  }

  predicate HasId(s: seq<ChildView>, id: nat) {
    exists k :: 0 <= k < |s| && s[k].id == id
  }

  /** removeView: the sequence without the child carrying id, if any. */
  function Removed(s: seq<ChildView>, id: nat): (r: seq<ChildView>)
    ensures |r| <= |s|
    ensures forall c :: c in r <==> c in s && c.id != id
  {
    if s == [] then [] else (if s[0].id == id then [] else [s[0]]) + Removed(s[1..], id)
  }

  /** Removing an id that is not there changes nothing. */
  lemma {:induction false} RemovedAbsent(s: seq<ChildView>, id: nat)
    requires !HasId(s, id)
    ensures Removed(s, id) == s
  {
    if s != [] {
      RemovedAbsent(s[1..], id);
    }
  }

  lemma DistinctTail(s: seq<ChildView>)
    requires |s| >= 1 && DistinctIds(s)
    ensures DistinctIds(s[1..]) && !HasId(s[1..], s[0].id)
  {
    forall i, j | 0 <= i < j < |s[1..]|
      ensures s[1..][i].id != s[1..][j].id
    {
      assert s[1..][i] == s[i + 1] && s[1..][j] == s[j + 1];
    }
  }

  /** Removal works piecewise over a concatenation. */
  lemma {:induction false} RemovedAppend(a: seq<ChildView>, b: seq<ChildView>, id: nat)
    ensures Removed(a + b, id) == Removed(a, id) + Removed(b, id)
  {
    if a == [] {
      assert a + b == b;
    } else {
      assert (a + b)[0] == a[0] && (a + b)[1..] == a[1..] + b;
      RemovedAppend(a[1..], b, id);
    }
  }

  /** With distinct ids, the id at index k occurs neither before nor after it. */
  lemma DistinctSplit(s: seq<ChildView>, k: int)
    requires DistinctIds(s) && 0 <= k < |s|
    ensures !HasId(s[..k], s[k].id) && !HasId(s[k + 1..], s[k].id)
  {
    forall m | 0 <= m < k
      ensures s[..k][m].id != s[k].id
    {
      assert s[..k][m] == s[m];
    }
    var t := s[k + 1..];
    forall m | 0 <= m < |t|
      ensures t[m].id != s[k].id
    {
      assert t[m] == s[k + 1 + m];
    }
  }

  /** With distinct ids, removing the child at index k leaves the others
      in their order. */
  lemma RemovedAt(s: seq<ChildView>, k: int)
    requires DistinctIds(s) && 0 <= k < |s|
    ensures Removed(s, s[k].id) == s[..k] + s[k + 1..]
  {
    var id, a, b := s[k].id, s[..k], s[k + 1..];
    DistinctSplit(s, k);
    assert [s[k]][1..] == [];
    calc {
      Removed(s, id);
      { assert s == a + ([s[k]] + b); }
      Removed(a + ([s[k]] + b), id);
      { RemovedAppend(a, [s[k]] + b, id); }
      Removed(a, id) + Removed([s[k]] + b, id);
      { RemovedAppend([s[k]], b, id); }
      Removed(a, id) + (Removed([s[k]], id) + Removed(b, id));
      { RemovedAbsent(a, id); RemovedAbsent(b, id); }
      a + ([] + b);
      { assert [] + b == b; }
      a + b;
    }
  }

  /** What removeView does to the number of children. */
  lemma RemovedSize(s: seq<ChildView>, id: nat)
    requires DistinctIds(s)
    ensures !HasId(s, id) ==> Removed(s, id) == s
    ensures HasId(s, id) ==> |Removed(s, id)| == |s| - 1
  {
    if HasId(s, id) {
      var k :| 0 <= k < |s| && s[k].id == id;
      RemovedAt(s, k);
    } else {
      RemovedAbsent(s, id);
    }
  }

  /** Adding a button at the front and removing it again restores the
      children, and therefore every measurement and layout. */
  lemma AddThenRemove(s: seq<ChildView>, button: ChildView)
    requires !HasId(s, button.id)
    ensures Removed([button] + s, button.id) == s
  {
    assert ([button] + s)[1..] == s;
    RemovedAbsent(s, button.id);
  }

  /** Adding a button just before the root and removing it again restores
      the children. */
  lemma AddAtLastThenRemove(s: seq<ChildView>, button: ChildView)
    requires |s| >= 1 && !HasId(s, button.id)
    ensures Removed(s[..|s| - 1] + [button] + [s[|s| - 1]], button.id) == s
  {
    var id, front, root := button.id, s[..|s| - 1], [s[|s| - 1]];
    assert !HasId(front, id) by {
      forall m | 0 <= m < |front|
        ensures front[m].id != id
      {
        assert front[m] == s[m];
      }
    }
    assert !HasId(root, id) by {
      assert root[0] == s[|s| - 1];
    }
    assert [button][1..] == [];
    calc {
      Removed(front + [button] + root, id);
      { RemovedAppend(front + [button], root, id); }
      Removed(front + [button], id) + Removed(root, id);
      { RemovedAppend(front, [button], id); }
      Removed(front, id) + Removed([button], id) + Removed(root, id);
      { RemovedAbsent(front, id); RemovedAbsent(root, id); }
      front + [] + root;
      { assert front + [] + root == s; }
      s;
    }
  }

  /** The expansion axis of a direction; None when the direction is none
      of the four, for which measure and layout do nothing. */
  function AxisOf(direction: int): (a: Option<Axis>)
    ensures a.Some? <==> 0 <= direction <= 3
    ensures a.Some? ==> a.value == DirectionAxis(direction)
  {
    if 0 <= direction <= 3 then Some(DirectionAxis(direction)) else None
  }

  /** The measured (width, height) onMeasure sets for a direction. */
  function MeasuredSize(s: seq<ChildView>, axis: Axis, interval: int): (wh: (int, int))
    ensures axis == Vertical ==> wh == (MeasuredCross(s, axis), MeasuredMain(s, axis, interval))
    ensures axis == Horizontal ==> wh == (MeasuredMain(s, axis, interval), MeasuredCross(s, axis))
  {
    if axis == Vertical then (MeasuredCross(s, axis), MeasuredMain(s, axis, interval))
    else (MeasuredMain(s, axis, interval), MeasuredCross(s, axis))
  }

  /** onLayout's dispatch over the four directions, for the container
      rectangle (l, t, r, b); an unknown direction lays out nothing. */
  function LayoutFor(s: seq<ChildView>, direction: int, interval: int, expanded: bool,
                     l: int, t: int, r: int, b: int): (out: seq<ChildView>)
    ensures !(0 <= direction <= 3) ==> out == s
    ensures |out| == |s| && forall k :: 0 <= k < |s| ==> SameShape(out[k], s[k])
  {
    if direction == FLOATING_DIRECTION_UP then
      LayoutTowardStart(s, Vertical, b - t - SHADOW_OFFSET, JavaDiv(r - l, 2), interval, expanded)
    else if direction == FLOATING_DIRECTION_LEFT then
      LayoutTowardStart(s, Horizontal, r - l - SHADOW_OFFSET, JavaDiv(b - t, 2), interval, expanded)
    else if direction == FLOATING_DIRECTION_DOWN then
      LayoutFromStart(s, Vertical, JavaDiv(r - l, 2), interval, expanded)
    else if direction == FLOATING_DIRECTION_RIGHT then
      LayoutFromStart(s, Horizontal, JavaDiv(b - t, 2), interval, expanded)
    else s
  }

  /** Laid out in a rectangle of its own measured size, with a
      non-negative interval, every visible child is inside the shadow
      padding on all four sides. Down and Right need the root visible. */
  lemma MeasuredLayoutFits(s: seq<ChildView>, direction: int, interval: int, expanded: bool, i: int)
    requires 0 <= direction <= 3 && interval >= 0 && 0 <= i < |s| && !s[i].gone
    requires direction == FLOATING_DIRECTION_DOWN || direction == FLOATING_DIRECTION_RIGHT ==> !s[|s| - 1].gone
    ensures var axis := DirectionAxis(direction);
      var (w, h) := MeasuredSize(s, axis, interval);
      var f := LayoutFor(s, direction, interval, expanded, 0, 0, w, h)[i].frame;
      SHADOW_OFFSET <= f.left && f.right <= w - SHADOW_OFFSET && SHADOW_OFFSET <= f.top && f.bottom <= h - SHADOW_OFFSET
  {
    var axis := DirectionAxis(direction);
    var (w, h) := MeasuredSize(s, axis, interval);
    var main, cross := MeasuredMain(s, axis, interval), MeasuredCross(s, axis);
    if direction == FLOATING_DIRECTION_UP || direction == FLOATING_DIRECTION_LEFT {
      TowardStartFits(s, axis, main, cross, interval, expanded, i);
    } else {
      FromStartFits(s, axis, main, cross, interval, expanded, i);
    }
  }

  /** A bound child finishing the expand (collapse) animation, for every
      child registered in the container's animator sets. */
  function Settled(s: seq<ChildView>, expandedEnd: bool): (r: seq<ChildView>)
    ensures |r| == |s|
    ensures forall k :: 0 <= k < |s| ==> r[k] == Settle(s[k], expandedEnd)
  {
    seq(|s|, k requires 0 <= k < |s| => Settle(s[k], expandedEnd))
  }

  class FloatingMusicMenu {
    /** The root music button's id; it is always the last child. */
    const rootId: nat
    var children: seq<ChildView>
    var floatingDirection: int
    var buttonInterval: int
    var isExpanded: bool
    var isHided: bool
    var visibility: Visibility
    /** Whether mExpandAnimation / mCollapseAnimation / showAnimation /
        hideAnimation have been started and not yet ended or cancelled. */
    var expandRunning: bool
    var collapseRunning: bool
    var collapseDuration: nat
    var showRunning: bool
    var hideRunning: bool
    var measuredWidth: int
    var measuredHeight: int

    ghost predicate Valid()
      reads this
    {
      && |children| >= 1
      && children[|children| - 1].id == rootId
      && children[|children| - 1].dirAnim.None?
      && DistinctIds(children)
      && (expandRunning ==> isExpanded)
      && (collapseRunning ==> !isExpanded)
      && (hideRunning ==> isHided)
      && (showRunning ==> !isHided)
    }

    /** The visibility the hide and show animations are meant to keep:
        GONE exactly when hidden and the hide animation has finished. */
    predicate VisibilityAgrees()
      reads this
    {
      visibility == (if isHided && !hideRunning then GONE else VISIBLE)
    }

    /** initMenu and onFinishInflate: the inflated buttons, then the root
        button added last; collapsed, shown, nothing running. */
    constructor (peers: seq<ChildView>, root: ChildView, direction: int, interval: int)
      requires DistinctIds(peers + [root])
      ensures Valid() && VisibilityAgrees()
      ensures rootId == root.id
      ensures |children| == |peers| + 1
      ensures forall k :: 0 <= k < |peers| ==> children[k] == peers[k].(dirAnim := None)
      ensures children[|peers|] == root.(dirAnim := None)
      ensures floatingDirection == direction && buttonInterval == interval
      ensures !isExpanded && !isHided && visibility == VISIBLE
      ensures !expandRunning && !collapseRunning && !showRunning && !hideRunning
    {
      rootId := root.id;
      var all := peers + [root];
      children := seq(|all|, k requires 0 <= k < |all| => all[k].(dirAnim := None));
      floatingDirection := direction;
      buttonInterval := interval;
      isExpanded, isHided, visibility := false, false, VISIBLE;
      expandRunning, collapseRunning, showRunning, hideRunning := false, false, false, false;
      collapseDuration := ANIMATION_DURATION;
      measuredWidth, measuredHeight := 0, 0;
    }

    /** onMeasure: measure along the configured direction's axis; an
        unknown direction sets nothing. */
    method OnMeasure()
      modifies this
      ensures AxisOf(floatingDirection).Some? ==>
        (measuredWidth, measuredHeight) == MeasuredSize(children, AxisOf(floatingDirection).value, buttonInterval)
      ensures AxisOf(floatingDirection).None? ==>
        measuredWidth == old(measuredWidth) && measuredHeight == old(measuredHeight)
      ensures children == old(children) && floatingDirection == old(floatingDirection) && buttonInterval == old(buttonInterval)
      ensures isExpanded == old(isExpanded) && isHided == old(isHided) && visibility == old(visibility)
      ensures expandRunning == old(expandRunning) && collapseRunning == old(collapseRunning)
      ensures showRunning == old(showRunning) && hideRunning == old(hideRunning) && collapseDuration == old(collapseDuration)
    {
      if floatingDirection == FLOATING_DIRECTION_UP || floatingDirection == FLOATING_DIRECTION_DOWN {
        OnMeasureVerticalDirection();
      } else if floatingDirection == FLOATING_DIRECTION_LEFT || floatingDirection == FLOATING_DIRECTION_RIGHT {
        OnMeasureHorizontalDirection();
      }
    }

    method OnMeasureVerticalDirection()
      modifies this`measuredWidth, this`measuredHeight
      ensures (measuredWidth, measuredHeight) == MeasuredSize(children, Vertical, buttonInterval)
    {
      var height, width := MeasureAlong(children, Vertical, buttonInterval);
      measuredWidth, measuredHeight := width, height;
    }

    method OnMeasureHorizontalDirection()
      modifies this`measuredWidth, this`measuredHeight
      ensures (measuredWidth, measuredHeight) == MeasuredSize(children, Horizontal, buttonInterval)
    {
      var width, height := MeasureAlong(children, Horizontal, buttonInterval);
      measuredWidth, measuredHeight := width, height;
    }

    /** onLayout: lay the children out in (l, t, r, b) along the
        configured direction; an unknown direction lays out nothing. */
    method OnLayout(l: int, t: int, r: int, b: int)
      requires Valid()
      modifies this`children
      ensures Valid()
      ensures children == LayoutFor(old(children), floatingDirection, buttonInterval, isExpanded, l, t, r, b)
    {
      if floatingDirection == FLOATING_DIRECTION_UP {
        OnUpDirectionLayout(l, t, r, b);
      } else if floatingDirection == FLOATING_DIRECTION_DOWN {
        OnDownDirectionLayout(l, t, r, b);
      } else if floatingDirection == FLOATING_DIRECTION_LEFT {
        OnLeftDirectionLayout(l, t, r, b);
      } else if floatingDirection == FLOATING_DIRECTION_RIGHT {
        OnRightDirectionLayout(l, t, r, b);
      }
    }

    method OnUpDirectionLayout(l: int, t: int, r: int, b: int)
      requires Valid()
      modifies this`children
      ensures Valid()
      ensures children == LayoutTowardStart(old(children), Vertical, b - t - SHADOW_OFFSET, JavaDiv(r - l, 2), buttonInterval, isExpanded)
    {
      LayoutTowardStartPass(Vertical, b - t - SHADOW_OFFSET, JavaDiv(r - l, 2));
    }

    method OnLeftDirectionLayout(l: int, t: int, r: int, b: int)
      requires Valid()
      modifies this`children
      ensures Valid()
      ensures children == LayoutTowardStart(old(children), Horizontal, r - l - SHADOW_OFFSET, JavaDiv(b - t, 2), buttonInterval, isExpanded)
    {
      LayoutTowardStartPass(Horizontal, r - l - SHADOW_OFFSET, JavaDiv(b - t, 2));
    }

    method OnDownDirectionLayout(l: int, t: int, r: int, b: int)
      requires Valid()
      modifies this`children
      ensures Valid()
      ensures children == LayoutFromStart(old(children), Vertical, JavaDiv(r - l, 2), buttonInterval, isExpanded)
    {
      LayoutFromStartPass(Vertical, JavaDiv(r - l, 2));
    }

    method OnRightDirectionLayout(l: int, t: int, r: int, b: int)
      requires Valid()
      modifies this`children
      ensures Valid()
      ensures children == LayoutFromStart(old(children), Horizontal, JavaDiv(b - t, 2), buttonInterval, isExpanded)
    {
      LayoutFromStartPass(Horizontal, JavaDiv(b - t, 2));
    }

    /** The Up/Left pass over the children. */
    method LayoutTowardStartPass(axis: Axis, start: int, center: int)
      requires Valid()
      modifies this`children
      ensures Valid()
      ensures children == LayoutTowardStart(old(children), axis, start, center, buttonInterval, isExpanded)
    {
      var views := TowardStartLoop(children, axis, start, center, buttonInterval, isExpanded);
      TowardStartPassDone(children, views, axis, start, center, buttonInterval, isExpanded);
      children := views;
    }

    /** The Down/Right pass over the children. */
    method LayoutFromStartPass(axis: Axis, center: int)
      requires Valid()
      modifies this`children
      ensures Valid()
      ensures children == LayoutFromStart(old(children), axis, center, buttonInterval, isExpanded)
    {
      var views := FromStartLoop(children, axis, center, buttonInterval, isExpanded);
      FromStartPassDone(children, views, axis, center, buttonInterval, isExpanded);
      children := views;
    }

    method SetButtonInterval(interval: int)
      modifies this`buttonInterval
      ensures buttonInterval == interval
    {
      buttonInterval := interval;
    }

    method SetFloatingDirection(direction: int)
      modifies this`floatingDirection
      ensures floatingDirection == direction
    {
      floatingDirection := direction;
    }

    /** addButton: the new button becomes the first child; any earlier
        animator binding it carried is dropped. */
    method AddButton(button: ChildView)
      requires Valid() && !HasId(children, button.id)
      modifies this`children
      ensures Valid()
      ensures children == [button.(dirAnim := None)] + old(children)
    {
      children := [button.(dirAnim := None)] + children;
    }

    /** addButtonAtLast: the new button goes just before the root. */
    method AddButtonAtLast(button: ChildView)
      requires Valid() && !HasId(children, button.id)
      modifies this`children
      ensures Valid()
      ensures children == old(children[..|children| - 1]) + [button.(dirAnim := None)] + old([children[|children| - 1]])
    {
      var n := |children|;
      children := children[..n - 1] + [button.(dirAnim := None)] + [children[n - 1]];
    }

    /** removeButton: the child with that id leaves; an id that is not a
        child changes nothing. The root is not reachable through it. */
    method RemoveButton(id: nat)
      requires Valid() && id != rootId
      modifies this`children
      ensures Valid()
      ensures children == Removed(old(children), id)
      ensures !HasId(old(children), id) ==> children == old(children)
      ensures HasId(old(children), id) ==> |children| == |old(children)| - 1
    {
      RemovedKeepsRoot(children, id);
      RemovedSize(children, id);
      children := Removed(children, id);
    }

    function IsExpanded(): (b: bool)
      reads this
      ensures b == isExpanded
    {
      isExpanded
    }

    /** expand: when collapsed, cancel the collapse and start the expand. */
    method Expand()
      requires Valid()
      modifies this`isExpanded, this`expandRunning, this`collapseRunning
      ensures Valid()
      ensures old(isExpanded) ==> isExpanded && expandRunning == old(expandRunning) && collapseRunning == old(collapseRunning)
      ensures !old(isExpanded) ==> isExpanded && expandRunning && !collapseRunning
    {
      if !isExpanded {
        isExpanded := true;
        collapseRunning := false;
        expandRunning := true;
      }
    }

    method Collapse()
      requires Valid()
      modifies this`isExpanded, this`expandRunning, this`collapseRunning, this`collapseDuration
      ensures Valid()
      ensures !old(isExpanded) ==> unchanged(this)
      ensures old(isExpanded) ==> !isExpanded && collapseRunning && !expandRunning && collapseDuration == ANIMATION_DURATION
    {
      CollapseWith(false);
    }

    method CollapseImmediately()
      requires Valid()
      modifies this`isExpanded, this`expandRunning, this`collapseRunning, this`collapseDuration
      ensures Valid()
      ensures !old(isExpanded) ==> unchanged(this)
      ensures old(isExpanded) ==> !isExpanded && collapseRunning && !expandRunning && collapseDuration == 0
    {
      CollapseWith(true);
    }

    /** collapse(immediately): when expanded, start the collapse (with no
        duration if immediately) and cancel the expand. */
    method CollapseWith(immediately: bool)
      requires Valid()
      modifies this`isExpanded, this`expandRunning, this`collapseRunning, this`collapseDuration
      ensures Valid()
      ensures !old(isExpanded) ==> unchanged(this)
      ensures old(isExpanded) ==> !isExpanded && collapseRunning && !expandRunning
      ensures old(isExpanded) ==> collapseDuration == if immediately then 0 else ANIMATION_DURATION
    {
      if isExpanded {
        isExpanded := false;
        collapseDuration := if immediately then 0 else ANIMATION_DURATION;
        collapseRunning := true;
        expandRunning := false;
      }
    }

    /** toggle: always flips the expanded state and starts the matching
        animation. */
    method Toggle()
      requires Valid()
      modifies this`isExpanded, this`expandRunning, this`collapseRunning, this`collapseDuration
      ensures Valid()
      ensures isExpanded == !old(isExpanded)
      ensures isExpanded ==> expandRunning && !collapseRunning
      ensures !isExpanded ==> collapseRunning && !expandRunning && collapseDuration == ANIMATION_DURATION
    {
      if isExpanded {
        Collapse();
      } else {
        Expand();
      }
    }

    /** The expand animation reaching its end: every registered child is
        at translation 0 and alpha 1. Nothing happens if it is not running. */
    method FinishExpandAnimation()
      requires Valid()
      modifies this`children, this`expandRunning
      ensures Valid()
      ensures old(expandRunning) ==> children == Settled(old(children), true) && !expandRunning
      ensures !old(expandRunning) ==> unchanged(this)
    {
      if expandRunning {
        children := Settled(children, true);
        expandRunning := false;
      }
    }

    /** The collapse animation reaching its end: every registered child is
        at its collapsed translation and alpha 0. */
    method FinishCollapseAnimation()
      requires Valid()
      modifies this`children, this`collapseRunning
      ensures Valid()
      ensures old(collapseRunning) ==> children == Settled(old(children), false) && !collapseRunning
      ensures !old(collapseRunning) ==> unchanged(this)
    {
      if collapseRunning {
        children := Settled(children, false);
        collapseRunning := false;
      }
    }

    /** hide: when shown, start the hide animation and cancel the show
        animation, whose end listener makes the menu VISIBLE. */
    method Hide()
      requires Valid()
      modifies this`isHided, this`hideRunning, this`showRunning, this`visibility
      ensures Valid()
      ensures old(isHided) ==> unchanged(this)
      ensures !old(isHided) ==> isHided && hideRunning && !showRunning
      ensures !old(isHided) ==> visibility == if old(showRunning) then VISIBLE else old(visibility)
      ensures old(VisibilityAgrees()) ==> VisibilityAgrees()
    {
      if !isHided {
        isHided := true;
        hideRunning := true;
        CancelShowAnimation();
      }
    }

    /**
     * show as the code writes it: when hidden, start the show animation
     * (its start listener makes the menu VISIBLE) and only then cancel the
     * hide animation, whose end listener makes it GONE again.
     */
    method ShowAsWritten()
      requires Valid()
      modifies this`isHided, this`hideRunning, this`showRunning, this`visibility
      ensures Valid()
      ensures !old(isHided) ==> unchanged(this)
      ensures old(isHided) ==> !isHided && showRunning && !hideRunning
      ensures old(isHided) ==> visibility == if old(hideRunning) then GONE else VISIBLE
    {
      if isHided {
        isHided := false;
        StartShowAnimation();
        CancelHideAnimation();
      }
    }

    /** show with the cancel first: the hide animation's end listener runs
        before the show animation's start listener, so the menu is VISIBLE
        for the whole fade-in. */
    method Show()
      requires Valid()
      modifies this`isHided, this`hideRunning, this`showRunning, this`visibility
      ensures Valid()
      ensures !old(isHided) ==> unchanged(this)
      ensures old(isHided) ==> !isHided && showRunning && !hideRunning && visibility == VISIBLE
      ensures old(VisibilityAgrees()) ==> VisibilityAgrees()
    {
      if isHided {
        isHided := false;
        CancelHideAnimation();
        StartShowAnimation();
      }
    }

    /** showAnimation.start(): its start listener sets VISIBLE. */
    method StartShowAnimation()
      modifies this`showRunning, this`visibility
      ensures showRunning && visibility == VISIBLE
    {
      showRunning := true;
      visibility := VISIBLE;
    }

    /** showAnimation.cancel(): a started set ends, and its end listener
        sets VISIBLE; a set that is not running is untouched. */
    method CancelShowAnimation()
      modifies this`showRunning, this`visibility
      ensures !showRunning
      ensures visibility == if old(showRunning) then VISIBLE else old(visibility)
    {
      if showRunning {
        showRunning := false;
        visibility := VISIBLE;
      }
    }

    /** hideAnimation.cancel(): a started set ends, and its end listener
        sets GONE. */
    method CancelHideAnimation()
      modifies this`hideRunning, this`visibility
      ensures !hideRunning
      ensures visibility == if old(hideRunning) then GONE else old(visibility)
    {
      if hideRunning {
        hideRunning := false;
        visibility := GONE;
      }
    }

    /** The hide animation reaching its end: the menu is GONE. */
    method FinishHideAnimation()
      requires Valid()
      modifies this`hideRunning, this`visibility
      ensures Valid()
      ensures old(hideRunning) ==> !hideRunning && visibility == GONE
      ensures !old(hideRunning) ==> unchanged(this)
      ensures old(VisibilityAgrees()) ==> VisibilityAgrees()
    {
      if hideRunning {
        hideRunning := false;
        visibility := GONE;
      }
    }

    /** The show animation reaching its end: the menu is VISIBLE. */
    method FinishShowAnimation()
      requires Valid()
      modifies this`showRunning, this`visibility
      ensures Valid()
      ensures old(showRunning) ==> !showRunning && visibility == VISIBLE
      ensures !old(showRunning) ==> unchanged(this)
      ensures old(VisibilityAgrees()) ==> VisibilityAgrees()
    {
      if showRunning {
        showRunning := false;
        visibility := VISIBLE;
      }
    }
  }

  /** The loop of onUpDirectionLayout / onLeftDirectionLayout: from the
      last child to the first, skipping GONE children, with offset the
      trailing edge of the next child placed. */
  method TowardStartLoop(s: seq<ChildView>, axis: Axis, start: int, center: int, interval: int, expanded: bool)
    returns (views: seq<ChildView>)
    ensures |views| == |s|
    ensures forall k :: 0 <= k < |s| ==> views[k] == TowardStartAt(s, k, axis, start, center, interval, expanded)
  {
    views := s;
    var n := |views|;
    var offset := start;
    var i := n - 1;
    assert s[|s|..] == [];
    while i >= 0
      invariant -1 <= i < n == |s| == |views|
      invariant offset == start - Extent(s[i + 1..], axis, interval)
      invariant forall k :: 0 <= k <= i ==> views[k] == s[k]
      invariant forall k :: i < k < n ==> views[k] == TowardStartAt(s, k, axis, start, center, interval, expanded)
    {
      TowardStartStep(s, i, offset, axis, start, center, interval, expanded);
      var child := views[i];
      if !child.gone {
        var placed := PlaceAt(child, axis, offset - MainSize(child, axis), center);
        if i != n - 1 {
          var collapsedTranslation := start - offset;
          placed := Animate(placed, axis, collapsedTranslation, expanded);
        }
        views := views[i := placed];
        offset := offset - (MainSize(child, axis) + interval);
      }
      i := i - 1;
    }
  }

  /** The loop of onDownDirectionLayout / onRightDirectionLayout: the root
      at the leading padding, then the visible peers in order, with offset
      the next leading edge. */
  method FromStartLoop(s: seq<ChildView>, axis: Axis, center: int, interval: int, expanded: bool)
    returns (views: seq<ChildView>)
    requires |s| >= 1
    ensures |views| == |s|
    ensures forall k :: 0 <= k < |s| ==> views[k] == FromStartAt(s, k, axis, center, interval, expanded)
  {
    views := s;
    var n := |views|;
    var offset := SHADOW_OFFSET;
    var rootView := views[n - 1];
    views := views[n - 1 := PlaceAt(rootView, axis, offset, center)];
    offset := offset + MainSize(rootView, axis) + interval;
    var i := 0;
    while i < n - 1
      invariant 0 <= i <= n - 1 && |views| == n == |s|
      invariant offset == SHADOW_OFFSET + MainSize(s[n - 1], axis) + interval + Extent(s[..i], axis, interval)
      invariant forall k :: i <= k < n - 1 ==> views[k] == s[k]
      invariant forall k :: 0 <= k < i || k == n - 1 ==> views[k] == FromStartAt(s, k, axis, center, interval, expanded)
    {
      assert s[..i + 1] == s[..i] + [s[i]];
      ExtentAppend(s[..i], [s[i]], axis, interval);
      assert [s[i]][1..] == [];
      var child := views[i];
      if !child.gone {
        var placed := PlaceAt(child, axis, offset, center);
        var collapsedTranslation := -offset;
        placed := Animate(placed, axis, collapsedTranslation, expanded);
        assert placed == FromStartAt(s, i, axis, center, interval, expanded);
        views := views[i := placed];
        offset := offset + MainSize(child, axis) + interval;
      }
      i := i + 1;
    }
  }

  /** One step of the Up/Left pass, with offset the next trailing edge. */
  lemma TowardStartStep(s: seq<ChildView>, i: int, offset: int, axis: Axis, start: int, center: int,
                        interval: int, expanded: bool)
    requires 0 <= i < |s| && offset == start - Extent(s[i + 1..], axis, interval)
    ensures offset - Step(s[i], axis, interval) == start - Extent(s[i..], axis, interval)
    ensures s[i].gone ==> TowardStartAt(s, i, axis, start, center, interval, expanded) == s[i]
    ensures !s[i].gone ==>
      var placed := PlaceAt(s[i], axis, offset - MainSize(s[i], axis), center);
      TowardStartAt(s, i, axis, start, center, interval, expanded) ==
        if i == |s| - 1 then placed else Animate(placed, axis, start - offset, expanded)
  {
    assert s[i..][1..] == s[i + 1..];
  }

  /** A completed Up/Left pass: the children are the layout function's
      result, with the same ids and the root still unbound. */
  lemma TowardStartPassDone(s: seq<ChildView>, r: seq<ChildView>, axis: Axis, start: int, center: int,
                            interval: int, expanded: bool)
    requires |s| >= 1 && |r| == |s| && DistinctIds(s) && s[|s| - 1].dirAnim.None?
    requires forall k :: 0 <= k < |s| ==> r[k] == TowardStartAt(s, k, axis, start, center, interval, expanded)
    ensures r == LayoutTowardStart(s, axis, start, center, interval, expanded)
    ensures DistinctIds(r) && r[|r| - 1].id == s[|s| - 1].id && r[|r| - 1].dirAnim.None?
  {
    assert forall k :: 0 <= k < |s| ==> SameShape(r[k], s[k]);
  }

  /** A completed Down/Right pass, likewise. */
  lemma FromStartPassDone(s: seq<ChildView>, r: seq<ChildView>, axis: Axis, center: int,
                          interval: int, expanded: bool)
    requires |s| >= 1 && |r| == |s| && DistinctIds(s) && s[|s| - 1].dirAnim.None?
    requires forall k :: 0 <= k < |s| ==> r[k] == FromStartAt(s, k, axis, center, interval, expanded)
    ensures r == LayoutFromStart(s, axis, center, interval, expanded)
    ensures DistinctIds(r) && r[|r| - 1].id == s[|s| - 1].id && r[|r| - 1].dirAnim.None?
  {
    assert forall k :: 0 <= k < |s| ==> SameShape(r[k], s[k]);
  }

  /** Dropping one child keeps the ids distinct. */
  lemma DistinctWithout(s: seq<ChildView>, k: int)
    requires DistinctIds(s) && 0 <= k < |s|
    ensures DistinctIds(s[..k] + s[k + 1..])
  {
    var r := s[..k] + s[k + 1..];
    forall i, j | 0 <= i < j < |r|
      ensures r[i].id != r[j].id
    {
      var i' := if i < k then i else i + 1;
      var j' := if j < k then j else j + 1;
      assert r[i] == s[i'] && r[j] == s[j'];
    }
  }

  /** Removing a peer keeps the root last and the ids distinct. */
  lemma RemovedKeepsRoot(s: seq<ChildView>, id: nat)
    requires |s| >= 1 && DistinctIds(s) && s[|s| - 1].id != id
    ensures var r := Removed(s, id);
      |r| >= 1 && r[|r| - 1] == s[|s| - 1] && DistinctIds(r)
  {
    if HasId(s, id) {
      var k :| 0 <= k < |s| && s[k].id == id;
      RemovedAt(s, k);
      DistinctWithout(s, k);
      var r := s[..k] + s[k + 1..];
      assert r[|r| - 1] == s[|s| - 1];
    } else {
      RemovedAbsent(s, id);
    }
  }

  /** A quick hide then show, as the code writes show: the menu is GONE
      while the show animation runs, contrary to what the hide and show
      animations are meant to keep. */
  method HideThenShowAsWritten(menu: FloatingMusicMenu)
    requires menu.Valid() && !menu.isHided && menu.VisibilityAgrees()
    modifies menu
    ensures menu.showRunning && !menu.isHided && menu.visibility == GONE
    ensures !menu.VisibilityAgrees()
  {
    menu.Hide();
    menu.ShowAsWritten();
  }

  /** The same sequence with the corrected show: VISIBLE throughout. */
  method HideThenShow(menu: FloatingMusicMenu)
    requires menu.Valid() && !menu.isHided && menu.VisibilityAgrees()
    modifies menu
    ensures menu.showRunning && !menu.isHided && menu.visibility == VISIBLE
    ensures menu.VisibilityAgrees()
  {
    menu.Hide();
    menu.Show();
  }

  /** Finishing the expand animation after a collapsed layout gives what
      an expanded layout gives, for every visible peer and direction. */
  lemma SettleMatchesLayout(s: seq<ChildView>, direction: int, interval: int,
                            l: int, t: int, r: int, b: int, expandedEnd: bool, k: int)
    requires 0 <= direction <= 3 && 0 <= k < |s| - 1 && !s[k].gone
    ensures Settle(LayoutFor(s, direction, interval, !expandedEnd, l, t, r, b)[k], expandedEnd)
         == LayoutFor(s, direction, interval, expandedEnd, l, t, r, b)[k]
  {
    if direction == FLOATING_DIRECTION_UP {
      SettleMatchesTowardStart(s, Vertical, b - t - SHADOW_OFFSET, JavaDiv(r - l, 2), interval, !expandedEnd, expandedEnd, k);
    } else if direction == FLOATING_DIRECTION_LEFT {
      SettleMatchesTowardStart(s, Horizontal, r - l - SHADOW_OFFSET, JavaDiv(b - t, 2), interval, !expandedEnd, expandedEnd, k);
    } else if direction == FLOATING_DIRECTION_DOWN {
      SettleMatchesFromStart(s, Vertical, JavaDiv(r - l, 2), interval, !expandedEnd, expandedEnd, k);
    } else {
      SettleMatchesFromStart(s, Horizontal, JavaDiv(b - t, 2), interval, !expandedEnd, expandedEnd, k);
    }
  }

  /** Expanding from a collapsed layout and letting the animation end puts
      every visible peer exactly where an expanded layout would. */
  method ExpandToEnd(menu: FloatingMusicMenu, l: int, t: int, r: int, b: int)
    requires menu.Valid() && !menu.isExpanded && 0 <= menu.floatingDirection <= 3
    modifies menu
    ensures |menu.children| == |old(menu.children)|
    ensures forall k :: 0 <= k < |old(menu.children)| - 1 && !old(menu.children)[k].gone ==>
      menu.children[k] == LayoutFor(old(menu.children), menu.floatingDirection, menu.buttonInterval, true, l, t, r, b)[k]
  {
    ghost var s := menu.children;
    menu.OnLayout(l, t, r, b);
    menu.Expand();
    menu.FinishExpandAnimation();
    forall k | 0 <= k < |s| - 1 && !s[k].gone
      ensures menu.children[k] == LayoutFor(s, menu.floatingDirection, menu.buttonInterval, true, l, t, r, b)[k]
    {
      SettleMatchesLayout(s, menu.floatingDirection, menu.buttonInterval, l, t, r, b, true, k);
    }
  }
}
