/**
 * The menu's coordinator-layout behaviour: a vertical nested scroll hides
 * the menu on a pull up of more than 30 pixels and shows it again on a
 * pull down of more than 30 pixels.
 */
module MenuBehavior {
  import opened FloatingMenu

  const SCROLL_AXIS_VERTICAL: int := 2
  const SCROLL_THRESHOLD: int := 30

  /** onStartNestedScroll: only a purely vertical scroll is followed. */
  function OnStartNestedScroll(nestedScrollAxes: int): (accepted: bool)
    ensures accepted <==> nestedScrollAxes == SCROLL_AXIS_VERTICAL
  {
    nestedScrollAxes == SCROLL_AXIS_VERTICAL
  }

  datatype ScrollAction = HideMenu | ShowMenu | NoAction

  /** What one onNestedScroll call asks of the menu. */
  function ActionFor(dyConsumed: int, visibility: Visibility): (a: ScrollAction)
    ensures a == HideMenu <==> dyConsumed > SCROLL_THRESHOLD && visibility == VISIBLE
    ensures a == ShowMenu <==> dyConsumed < -SCROLL_THRESHOLD && visibility == GONE
    ensures -SCROLL_THRESHOLD <= dyConsumed <= SCROLL_THRESHOLD ==> a == NoAction
    ensures visibility == INVISIBLE ==> a == NoAction
  {
    if dyConsumed > SCROLL_THRESHOLD && visibility == VISIBLE then HideMenu
    else if dyConsumed < -SCROLL_THRESHOLD && visibility == GONE then ShowMenu
    else NoAction
  }

  /** onNestedScroll: hide or show the menu as ActionFor says. It calls
      show as the code writes it; a GONE menu that keeps the hide/show
      visibility rule has no hide animation running, so there the order
      of start and cancel in show makes no difference. */
  method OnNestedScroll(child: FloatingMusicMenu, dyConsumed: int)
    requires child.Valid()
    modifies child`isHided, child`hideRunning, child`showRunning, child`visibility
    ensures child.Valid()
    ensures ActionFor(dyConsumed, old(child.visibility)) == NoAction ==> unchanged(child)
    ensures ActionFor(dyConsumed, old(child.visibility)) == HideMenu ==> child.isHided
    ensures ActionFor(dyConsumed, old(child.visibility)) == HideMenu && !old(child.isHided) ==>
      child.hideRunning && !child.showRunning && child.visibility == VISIBLE
    ensures ActionFor(dyConsumed, old(child.visibility)) == ShowMenu ==> !child.isHided
    ensures ActionFor(dyConsumed, old(child.visibility)) == ShowMenu && old(child.isHided) ==>
      child.showRunning && !child.hideRunning
      && child.visibility == (if old(child.hideRunning) then GONE else VISIBLE)
    ensures ActionFor(dyConsumed, old(child.visibility)) == ShowMenu && old(child.VisibilityAgrees()) ==>
      child.showRunning && child.visibility == VISIBLE
    ensures old(child.VisibilityAgrees()) ==> child.VisibilityAgrees()
  {
    if dyConsumed > SCROLL_THRESHOLD && child.visibility == VISIBLE {
      child.Hide();
    } else if dyConsumed < -SCROLL_THRESHOLD && child.visibility == GONE {
      child.ShowAsWritten();
    }
  }

  /** A settled shown menu pulled up then down comes back shown, with the
      fade-in running. */
  method PullUpThenDown(child: FloatingMusicMenu, up: int, down: int)
    requires child.Valid() && child.VisibilityAgrees() && !child.isHided
    requires up > SCROLL_THRESHOLD && down < -SCROLL_THRESHOLD
    modifies child`isHided, child`hideRunning, child`showRunning, child`visibility
    ensures child.Valid() && child.VisibilityAgrees()
    ensures !child.isHided && child.visibility == VISIBLE && child.showRunning
  {
    OnNestedScroll(child, up);
    child.FinishHideAnimation();
    OnNestedScroll(child, down);
  }
}
