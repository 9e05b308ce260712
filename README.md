# FloatingMusicMenu in Dafny

A model of the Android widget library FloatingMusicMenu, with proofs. The library has three parts plus a formatter:

- a floating action menu whose root button shows a music cover;
- the cover turns slowly while music plays and is ringed by a progress arc;
- a tap on the root button flies the other action buttons out in one of four directions, or pulls them back;
- a vertical scroll hides the menu or brings it back;
- the demo application's `getTime` formatter, which turns a playback position into "[H:]MM:SS".

The model has these modules:

- `MusicUtils` (music_utils.dfy): `getTime`, written as the builder-appending method it is. It is proved equal to a reference format, and that format is proved to round-trip to whole seconds.
- `ProgressRing` (progress_ring.dfy): the `RotatingProgressDrawable` class.
  - The progress guard and the percent-to-degree conversion.
  - Stroke width and intrinsic size.
  - The one-degree rotation tick.
  - The rotate handler's message queue, reduced to a count of queued tick messages that a looper step (`Dispatch`) delivers.
- `MusicButton` (music_button.dfy): the `FloatingMusicButton` class.
  - Its mirrored configuration, pushed into the drawable it owns.
  - Cover replacement.
  - The instance-state bundle, as a map from keys to typed values.
- `MenuLayout` (menu_layout.dfy): measurement and layout of the menu's children as functions on values.
  - A child is a `ChildView`: its id, measured size, its GONE flag, and what layout and animation write (frame, translations, alpha, animation binding).
  - The children are a sequence whose last element is the root button.
  - The lemmas cover placement, spacing, centring, collapsed translations, fitting inside the measured size, idempotence, and where the expand and collapse animations stop.
- `FloatingMenu` (floating_menu.dfy): the `FloatingMusicMenu` class.
  - The measure and layout passes as loops that are proved against `MenuLayout`.
  - Adding and removing buttons.
  - Expand, collapse and toggle.
  - Hide and show, with the listeners that the show and hide animator sets run.
- `MenuBehavior` (menu_behavior.dfy): the coordinator-layout scroll behaviour.

The model makes these choices:

- Java `float` values become `real`. This covers progress, angles, stroke width and alpha.
- `buttonInterval` is a Java `float` that the model holds as a whole number of pixels, an `int` (see "## Left out").
- Java's `int` division truncates toward zero (`MenuLayout.JavaDiv`). The model keeps that where an operand can be negative.
- Which animator sets are running is a set of boolean fields. An animation reaching its end is an explicit `Finish...` step.
- The platform's animator behaviour is modelled as follows:
  - `AnimatorSet.start()` runs its start listeners at once.
  - `AnimatorSet.cancel()`, on a set that has started, runs its end listeners.
  - Cancelling a set that is not running does nothing.

Three details of the code that the model keeps as written:

- The angle goes back to 0 only once it passes 360 (`RotatingProgressDrawable.java`, lines 216-219). So a tick keeps it in [0, 360], 360 included, and a full turn takes 361 ticks (`ProgressRing.TicksFromZero`, `ProgressRing.FullTurn`).
- `onMeasure` and `onLayout` have no `default` branch. For a direction outside 0..3 the model sets nothing and lays out nothing (`FloatingMenu.AxisOf`, `FloatingMenu.LayoutFor`), as the code does. It does not reject such a direction.
- The collapsed translation differs between the two pairs of directions:
  - Up/Left: collapsing moves a peer's trailing edge onto the root's trailing edge.
  - Down/Right: it moves a peer's leading edge to 0, which is the container's edge and not the root's top at the padding of 20 (`MenuLayout.FromStartPeer`).
  - This is what the code does. The model states it without calling it an error.

## Model

| member | source | states |
|---|---|---|
| MusicUtils.Decimal | app/src/main/java/com/cpacm/musicbtn/MusicUtils.java:33 | appending an int writes at least one decimal digit, with no leading zero, and one digit exactly for values below ten |
| MusicUtils.ParseDecimalOfDecimal | app/src/main/java/com/cpacm/musicbtn/MusicUtils.java:33 | the appended digits read back as the number |
| MusicUtils.HoursFromMinutes | app/src/main/java/com/cpacm/musicbtn/MusicUtils.java:28-30 | dividing the seconds by 60 twice gives the hour, seconds / 3600 |
| MusicUtils.SecondsSplit | app/src/main/java/com/cpacm/musicbtn/MusicUtils.java:26-30 | hour, minute and second recombine to the whole seconds of the position |
| MusicUtils.PaddedField | app/src/main/java/com/cpacm/musicbtn/MusicUtils.java:36-45 | padding with "0" below ten then appending writes a field below 60 as exactly two digits |
| MusicUtils.TwoDigitsParse | app/src/main/java/com/cpacm/musicbtn/MusicUtils.java:36-46 | a two-digit field is all digits and reads back as its value |
| MusicUtils.GetTime | app/src/main/java/com/cpacm/musicbtn/MusicUtils.java:25-47 | the appended text is the reference format: optional unpadded hour and ':', two-digit minutes, ':', two-digit seconds |
| MusicUtils.TimeStampRoundTrip | app/src/main/java/com/cpacm/musicbtn/MusicUtils.java:25-47 | parsing the text back gives the position in whole seconds, time / 1000, so only the milliseconds are lost |
| MusicUtils.TimeStampShape | app/src/main/java/com/cpacm/musicbtn/MusicUtils.java:32-46 | exact digit and ':' positions; the hour prefix is there iff time >= 3600000, and it has no leading zero |
| MusicUtils.ShortTimeStamp | app/src/main/java/com/cpacm/musicbtn/MusicUtils.java:36-46 | below one hour the text has length 5 with ':' at index 2 |
| MusicUtils.TimeStampSameSecond | app/src/main/java/com/cpacm/musicbtn/MusicUtils.java:26 | two positions give the same text iff they fall in the same second |
| MusicUtils.TimeStampExamples | app/src/main/java/com/cpacm/musicbtn/MusicUtils.java:25-47 | 0 gives "00:00", 61000 gives "01:01" and 3661000 gives "1:01:01" |
| ProgressRing.SweepAfter | floatingmusicmenu/src/main/java/com/cpacm/RotatingProgressDrawable.java:105-111 | a value outside [0, 100] leaves the sweep as it was; otherwise the sweep is value * 360 / 100, in [0, 360] |
| ProgressRing.Tick | floatingmusicmenu/src/main/java/com/cpacm/RotatingProgressDrawable.java:215-220 | a tick adds one degree or resets to 0, and keeps an angle in [0, 360] inside it |
| ProgressRing.TicksFromZero | floatingmusicmenu/src/main/java/com/cpacm/RotatingProgressDrawable.java:215-220 | from rest, k ticks give exactly k mod 361 degrees |
| ProgressRing.FullTurn | floatingmusicmenu/src/main/java/com/cpacm/RotatingProgressDrawable.java:217-219 | 360 ticks reach 360 degrees, and the 361st returns to 0 |
| ProgressRing.TicksStayInRange | floatingmusicmenu/src/main/java/com/cpacm/RotatingProgressDrawable.java:215-220 | any number of ticks keeps an angle in [0, 360] inside it |
| ProgressRing.RotatingProgressDrawable.FromBitmap | floatingmusicmenu/src/main/java/com/cpacm/RotatingProgressDrawable.java:51-69 | initial percent 3, progress 0, colour RED; ring size is the shorter bitmap side; stroke is that size times 3 / 100 |
| ProgressRing.RotatingProgressDrawable.FromDrawable | floatingmusicmenu/src/main/java/com/cpacm/RotatingProgressDrawable.java:164-174 | a colour drawable becomes a 2x2 bitmap and any other drawable a bitmap of its intrinsic size; the other initial values are as for a bitmap |
| ProgressRing.RotatingProgressDrawable.IntrinsicWidth | floatingmusicmenu/src/main/java/com/cpacm/RotatingProgressDrawable.java:183-185 | the intrinsic width is the shorter bitmap side |
| ProgressRing.RotatingProgressDrawable.IntrinsicHeight | floatingmusicmenu/src/main/java/com/cpacm/RotatingProgressDrawable.java:188-190 | the intrinsic height is that same side, so the drawable is square |
| ProgressRing.RotatingProgressDrawable.SetProgress | floatingmusicmenu/src/main/java/com/cpacm/RotatingProgressDrawable.java:105-111 | an out-of-range value changes nothing; otherwise sweep * 100 == value * 360; no other field changes |
| ProgressRing.RotatingProgressDrawable.SetProgressWidthPercent | floatingmusicmenu/src/main/java/com/cpacm/RotatingProgressDrawable.java:118-125 | the percent is always stored; the stroke is recomputed only when the ring size is positive |
| ProgressRing.RotatingProgressDrawable.SetProgressColor | floatingmusicmenu/src/main/java/com/cpacm/RotatingProgressDrawable.java:132-136 | only the colour changes |
| ProgressRing.RotatingProgressDrawable.SetRotation | floatingmusicmenu/src/main/java/com/cpacm/RotatingProgressDrawable.java:78-81 | any angle is stored as given, with no range check |
| ProgressRing.RotatingProgressDrawable.Rotate | floatingmusicmenu/src/main/java/com/cpacm/RotatingProgressDrawable.java:143-148 | afterwards exactly one tick is queued if rotating and none otherwise, so repeated starts never stack; the angle is untouched |
| ProgressRing.RotatingProgressDrawable.HandleMessage | floatingmusicmenu/src/main/java/com/cpacm/RotatingProgressDrawable.java:214-224 | a tick message advances the angle by one tick and queues exactly one more; another message does nothing |
| ProgressRing.RotatingProgressDrawable.Dispatch | floatingmusicmenu/src/main/java/com/cpacm/RotatingProgressDrawable.java:221 | delivering the queued tick advances the angle and the queue stays at the same length; with an empty queue the angle is frozen |
| ProgressRing.RunTicks | floatingmusicmenu/src/main/java/com/cpacm/RotatingProgressDrawable.java:214-221 | k deliveries advance a running drawable by k ticks and leave a stopped one where it was |
| MusicButton.GetBoolean | floatingmusicmenu/src/main/java/com/cpacm/FloatingMusicButton.java:156 | Bundle.getBoolean gives true only for a stored true, and false for a missing key |
| MusicButton.GetFloat | floatingmusicmenu/src/main/java/com/cpacm/FloatingMusicButton.java:157 | Bundle.getFloat gives the stored float, or 0 for a missing key |
| MusicButton.KeysDistinct | floatingmusicmenu/src/main/java/com/cpacm/FloatingMusicButton.java:144-147 | the three bundle keys are pairwise distinct |
| MusicButton.FloatingMusicButton.constructor | floatingmusicmenu/src/main/java/com/cpacm/FloatingMusicButton.java:29-37 | no drawable, progress 0, not rotating |
| MusicButton.FloatingMusicButton.Config | floatingmusicmenu/src/main/java/com/cpacm/FloatingMusicButton.java:91-102 | without a drawable nothing changes; with one, its percent, colour, progress and tick queue follow the button; the tint changes only for a non-null hint |
| MusicButton.FloatingMusicButton.ConfigWith | floatingmusicmenu/src/main/java/com/cpacm/FloatingMusicButton.java:84-89 | all three values are stored, then pushed as config() does; the drawable keeps its bitmap, size and angle, and its stroke follows the new percent |
| MusicButton.FloatingMusicButton.SetProgress | floatingmusicmenu/src/main/java/com/cpacm/FloatingMusicButton.java:109-114 | the button records every value; a drawable, if any, applies its own range guard, and none of its other fields change |
| MusicButton.FloatingMusicButton.SetCoverDrawable | floatingmusicmenu/src/main/java/com/cpacm/FloatingMusicButton.java:121-126 | a fresh drawable of the source's size, carrying the button's configuration; the old drawable is left unchanged |
| MusicButton.FloatingMusicButton.SetCover | floatingmusicmenu/src/main/java/com/cpacm/FloatingMusicButton.java:128-133 | the same for a bitmap; stroke width and intrinsic size follow the bitmap's shorter side |
| MusicButton.FloatingMusicButton.Rotate | floatingmusicmenu/src/main/java/com/cpacm/FloatingMusicButton.java:135-138 | the flag is set and the drawable's queue holds one tick if rotating and none otherwise; every other drawable field is unchanged; needs a drawable |
| MusicButton.FloatingMusicButton.SaveInstanceState | floatingmusicmenu/src/main/java/com/cpacm/FloatingMusicButton.java:141-150 | the bundle holds the flag and the progress, and the angle iff a drawable exists |
| MusicButton.FloatingMusicButton.RestoreInstanceState | floatingmusicmenu/src/main/java/com/cpacm/FloatingMusicButton.java:153-159 | only the flag and the progress are read back, with bundle defaults; the drawable is untouched |
| MusicButton.SavedState | floatingmusicmenu/src/main/java/com/cpacm/FloatingMusicButton.java:143-149 | the saved bundle's keys and the angle entry |
| MusicButton.SaveRestoreRoundTrip | floatingmusicmenu/src/main/java/com/cpacm/FloatingMusicButton.java:141-159 | restoring a saved bundle gives back the flag and the progress |
| MusicButton.SaveThenRestore | floatingmusicmenu/src/main/java/com/cpacm/FloatingMusicButton.java:141-159 | save then restore on one button preserves both fields and the drawable, angle included |
| MenuLayout.AdjustShootLength | floatingmusicmenu/src/main/java/com/cpacm/FloatingMusicMenu.java:225-227 | length * 12 / 10 with Java truncation: for length >= 0 it is length + length / 5 and never less than length |
| MenuLayout.MeasureAlong | floatingmusicmenu/src/main/java/com/cpacm/FloatingMusicMenu.java:188-223 | the loop gives the inflated sum of visible sizes + 40 + interval * (childCount - 1), and the largest visible cross size + 40 |
| MenuLayout.MaxVisibleIsMaximum | floatingmusicmenu/src/main/java/com/cpacm/FloatingMusicMenu.java:193-195 | the cross measure bounds every visible child and is reached by one of them |
| MenuLayout.MeasureExample | floatingmusicmenu/src/main/java/com/cpacm/FloatingMusicMenu.java:188-203 | two visible children of height 100 with interval 10 measure 250 before inflation and 300 after |
| MenuLayout.PlaceAt | floatingmusicmenu/src/main/java/com/cpacm/FloatingMusicMenu.java:260 | child.layout puts the leading edge at the offset and centres the child across the axis; only the frame changes |
| MenuLayout.Animate | floatingmusicmenu/src/main/java/com/cpacm/FloatingMusicMenu.java:264-274 | translation 0 and alpha 1 when expanded, or the collapsed translation and alpha 0 when collapsed; expand is bound to run collapsed to 0 and collapse 0 to collapsed |
| MenuLayout.TowardStartAt | floatingmusicmenu/src/main/java/com/cpacm/FloatingMusicMenu.java:254-277 | one Up/Left step keeps the child's id, size and GONE flag |
| MenuLayout.LayoutTowardStart | floatingmusicmenu/src/main/java/com/cpacm/FloatingMusicMenu.java:250-278 | the Up/Left pass keeps every child's shape and leaves GONE children untouched |
| MenuLayout.FromStartAt | floatingmusicmenu/src/main/java/com/cpacm/FloatingMusicMenu.java:286-311 | one Down/Right step keeps the child's id, size and GONE flag |
| MenuLayout.LayoutFromStart | floatingmusicmenu/src/main/java/com/cpacm/FloatingMusicMenu.java:283-312 | the Down/Right pass keeps every child's shape and leaves GONE peers untouched |
| MenuLayout.TowardStartRoot | floatingmusicmenu/src/main/java/com/cpacm/FloatingMusicMenu.java:252-263 | a visible root's trailing edge is at the start offset, (b-t)-20 for Up, and it gets a frame only: no translation, alpha or animation |
| MenuLayout.TowardStartNeighbours | floatingmusicmenu/src/main/java/com/cpacm/FloatingMusicMenu.java:276 | consecutive visible children, GONE ones between, are exactly one interval apart |
| MenuLayout.TowardStartPeer | floatingmusicmenu/src/main/java/com/cpacm/FloatingMusicMenu.java:263-274 | a peer's collapsed translation is start minus its trailing edge, which is >= 0 for a non-negative interval |
| MenuLayout.TowardStartFits | floatingmusicmenu/src/main/java/com/cpacm/FloatingMusicMenu.java:250-278 | at the measured size with a non-negative interval, every visible child lies inside the 20-pixel padding on both axes |
| MenuLayout.FromStartRoot | floatingmusicmenu/src/main/java/com/cpacm/FloatingMusicMenu.java:285-288 | the root's leading edge is at 20, GONE or not, and it gets a frame only |
| MenuLayout.FromStartFirstPeer | floatingmusicmenu/src/main/java/com/cpacm/FloatingMusicMenu.java:288-296 | the first visible peer starts one interval after the root ends |
| MenuLayout.FromStartNeighbours | floatingmusicmenu/src/main/java/com/cpacm/FloatingMusicMenu.java:296-310 | consecutive visible peers are exactly one interval apart |
| MenuLayout.FromStartPeer | floatingmusicmenu/src/main/java/com/cpacm/FloatingMusicMenu.java:298-305 | a peer's collapsed translation is minus its leading edge, at most -(20 + root size) for a non-negative interval |
| MenuLayout.FromStartFits | floatingmusicmenu/src/main/java/com/cpacm/FloatingMusicMenu.java:283-312 | at the measured size with a visible root, every visible child lies inside the padding |
| MenuLayout.TowardStartIdempotent | floatingmusicmenu/src/main/java/com/cpacm/FloatingMusicMenu.java:250-278 | laying out the result again changes nothing |
| MenuLayout.FromStartIdempotent | floatingmusicmenu/src/main/java/com/cpacm/FloatingMusicMenu.java:283-312 | laying out the result again changes nothing |
| MenuLayout.Settle | floatingmusicmenu/src/main/java/com/cpacm/FloatingMusicMenu.java:264-274 | a bound child at an animation's end has the animation's end translation and alpha (1 expanded, 0 collapsed), with shape, frame and binding kept; an unbound child is untouched |
| MenuLayout.SettleMatchesTowardStart | floatingmusicmenu/src/main/java/com/cpacm/FloatingMusicMenu.java:264-271 | the end of an Up/Left animation is where the layout in the target state puts a visible peer |
| MenuLayout.SettleMatchesFromStart | floatingmusicmenu/src/main/java/com/cpacm/FloatingMusicMenu.java:298-305 | the same for Down/Right |
| FloatingMenu.Removed | floatingmusicmenu/src/main/java/com/cpacm/FloatingMusicMenu.java:396-399 | removeView keeps exactly the children without that id |
| FloatingMenu.RemovedAbsent | floatingmusicmenu/src/main/java/com/cpacm/FloatingMusicMenu.java:396-399 | removing an id that is not a child changes nothing |
| FloatingMenu.RemovedAt | floatingmusicmenu/src/main/java/com/cpacm/FloatingMusicMenu.java:396-399 | removing the child at index k leaves the others in their order |
| FloatingMenu.RemovedSize | floatingmusicmenu/src/main/java/com/cpacm/FloatingMusicMenu.java:396-399 | removal takes away one child when the id is present, and none otherwise |
| FloatingMenu.AddThenRemove | floatingmusicmenu/src/main/java/com/cpacm/FloatingMusicMenu.java:386-399 | adding a button at the front and removing it again restores the children |
| FloatingMenu.AddAtLastThenRemove | floatingmusicmenu/src/main/java/com/cpacm/FloatingMusicMenu.java:391-399 | adding a button just before the root and removing it again restores the children |
| FloatingMenu.RemovedKeepsRoot | floatingmusicmenu/src/main/java/com/cpacm/FloatingMusicMenu.java:396-399 | removing a peer keeps the root last and the ids distinct |
| FloatingMenu.AxisOf | floatingmusicmenu/src/main/java/com/cpacm/FloatingMusicMenu.java:173-182 | directions 0..3 have an axis, Up/Down vertical and Left/Right horizontal; others have none |
| FloatingMenu.MeasuredSize | floatingmusicmenu/src/main/java/com/cpacm/FloatingMusicMenu.java:188-223 | vertical gives (cross, inflated main); horizontal gives the axes swapped |
| FloatingMenu.LayoutFor | floatingmusicmenu/src/main/java/com/cpacm/FloatingMusicMenu.java:230-245 | an unknown direction lays out nothing; any direction keeps every child's shape |
| FloatingMenu.MeasuredLayoutFits | floatingmusicmenu/src/main/java/com/cpacm/FloatingMusicMenu.java:171-245 | laid out in its own measured rectangle, every visible child is inside the padding on all four sides, for every direction |
| FloatingMenu.Settled | floatingmusicmenu/src/main/java/com/cpacm/FloatingMusicMenu.java:489-492 | an animator set's end applies to every child registered in it |
| FloatingMenu.SettleMatchesLayout | floatingmusicmenu/src/main/java/com/cpacm/FloatingMusicMenu.java:264-305 | for every direction, finishing an animation matches a layout in its end state |
| FloatingMenu.FloatingMusicMenu.constructor | floatingmusicmenu/src/main/java/com/cpacm/FloatingMusicMenu.java:100-168 | inflated buttons then the root last, none bound to animations; collapsed, shown, nothing running |
| FloatingMenu.FloatingMusicMenu.OnMeasure | floatingmusicmenu/src/main/java/com/cpacm/FloatingMusicMenu.java:171-183 | the measured size is the direction's measure; an unknown direction sets nothing |
| FloatingMenu.FloatingMusicMenu.OnMeasureVerticalDirection | floatingmusicmenu/src/main/java/com/cpacm/FloatingMusicMenu.java:188-203 | width is the cross measure and height the inflated main measure |
| FloatingMenu.FloatingMusicMenu.OnMeasureHorizontalDirection | floatingmusicmenu/src/main/java/com/cpacm/FloatingMusicMenu.java:208-223 | the same with the axes swapped |
| FloatingMenu.FloatingMusicMenu.OnLayout | floatingmusicmenu/src/main/java/com/cpacm/FloatingMusicMenu.java:230-245 | the children become the direction's layout of the old children |
| FloatingMenu.FloatingMusicMenu.OnUpDirectionLayout | floatingmusicmenu/src/main/java/com/cpacm/FloatingMusicMenu.java:250-278 | the Up layout with centre (r-l)/2 and start (b-t)-20 |
| FloatingMenu.FloatingMusicMenu.OnLeftDirectionLayout | floatingmusicmenu/src/main/java/com/cpacm/FloatingMusicMenu.java:317-345 | the Left layout with centre (b-t)/2 and start (r-l)-20 |
| FloatingMenu.FloatingMusicMenu.OnDownDirectionLayout | floatingmusicmenu/src/main/java/com/cpacm/FloatingMusicMenu.java:283-312 | the Down layout with centre (r-l)/2 |
| FloatingMenu.FloatingMusicMenu.OnRightDirectionLayout | floatingmusicmenu/src/main/java/com/cpacm/FloatingMusicMenu.java:350-379 | the Right layout with centre (b-t)/2 |
| FloatingMenu.FloatingMusicMenu.LayoutTowardStartPass | floatingmusicmenu/src/main/java/com/cpacm/FloatingMusicMenu.java:254-277 | the pass over the children field keeps the root last and unbound |
| FloatingMenu.FloatingMusicMenu.LayoutFromStartPass | floatingmusicmenu/src/main/java/com/cpacm/FloatingMusicMenu.java:286-311 | the same for Down/Right |
| FloatingMenu.TowardStartLoop | floatingmusicmenu/src/main/java/com/cpacm/FloatingMusicMenu.java:254-277 | the offset-decrementing loop computes the Up/Left layout child by child |
| FloatingMenu.FromStartLoop | floatingmusicmenu/src/main/java/com/cpacm/FloatingMusicMenu.java:286-311 | the offset-incrementing loop computes the Down/Right layout child by child |
| FloatingMenu.FloatingMusicMenu.SetButtonInterval | floatingmusicmenu/src/main/java/com/cpacm/FloatingMusicMenu.java:381-384 | the interval is replaced |
| FloatingMenu.FloatingMusicMenu.SetFloatingDirection | floatingmusicmenu/src/main/java/com/cpacm/FloatingMusicMenu.java:423-426 | the direction is replaced, unchecked |
| FloatingMenu.FloatingMusicMenu.AddButton | floatingmusicmenu/src/main/java/com/cpacm/FloatingMusicMenu.java:386-389 | the new button becomes the first child, with any earlier animator binding dropped (see "## Left out"); the root stays last |
| FloatingMenu.FloatingMusicMenu.AddButtonAtLast | floatingmusicmenu/src/main/java/com/cpacm/FloatingMusicMenu.java:391-394 | the new button goes just before the root |
| FloatingMenu.FloatingMusicMenu.RemoveButton | floatingmusicmenu/src/main/java/com/cpacm/FloatingMusicMenu.java:396-399 | exactly that child leaves, the others keep their order, and an absent id changes nothing |
| FloatingMenu.FloatingMusicMenu.IsExpanded | floatingmusicmenu/src/main/java/com/cpacm/FloatingMusicMenu.java:545-547 | reports the expanded flag |
| FloatingMenu.FloatingMusicMenu.Expand | floatingmusicmenu/src/main/java/com/cpacm/FloatingMusicMenu.java:537-543 | from collapsed: expanded, expand running, collapse cancelled; already expanded: nothing changes |
| FloatingMenu.FloatingMusicMenu.Collapse | floatingmusicmenu/src/main/java/com/cpacm/FloatingMusicMenu.java:512-514 | from expanded: collapsed with a 300 ms collapse running and the expand cancelled; otherwise nothing changes |
| FloatingMenu.FloatingMusicMenu.CollapseImmediately | floatingmusicmenu/src/main/java/com/cpacm/FloatingMusicMenu.java:516-518 | the same with duration 0 |
| FloatingMenu.FloatingMusicMenu.CollapseWith | floatingmusicmenu/src/main/java/com/cpacm/FloatingMusicMenu.java:520-527 | the guarded collapse with duration 0 or 300 |
| FloatingMenu.FloatingMusicMenu.Toggle | floatingmusicmenu/src/main/java/com/cpacm/FloatingMusicMenu.java:529-535 | always flips the expanded flag and runs the matching animation |
| FloatingMenu.FloatingMusicMenu.FinishExpandAnimation | floatingmusicmenu/src/main/java/com/cpacm/FloatingMusicMenu.java:489-492 | every registered child reaches translation 0 and alpha 1 |
| FloatingMenu.FloatingMusicMenu.FinishCollapseAnimation | floatingmusicmenu/src/main/java/com/cpacm/FloatingMusicMenu.java:489-490 | every registered child reaches its collapsed translation and alpha 0 |
| FloatingMenu.FloatingMusicMenu.Hide | floatingmusicmenu/src/main/java/com/cpacm/FloatingMusicMenu.java:549-555 | from shown: hidden, hide running, show cancelled (its end listener sets VISIBLE); keeps the hide/show visibility rule |
| FloatingMenu.FloatingMusicMenu.ShowAsWritten | floatingmusicmenu/src/main/java/com/cpacm/FloatingMusicMenu.java:557-563 | from hidden: shown and show running, but GONE if a hide animation was under way |
| FloatingMenu.FloatingMusicMenu.Show | floatingmusicmenu/src/main/java/com/cpacm/FloatingMusicMenu.java:557-563 | from hidden: shown, show running and VISIBLE; keeps the hide/show visibility rule |
| FloatingMenu.FloatingMusicMenu.StartShowAnimation | floatingmusicmenu/src/main/java/com/cpacm/FloatingMusicMenu.java:130-134 | starting the show set runs its start listener: VISIBLE |
| FloatingMenu.FloatingMusicMenu.CancelShowAnimation | floatingmusicmenu/src/main/java/com/cpacm/FloatingMusicMenu.java:124-128 | cancelling a running show set runs its end listener: VISIBLE |
| FloatingMenu.FloatingMusicMenu.CancelHideAnimation | floatingmusicmenu/src/main/java/com/cpacm/FloatingMusicMenu.java:140-145 | cancelling a running hide set runs its end listener: GONE |
| FloatingMenu.FloatingMusicMenu.FinishHideAnimation | floatingmusicmenu/src/main/java/com/cpacm/FloatingMusicMenu.java:140-145 | the hide set's end makes the menu GONE |
| FloatingMenu.FloatingMusicMenu.FinishShowAnimation | floatingmusicmenu/src/main/java/com/cpacm/FloatingMusicMenu.java:124-128 | the show set's end makes the menu VISIBLE |
| FloatingMenu.HideThenShowAsWritten | floatingmusicmenu/src/main/java/com/cpacm/FloatingMusicMenu.java:549-563 | hide then show as written leaves the menu GONE while it fades in |
| FloatingMenu.HideThenShow | floatingmusicmenu/src/main/java/com/cpacm/FloatingMusicMenu.java:549-563 | with the corrected show, the menu is VISIBLE |
| FloatingMenu.ExpandToEnd | floatingmusicmenu/src/main/java/com/cpacm/FloatingMusicMenu.java:537-543 | layout, expand, then the end of the animation, leaves every visible peer where the expanded layout puts it |
| MenuBehavior.OnStartNestedScroll | floatingmusicmenu/src/main/java/com/cpacm/FloatingMusicMenu.java:595-598 | only the vertical scroll axis alone is accepted |
| MenuBehavior.ActionFor | floatingmusicmenu/src/main/java/com/cpacm/FloatingMusicMenu.java:588-592 | hide iff dy > 30 and VISIBLE; show iff dy < -30 and GONE; otherwise nothing |
| MenuBehavior.OnNestedScroll | floatingmusicmenu/src/main/java/com/cpacm/FloatingMusicMenu.java:585-593 | hides or shows as ActionFor says, calling show as the code writes it, and otherwise leaves the menu unchanged; only the hidden flag, the hide and show animators and the visibility can change; a hide starts the hide animation with the menu still VISIBLE; a show starts the show animation and ends GONE only if a hide animation was running, so from a menu that keeps the hide/show visibility rule it ends VISIBLE and the rule is kept |
| MenuBehavior.PullUpThenDown | floatingmusicmenu/src/main/java/com/cpacm/FloatingMusicMenu.java:585-593 | a shown menu pulled up, let fade to GONE, then pulled down, is VISIBLE again with the fade-in running |

## Left out

- Canvas drawing (`draw`, shaders, arcs, the scale and rotate of the canvas) and the copying of pixels into the bitmap. Only the sizes are modelled.
- Floating-point rounding. Java `float`s are modelled as exact `real`s, so NaN, which passes the progress guard, is not modelled.
- Integer overflow: all `int` arithmetic is unbounded.
- Animator internals: interpolator curves, frame timing, layer-type listeners and the values children hold part-way through. A cancelled expand or collapse leaves the children as they were, not mid-flight.
- Real-time delays: the 25 ms tick interval and the demo's 1000 ms progress poll. The tick queue is a count, and the looper is the `Dispatch` step.
- Reflection in `setMaxImageSize`, `dp2px`, TypedArray attribute parsing, `setImageDrawable`, `requestLayout`, `postInvalidate` and `invalidateSelf`. These are platform calls with nothing to check. The interval and direction are constructor parameters.
- `setAlpha` and `setColorFilter` on the drawable, which forward to the paint, and `getOpacity`, which returns a constant. The paint is not modelled.
- The menu's forwarders `setMusicCover`, `setProgress`, `start` and `stop`, and its child music button (the `EXPANDED_PLUS_ROTATION` constant is unused). The button and drawable models cover what these forwarders call.
- The demo activities `MusicPlayerActivity.java` and `FmmActivity.java`.
- Animators of a child that has been removed or moved. The model drops them with the child, while the Java animator sets keep playing them. `removeView` keeps a child's layout params, so a button that is added again (as the demo does with its extra button) is still in the animator sets. The model's `AddButton` and `AddButtonAtLast` drop that binding.
- A child whose layout params are not the menu's own. In Java this is a ClassCastException; in the model every child has them.
- The measured size the framework gives each child (`measureChildren`) is an input. The model does not stop `onMeasure` with an unknown direction, which the framework would reject for not setting a size.
- MusicUtils.GetTime: requires time >= 0. Negative positions, which Java would write with minus signs, are not modelled.
- FloatingMenu.FloatingMusicMenu.RemoveButton: requires an id other than the root's. The model keeps the design's invariant that the root button is always the last child. Java's `removeButton` accepts any view, and `getChildAt` can reach the root, so removing it is possible there; the model does not cover the broken layouts that follow.
- FloatingMenu.FloatingMusicMenu.AddButton: requires an id that is not already a child, as `addView` throws for a view that already has a parent.
- FloatingMenu.FloatingMusicMenu.AddButtonAtLast: requires an id that is not already a child, for the same reason.
- ProgressRing.RotatingProgressDrawable.FromDrawable: requires a positive intrinsic size for non-colour drawables, as `Bitmap.createBitmap` throws otherwise.
- MusicButton.FloatingMusicButton.SetCoverDrawable: requires a source it can render, for the same reason: it builds the drawable from that source.
- MusicButton.FloatingMusicButton.Rotate: requires a drawable. Java throws a NullPointerException without one (FloatingMusicButton.java:136), because `rotate` does not check `coverDrawable`.
- MusicButton.FloatingMusicButton.RestoreInstanceState: drops the call to `super.onRestoreInstanceState(state)` (FloatingMusicButton.java:154) that runs before the bundle is read. It also drops `super.onSaveInstanceState()` (line 142), whose result the save throws away. On the platform, `View.onRestoreInstanceState` rejects with an IllegalArgumentException any state that is not an `AbsSavedState`, and a `Bundle` is not one. So for a button whose state is saved and restored, Java throws before it reads `isRotation` or `progress`. The model restores the two fields as the method body intends.
- MusicButton.SaveThenRestore: relies on RestoreInstanceState, so it shares that gap. It states the round trip the method bodies intend, not the platform's exception.
- The old drawable's queued tick after a cover change is not removed, so it keeps ticking in Java. `SetCoverDrawable` and `SetCover` state that the old drawable is left unchanged.
- FloatingMenu.FloatingMusicMenu.constructor: models the menu built from XML only. After inflation, `onFinishInflate` (FloatingMusicMenu.java:165-168) adds the root last. A menu built with `new FloatingMusicMenu(context)` never runs `onFinishInflate`, so it has no root child, and the Down/Right layouts would call `getChildAt(-1)`. The model does not cover that menu.
- FloatingMenu.FloatingMusicMenu.SetButtonInterval: the interval is an `int`. In Java it is a `float`: `dp2px` gives fractional pixels (10.5 at density 2.625), and `setButtonInterval(float)` is public. Java truncates the float sum once in `onMeasure` and again at every layout step (`offsetY -= height + buttonInterval`). The model does not capture those truncations. The layout functions, which take the interval as an `int`, inherit the same gap.
- MenuLayout.MeasureAlong: takes the interval as an `int`. So it does not capture Java's truncation of `height + buttonInterval * (getChildCount() - 1)` back to an `int` when the interval is fractional.

## Findings

| source | as written | input that shows it | evidently intended | confidence | as-written member | corrected member |
|---|---|---|---|---|---|---|
| floatingmusicmenu/src/main/java/com/cpacm/FloatingMusicMenu.java:557-563 | show() starts the show animation, whose start listener sets VISIBLE. It then cancels the hide animation, whose end listener sets GONE. | hide() then show() within the 300 ms hide animation | the menu is VISIBLE while it fades back in | not executed; relies on AnimatorSet.cancel() of a started set running its end listeners | FloatingMenu.HideThenShowAsWritten | FloatingMenu.HideThenShow |
