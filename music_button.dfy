/**
 * The music button: a round action button whose icon is a rotating
 * progress drawable. The button mirrors the ring configuration, progress
 * and rotation flag, pushes them into the drawable, and saves part of its
 * visual state across recreation.
 */
module MusicButton {
  import opened Wrappers
  import opened ProgressRing

  /** What a Bundle can hold for this button. */
  datatype BundleValue = BoolValue(b: bool) | FloatValue(f: real)

  type Bundle = map<string, BundleValue>

  const KEY_ROTATION: string := "rotation"
  const KEY_PROGRESS: string := "progress"
  const KEY_ROTATION_ANGLE: string := "rotation_angle"

  /** Bundle.getBoolean: false when the key is missing or holds another type. */
  function GetBoolean(bundle: Bundle, key: string): (r: bool)
    ensures r <==> key in bundle && bundle[key] == BoolValue(true)
  {
    if key in bundle && bundle[key].BoolValue? then bundle[key].b else false
  }

  /** Bundle.getFloat: 0 when the key is missing or holds another type. */
  function GetFloat(bundle: Bundle, key: string): (r: real)
    ensures key in bundle && bundle[key].FloatValue? ==> r == bundle[key].f
    ensures !(key in bundle && bundle[key].FloatValue?) ==> r == 0.0
  {
    if key in bundle && bundle[key].FloatValue? then bundle[key].f else 0.0
  }

  /** The three keys are distinct, so each put leaves the others alone. */
  lemma KeysDistinct()
    ensures KEY_ROTATION != KEY_PROGRESS
    ensures KEY_ROTATION != KEY_ROTATION_ANGLE
    ensures KEY_PROGRESS != KEY_ROTATION_ANGLE
  {
    assert KEY_ROTATION[1] != KEY_PROGRESS[1];
    assert |KEY_ROTATION| != |KEY_ROTATION_ANGLE|;
    assert |KEY_PROGRESS| != |KEY_ROTATION_ANGLE|;
  }

  class FloatingMusicButton {
    var coverDrawable: RotatingProgressDrawable?
    var percent: int
    var color: int
    var backgroundHint: Option<int>   // the ColorStateList given to config, if any
    var progress: real
    var isRotation: bool
    var backgroundTint: Option<int>   // last tint installed on the button; None: theme default

    ghost predicate Valid()
      reads this, coverDrawable
    {
      coverDrawable != null ==> coverDrawable.Valid()
    }

    ghost function Footprint(): set<object>
      reads this
    {
      if coverDrawable == null then {this} else {this, coverDrawable}
    }

    constructor ()
      ensures Valid()
      ensures coverDrawable == null && percent == 0 && color == 0 && backgroundHint == None
      ensures progress == 0.0 && !isRotation && backgroundTint == None
    {
      coverDrawable := null;
      percent, color := 0, 0;
      backgroundHint := None;
      progress := 0.0;
      isRotation := false;
      backgroundTint := None;
    }

    /** config(): with a drawable attached, push percent, colour, tint (when
        one is set), the stored progress and the rotation flag into it. */
    method Config()
      requires Valid()
      modifies Footprint()
      ensures Valid() && coverDrawable == old(coverDrawable)
      ensures percent == old(percent) && color == old(color) && backgroundHint == old(backgroundHint)
      ensures progress == old(progress) && isRotation == old(isRotation)
      ensures coverDrawable == null ==> backgroundTint == old(backgroundTint)
      ensures coverDrawable != null ==>
        && backgroundTint == (if backgroundHint.Some? then backgroundHint else old(backgroundTint))
        && coverDrawable.progressPercent == percent
        && coverDrawable.progressColor == color
        && coverDrawable.progress == SweepAfter(old(coverDrawable.progress), progress)
        && coverDrawable.pending == (if isRotation then 1 else 0)
        && coverDrawable.rotation == old(coverDrawable.rotation)
        && coverDrawable.bitmap == old(coverDrawable.bitmap)
        && coverDrawable.mWidth == old(coverDrawable.mWidth)
        && coverDrawable.strokeWidth == StrokeWidth(coverDrawable.mWidth, percent)
    {
      if coverDrawable != null {
        coverDrawable.SetProgressWidthPercent(percent);
        coverDrawable.SetProgressColor(color);
        if backgroundHint.Some? {
          backgroundTint := backgroundHint;
        }
        coverDrawable.SetProgress(progress);
        coverDrawable.Rotate(isRotation);
      }
    }

    /** config(percent, color, hint): store all three, then push them as
        config() does. */
    method ConfigWith(newPercent: int, newColor: int, hint: Option<int>)
      requires Valid()
      modifies Footprint()
      ensures Valid() && coverDrawable == old(coverDrawable)
      ensures percent == newPercent && color == newColor && backgroundHint == hint
      ensures progress == old(progress) && isRotation == old(isRotation)
      ensures coverDrawable == null ==> backgroundTint == old(backgroundTint)
      ensures coverDrawable != null ==>
        && backgroundTint == (if hint.Some? then hint else old(backgroundTint))
        && coverDrawable.progressPercent == newPercent
        && coverDrawable.progressColor == newColor
        && coverDrawable.progress == SweepAfter(old(coverDrawable.progress), progress)
        && coverDrawable.pending == (if isRotation then 1 else 0)
        && coverDrawable.rotation == old(coverDrawable.rotation)
        && coverDrawable.bitmap == old(coverDrawable.bitmap)
        && coverDrawable.mWidth == old(coverDrawable.mWidth)
        && coverDrawable.strokeWidth == StrokeWidth(coverDrawable.mWidth, newPercent)
    {
      percent := newPercent;
      color := newColor;
      backgroundHint := hint;
      Config();
    }

    /** The button records every value, even one the drawable will ignore,
        and forwards it only when a drawable is attached. */
    method SetProgress(value: real)
      requires Valid()
      modifies Footprint()
      ensures Valid() && coverDrawable == old(coverDrawable)
      ensures progress == value
      ensures percent == old(percent) && color == old(color) && backgroundHint == old(backgroundHint)
      ensures isRotation == old(isRotation) && backgroundTint == old(backgroundTint)
      ensures coverDrawable != null ==>
        && coverDrawable.progress == SweepAfter(old(coverDrawable.progress), value)
        && coverDrawable.rotation == old(coverDrawable.rotation)
        && coverDrawable.pending == old(coverDrawable.pending)
        && coverDrawable.progressPercent == old(coverDrawable.progressPercent)
        && coverDrawable.progressColor == old(coverDrawable.progressColor)
        && coverDrawable.bitmap == old(coverDrawable.bitmap)
        && coverDrawable.mWidth == old(coverDrawable.mWidth)
        && coverDrawable.strokeWidth == old(coverDrawable.strokeWidth)
    {
      progress := value;
      if coverDrawable != null {
        coverDrawable.SetProgress(value);
      }
    }

    /** setCoverDrawable: a fresh drawable replaces the old one and receives
        the button's configuration. The old drawable is left exactly as it
        was, queued ticks included. */
    method SetCoverDrawable(source: DrawableSource)
      requires Valid() && Renderable(source)
      modifies this
      ensures Valid() && coverDrawable != null && fresh(coverDrawable)
      ensures old(coverDrawable) != null ==> unchanged(old(coverDrawable))
      ensures percent == old(percent) && color == old(color) && backgroundHint == old(backgroundHint)
      ensures progress == old(progress) && isRotation == old(isRotation)
      ensures backgroundTint == (if backgroundHint.Some? then backgroundHint else old(backgroundTint))
      ensures source.ColorDrawable? ==> coverDrawable.IntrinsicWidth() == COLORDRAWABLE_DIMENSION
      ensures !source.ColorDrawable? ==>
        coverDrawable.IntrinsicWidth() == Min(source.intrinsicWidth, source.intrinsicHeight)
      ensures coverDrawable.progressPercent == percent && coverDrawable.progressColor == color
      ensures coverDrawable.progress == SweepAfter(0.0, progress)
      ensures coverDrawable.pending == (if isRotation then 1 else 0)
      ensures coverDrawable.rotation == 0.0
    {
      coverDrawable := new RotatingProgressDrawable.FromDrawable(source);
      Config();
    }

    /** setCover: the same for a bitmap, whose shorter side sizes the ring. */
    method SetCover(bitmap: Bitmap)
      requires Valid()
      modifies this
      ensures Valid() && coverDrawable != null && fresh(coverDrawable)
      ensures old(coverDrawable) != null ==> unchanged(old(coverDrawable))
      ensures percent == old(percent) && color == old(color) && backgroundHint == old(backgroundHint)
      ensures progress == old(progress) && isRotation == old(isRotation)
      ensures backgroundTint == (if backgroundHint.Some? then backgroundHint else old(backgroundTint))
      ensures coverDrawable.bitmap == bitmap
      ensures coverDrawable.IntrinsicWidth() == Min(bitmap.width, bitmap.height)
      ensures coverDrawable.strokeWidth == StrokeWidth(Min(bitmap.width, bitmap.height), percent)
      ensures coverDrawable.progressPercent == percent && coverDrawable.progressColor == color
      ensures coverDrawable.progress == SweepAfter(0.0, progress)
      ensures coverDrawable.pending == (if isRotation then 1 else 0)
      ensures coverDrawable.rotation == 0.0
    {
      coverDrawable := new RotatingProgressDrawable.FromBitmap(bitmap);
      Config();
    }

    /** rotate dereferences the drawable without a check. */
    method Rotate(rotate: bool)
      requires Valid() && coverDrawable != null
      modifies this, coverDrawable
      ensures Valid() && coverDrawable == old(coverDrawable)
      ensures isRotation == rotate
      ensures coverDrawable.pending == (if rotate then 1 else 0)
      ensures coverDrawable.rotation == old(coverDrawable.rotation)
      ensures coverDrawable.progress == old(coverDrawable.progress)
      ensures coverDrawable.progressPercent == old(coverDrawable.progressPercent)
      ensures coverDrawable.progressColor == old(coverDrawable.progressColor)
      ensures coverDrawable.bitmap == old(coverDrawable.bitmap) && coverDrawable.mWidth == old(coverDrawable.mWidth)
      ensures coverDrawable.strokeWidth == old(coverDrawable.strokeWidth)
      ensures percent == old(percent) && color == old(color) && progress == old(progress)
      ensures backgroundTint == old(backgroundTint) && backgroundHint == old(backgroundHint)
    {
      coverDrawable.Rotate(rotate);
      isRotation := rotate;
    }

    /** onSaveInstanceState: rotation flag and progress always, the angle
        only when a drawable is attached. */
    method SaveInstanceState() returns (bundle: Bundle)
      requires Valid()
      ensures bundle == SavedState(isRotation, progress,
        if coverDrawable == null then None else Some(coverDrawable.GetRotation()))
      ensures GetBoolean(bundle, KEY_ROTATION) == isRotation
      ensures GetFloat(bundle, KEY_PROGRESS) == progress
      ensures KEY_ROTATION_ANGLE in bundle <==> coverDrawable != null
    {
      KeysDistinct();
      bundle := map[];
      bundle := bundle[KEY_ROTATION := BoolValue(isRotation)];
      bundle := bundle[KEY_PROGRESS := FloatValue(progress)];
      if coverDrawable != null {
        bundle := bundle[KEY_ROTATION_ANGLE := FloatValue(coverDrawable.GetRotation())];
      }
    }

    /** onRestoreInstanceState: only the rotation flag and the progress come
        back; neither the angle nor anything in the drawable is touched. */
    method RestoreInstanceState(bundle: Bundle)
      requires Valid()
      modifies this
      ensures Valid() && coverDrawable == old(coverDrawable)
      ensures isRotation == GetBoolean(bundle, KEY_ROTATION)
      ensures progress == GetFloat(bundle, KEY_PROGRESS)
      ensures percent == old(percent) && color == old(color) && backgroundHint == old(backgroundHint)
      ensures backgroundTint == old(backgroundTint)
      ensures coverDrawable != null ==> unchanged(coverDrawable)
    {
      isRotation := GetBoolean(bundle, KEY_ROTATION);
      progress := GetFloat(bundle, KEY_PROGRESS);
    }
  }

  /** The bundle onSaveInstanceState builds. */
  function SavedState(rotation: bool, progress: real, angle: Option<real>): (b: Bundle)
    ensures KEY_ROTATION in b && KEY_PROGRESS in b
    ensures (KEY_ROTATION_ANGLE in b) == angle.Some?
    ensures angle.Some? ==> b[KEY_ROTATION_ANGLE] == FloatValue(angle.value)
  {
    KeysDistinct();
    var base := map[KEY_ROTATION := BoolValue(rotation), KEY_PROGRESS := FloatValue(progress)];
    if angle.Some? then base[KEY_ROTATION_ANGLE := FloatValue(angle.value)] else base
  }

  /** Restoring a saved bundle gives back the rotation flag and progress,
      whatever the angle entry holds. */
  lemma SaveRestoreRoundTrip(rotation: bool, progress: real, angle: Option<real>)
    ensures GetBoolean(SavedState(rotation, progress, angle), KEY_ROTATION) == rotation
    ensures GetFloat(SavedState(rotation, progress, angle), KEY_PROGRESS) == progress
  {
    KeysDistinct();
  }

  /** Save followed by restore on the same button keeps the two restored
      fields and leaves the drawable, angle included, as it was. */
  method SaveThenRestore(button: FloatingMusicButton)
    requires button.Valid()
    modifies button
    ensures button.Valid()
    ensures button.isRotation == old(button.isRotation) && button.progress == old(button.progress)
    ensures button.coverDrawable == old(button.coverDrawable)
    ensures button.coverDrawable != null ==> unchanged(button.coverDrawable)
  {
    var bundle := button.SaveInstanceState();
    button.RestoreInstanceState(bundle);
  }
}
