/**
 * The rotating progress drawable: a cover image cut to a circle, a stroke
 * arc around it showing progress, and a self-rescheduling tick that turns
 * the image one degree at a time.
 *
 * The handler's message queue is abstracted to the number of queued tick
 * messages; the 25 ms delay and the canvas drawing are not modelled.
 */
module ProgressRing {

  /** android.graphics.Color.RED, 0xFFFF0000, as a signed 32-bit int. */
  const COLOR_RED: int := -65536
  const COLORDRAWABLE_DIMENSION: nat := 2
  const DEFAULT_PROGRESS_PERCENT: int := 3

  /** A bitmap, reduced to its pixel size. */
  datatype Bitmap = Bitmap(width: nat, height: nat)

  /** The Drawable kinds the drawable-source constructor tells apart. A
      BitmapDrawable's own bitmap is fetched and then overwritten, so only
      its intrinsic size matters. */
  datatype DrawableSource =
    | ColorDrawable
    | BitmapDrawable(bitmap: Bitmap, intrinsicWidth: int, intrinsicHeight: int)
    | OtherDrawable(intrinsicWidth: int, intrinsicHeight: int)

  /** Bitmap.createBitmap refuses a non-positive size. */
  predicate Renderable(source: DrawableSource) {
    source.ColorDrawable? || (source.intrinsicWidth > 0 && source.intrinsicHeight > 0)
  }

  function Min(a: nat, b: nat): nat { if a <= b then a else b }

  /** Stroke width of the ring: percent of the diameter, computed as an
      int product divided by the float 100. */
  function StrokeWidth(diameter: nat, percent: int): real {
    (diameter * percent) as real / 100.0
  }

  /** The sweep stored after setProgress(value), given the sweep before. */
  function SweepAfter(current: real, value: real): (r: real)
    ensures value < 0.0 || value > 100.0 ==> r == current
    ensures 0.0 <= value <= 100.0 ==> 0.0 <= r <= 360.0 && r * 100.0 == value * 360.0
  {
    if value < 0.0 || value > 100.0 then current else value * 360.0 / 100.0
  }

  /** One rotation tick: one degree more, back to 0 once past 360. */
  function Tick(angle: real): (r: real)
    ensures 0.0 <= angle <= 360.0 ==> 0.0 <= r <= 360.0
    ensures r == 0.0 || r == angle + 1.0
  {
    if angle + 1.0 > 360.0 then 0.0 else angle + 1.0
  }

  /** The angle after k ticks. */
  function Ticks(angle: real, k: nat): real
    decreases k
  {
    if k == 0 then angle else Tick(Ticks(angle, k - 1))
  }

  /** Within turn q, the angle after p more ticks is p degrees. */
  lemma {:induction false} TicksWithinTurn(q: nat, p: nat)
    requires p <= 360
    ensures Ticks(0.0, 361 * q + p) == p as real
    decreases q, p
  {
    if p > 0 {
      TicksWithinTurn(q, p - 1);
    } else if q > 0 {
      TicksWithinTurn(q - 1, 360);
      assert 361 * q - 1 == 361 * (q - 1) + 360;
    }
  }

  /** From rest, the angle after k ticks is k mod 361: every whole degree
      from 0 to 360 inclusive is shown once per turn. */
  lemma TicksFromZero(k: nat)
    ensures Ticks(0.0, k) == (k % 361) as real
  {
    TicksWithinTurn(k / 361, k % 361);
  }

  lemma FullTurn()
    ensures Ticks(0.0, 360) == 360.0
    ensures Ticks(0.0, 361) == 0.0
  {
    TicksFromZero(360);
    TicksFromZero(361);
  }

  /** Ticks never take an angle in [0, 360] outside it. */
  lemma {:induction false} TicksStayInRange(angle: real, k: nat)
    requires 0.0 <= angle <= 360.0
    ensures 0.0 <= Ticks(angle, k) <= 360.0
    decreases k
  {
    if k > 0 {
      TicksStayInRange(angle, k - 1);
    }
  }

  class RotatingProgressDrawable {
    var bitmap: Bitmap
    var mWidth: nat
    var rotation: real       // mRotation, degrees
    var progress: real       // stored sweep, degrees
    var progressPercent: int
    var progressColor: int   // also the colour of the progress paint
    var strokeWidth: real    // stroke width of the progress paint
    var pending: nat         // tick messages queued in the rotate handler

    ghost predicate Valid()
      reads this
    {
      && mWidth == Min(bitmap.width, bitmap.height)
      && strokeWidth == StrokeWidth(mWidth, progressPercent)
      && 0.0 <= progress <= 360.0
      && pending <= 1
    }

    /** initDrawable followed by circleBitmap on the given bitmap. */
    constructor FromBitmap(b: Bitmap)
      ensures Valid()
      ensures bitmap == b && mWidth == Min(b.width, b.height)
      ensures progressPercent == DEFAULT_PROGRESS_PERCENT && progress == 0.0
      ensures progressColor == COLOR_RED && rotation == 0.0 && pending == 0
      ensures strokeWidth == StrokeWidth(mWidth, DEFAULT_PROGRESS_PERCENT)
    {
      progressPercent := DEFAULT_PROGRESS_PERCENT;
      progress := 0.0;
      progressColor := COLOR_RED;
      rotation := 0.0;
      pending := 0;
      bitmap := b;
      mWidth := Min(b.width, b.height);
      strokeWidth := StrokeWidth(Min(b.width, b.height), DEFAULT_PROGRESS_PERCENT);
    }

    /** initDrawable followed by circleBitmapFromDrawable: a colour fills a
        2x2 bitmap, any other drawable is rendered at its intrinsic size. */
    constructor FromDrawable(source: DrawableSource)
      requires Renderable(source)
      ensures Valid()
      ensures source.ColorDrawable? ==> bitmap == Bitmap(COLORDRAWABLE_DIMENSION, COLORDRAWABLE_DIMENSION)
      ensures !source.ColorDrawable? ==>
        bitmap.width == source.intrinsicWidth && bitmap.height == source.intrinsicHeight
      ensures progressPercent == DEFAULT_PROGRESS_PERCENT && progress == 0.0
      ensures progressColor == COLOR_RED && rotation == 0.0 && pending == 0
    {
      progressPercent := DEFAULT_PROGRESS_PERCENT;
      progress := 0.0;
      progressColor := COLOR_RED;
      rotation := 0.0;
      pending := 0;
      var b: Bitmap;
      if source.ColorDrawable? {
        b := Bitmap(COLORDRAWABLE_DIMENSION, COLORDRAWABLE_DIMENSION);
      } else {
        b := Bitmap(source.intrinsicWidth, source.intrinsicHeight);
      }
      bitmap := b;
      mWidth := Min(b.width, b.height);
      strokeWidth := StrokeWidth(Min(b.width, b.height), DEFAULT_PROGRESS_PERCENT);
    }

    /** The drawable is square: both intrinsic sides are the shorter side
        of the bitmap. */
    function IntrinsicWidth(): (w: int)
      reads this
      requires Valid()
      ensures w == Min(bitmap.width, bitmap.height)
    {
      mWidth
    }

    function IntrinsicHeight(): (h: int)
      reads this
      requires Valid()
      ensures h == Min(bitmap.width, bitmap.height)
    {
      mWidth
    }

    function GetRotation(): real
      reads this
    {
      rotation
    }

    /** setRotation: any angle is stored as given, unchecked; only the
        next tick brings an angle above 360 back to 0. */
    method SetRotation(angle: real)
      requires Valid()
      modifies this`rotation
      ensures Valid()
      ensures rotation == angle
    {
      rotation := angle;
    }

    /** Out-of-range values are ignored; otherwise percent becomes degrees. */
    method SetProgress(value: real)
      requires Valid()
      modifies this
      ensures Valid()
      ensures progress == SweepAfter(old(progress), value)
      ensures value < 0.0 || value > 100.0 ==> progress == old(progress)
      ensures 0.0 <= value <= 100.0 ==> progress * 100.0 == value * 360.0
      ensures bitmap == old(bitmap) && mWidth == old(mWidth) && rotation == old(rotation)
      ensures progressPercent == old(progressPercent) && progressColor == old(progressColor)
      ensures strokeWidth == old(strokeWidth) && pending == old(pending)
    {
      if value < 0.0 || value > 100.0 {
        return;
      }
      progress := value * 360.0 / 100.0;
    }

    /** The percent is always stored; the stroke is recomputed only for a
        non-empty ring (an empty ring's stroke is 0 whatever the percent). */
    method SetProgressWidthPercent(percent: int)
      requires Valid()
      modifies this
      ensures Valid()
      ensures progressPercent == percent
      ensures mWidth > 0 ==> strokeWidth == StrokeWidth(mWidth, percent)
      ensures mWidth == 0 ==> strokeWidth == old(strokeWidth)
      ensures bitmap == old(bitmap) && mWidth == old(mWidth) && rotation == old(rotation)
      ensures progress == old(progress) && progressColor == old(progressColor)
      ensures pending == old(pending)
    {
      progressPercent := percent;
      if mWidth > 0 {
        strokeWidth := StrokeWidth(mWidth, percent);
      }
    }

    method SetProgressColor(color: int)
      requires Valid()
      modifies this
      ensures Valid()
      ensures progressColor == color
      ensures bitmap == old(bitmap) && mWidth == old(mWidth) && rotation == old(rotation)
      ensures progress == old(progress) && progressPercent == old(progressPercent)
      ensures strokeWidth == old(strokeWidth) && pending == old(pending)
    {
      progressColor := color;
    }

    /** removeMessages(0), then one sendEmptyMessage(0) when rotating: the
        queue never holds more than one tick, and the angle is untouched. */
    method Rotate(rotate: bool)
      requires Valid()
      modifies this
      ensures Valid()
      ensures pending == if rotate then 1 else 0
      ensures bitmap == old(bitmap) && mWidth == old(mWidth) && rotation == old(rotation)
      ensures progress == old(progress) && progressPercent == old(progressPercent)
      ensures progressColor == old(progressColor) && strokeWidth == old(strokeWidth)
    {
      pending := 0;
      if rotate {
        pending := pending + 1;
      }
    }

    /** RotateHandler.handleMessage for a message already taken off the
        queue: a tick advances the angle and queues exactly one more tick. */
    method HandleMessage(what: int)
      requires Valid() && pending == 0
      modifies this
      ensures Valid()
      ensures what == 0 ==> rotation == Tick(old(rotation)) && pending == 1
      ensures what != 0 ==> rotation == old(rotation) && pending == 0
      ensures bitmap == old(bitmap) && mWidth == old(mWidth)
      ensures progress == old(progress) && progressPercent == old(progressPercent)
      ensures progressColor == old(progressColor) && strokeWidth == old(strokeWidth)
    {
      if what == 0 {
        rotation := rotation + 1.0;
        if rotation > 360.0 {
          rotation := 0.0;
        }
        pending := pending + 1;
      }
    }

    /** The looper delivering the next queued tick, if there is one. With
        nothing queued (after Rotate(false)) the angle stays frozen. */
    method Dispatch()
      requires Valid()
      modifies this
      ensures Valid()
      ensures old(pending) == 0 ==> rotation == old(rotation)
      ensures old(pending) > 0 ==> rotation == Tick(old(rotation))
      ensures pending == old(pending)
      ensures bitmap == old(bitmap) && mWidth == old(mWidth)
      ensures progress == old(progress) && progressPercent == old(progressPercent)
      ensures progressColor == old(progressColor) && strokeWidth == old(strokeWidth)
    {
      if pending > 0 {
        pending := pending - 1;
        HandleMessage(0);
      }
    }
  }

  /** A running drawable, delivered k ticks, has advanced by k ticks; a
      stopped one has not moved at all. */
  method RunTicks(d: RotatingProgressDrawable, k: nat)
    requires d.Valid()
    modifies d
    ensures d.Valid() && d.pending == old(d.pending)
    ensures d.rotation == if old(d.pending) == 0 then old(d.rotation) else Ticks(old(d.rotation), k)
  {
    var i := 0;
    while i < k
      invariant 0 <= i <= k
      invariant d.Valid() && d.pending == old(d.pending)
      invariant d.rotation == if old(d.pending) == 0 then old(d.rotation) else Ticks(old(d.rotation), i)
    {
      d.Dispatch();
      i := i + 1;
    }
  }
}
