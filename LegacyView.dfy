/** The original, self-drawing `NumberView` of the demo application: a view that walks
    through a sequence of digits, morphing from the digit it shows (`mCurrent`) to the
    next entry of the sequence (`mSequence[mIndex]`) over `mFrameCount + 1` drawn frames.
    Only its integer state is modelled: the frame counter, the index into the sequence,
    the deferred replacement sequence and the alignment offsets. The Bezier drawing,
    scaling, timing and message scheduling are not. */
module LegacyView {
  import opened Java

  const ALIGN_START: int32 := 0
  const ALIGN_CENTER: int32 := 1
  const ALIGN_END: int32 := 2

  /** `mFrameCount`, fixed by the constructor */
  const FRAME_COUNT: int32 := 24

  /** The point tables hold one glyph per decimal digit */
  const GLYPH_COUNT: int := 10

  /** The integer fields of the view */
  datatype Frames = Frames(
    index: int32,               // mIndex
    current: int32,             // mCurrent
    frame: int32,               // mFrame
    sequence: IntArray,         // mSequence
    pending: Option<IntArray>,  // mTempSequence, None for null
    autoAdvance: bool)          // mAutoAdvance

  /** What a drawn frame leaves behind: the new fields, and either whether the next
      frame is scheduled or the exception the drawing threw */
  datatype Drawn = Drawn(state: Frames, outcome: Result<bool>)

  /** The fields after construction: the digits 0 to 9 in order, at index 0, frame 0 */
  const Initial: Frames := Frames(0, 0, 0, [0, 1, 2, 3, 4, 5, 6, 7, 8, 9], None, true)

  /** `checkSequenceBounds()`: an index at or past the end of the sequence goes back to 0;
      any other index, negative ones included, is kept */
  function Bounded(s: Frames): Frames
  {
    if s.index >= |s.sequence| then s.(index := 0) else s
  }

  /** `setSequence(sequence)`: `null` is refused; on the last frame of a transition
      (`mFrame == mFrameCount`) the copy replaces the sequence at once and the index is
      bounded against it, on every other frame the copy is only stashed for later */
  function WithSequence(s: Frames, sequence: Option<IntArray>): Result<Frames>
  {
    if sequence.None? then Throws(IllegalArgument)
    else if s.frame != FRAME_COUNT then Ok(s.(pending := sequence))
    else Ok(Bounded(s.(sequence := sequence.value)))
  }

  /** `advance()`: at the start or the end of a transition (`mFrame % mFrameCount == 0`)
      the frame counter restarts and the index stays; otherwise the index moves on by one
      and wraps */
  function Advanced(s: Frames): Frames
  {
    if Rem(s.frame, FRAME_COUNT) == 0 then s.(frame := 0)
    else Bounded(s.(index := Wrap(s.index + 1)))
  }

  /** `advance(nextIndex)`: `setCurrentNumberIndex(nextIndex)`, then `advance()` */
  function AdvancedTo(s: Frames, nextIndex: int32): Frames
  {
    Advanced(s.(index := nextIndex))
  }

  /** `setAutoAdvance(autoAdvance)`: switching it off also resets the frame counter */
  function WithAutoAdvance(s: Frames, autoAdvance: bool): Frames
  {
    if autoAdvance then s.(autoAdvance := autoAdvance) else s.(autoAdvance := autoAdvance, frame := 0)
  }

  /** The end of a transition: frame 0, the digit that was being drawn towards becomes the
      current one, the index moves on, a stashed sequence is swapped in, and the index is
      bounded against the sequence now in use */
  function Completed(s: Frames, shown: int32): (r: Frames)
    ensures r.frame == 0 && r.current == shown && r.pending.None? && r.autoAdvance == s.autoAdvance
    ensures r.sequence == if s.pending.Some? then s.pending.value else s.sequence
    ensures 0 <= s.index < INT_MAX && |r.sequence| > 0 ==> 0 <= r.index < |r.sequence|
  {
    var moved := s.(frame := 0, current := shown, index := Wrap(s.index + 1));
    var swapped := if moved.pending.Some? then moved.(sequence := moved.pending.value, pending := None) else moved;
    Bounded(swapped)
  }

  /** The state changes of one `onDraw`: bound the index, read the entry it points at
      (`ArrayIndexOutOfBoundsException` for a negative index or an empty sequence), look
      up the point tables of the current and of that entry (the same exception for
      anything but a digit), then count the frame, completing the transition once the
      count passes `mFrameCount`. The next frame is scheduled unless auto-advance is off
      and a transition has just completed. */
  function Tick(s: Frames): (d: Drawn)
    ensures d.outcome.Throws? ==> d.outcome.error == ArrayIndexOutOfBounds && d.state == Bounded(s)
    ensures d.outcome.Ok? <==>
      (0 <= Bounded(s).index < |s.sequence| && 0 <= s.current < GLYPH_COUNT && 0 <= s.sequence[Bounded(s).index] < GLYPH_COUNT)
    ensures d.outcome == Ok(false) ==> d.state.frame == 0 && !d.state.autoAdvance
  {
    var b := Bounded(s);
    if !(0 <= b.index < |b.sequence|) then Drawn(b, Throws(ArrayIndexOutOfBounds))
    else
      var shown := b.sequence[b.index];
      if !(0 <= b.current < GLYPH_COUNT) || !(0 <= shown < GLYPH_COUNT) then Drawn(b, Throws(ArrayIndexOutOfBounds))
      else
        var counted := Wrap(b.frame + 1);
        var t := if counted > FRAME_COUNT then Completed(b, shown) else b.(frame := counted);
        Drawn(t, Ok(t.autoAdvance || t.frame != 0))
  }

  /** `resolveTranslatedValue(alignStyle, parentDimen, drawDimen)` before the widening to
      `float`: centred (rounded toward zero, then one pixel toward the start), flush with
      the end, or 1 for the start and any unknown style */
  function ResolveTranslatedValue(alignStyle: int32, parentDimen: int32, drawDimen: int32): (r: int32)
    ensures alignStyle == ALIGN_CENTER ==> -0x4000_0001 <= r <= 0x3FFF_FFFE
    ensures alignStyle != ALIGN_CENTER && alignStyle != ALIGN_END ==> r == 1
  {
    if alignStyle == ALIGN_CENTER then Div(Wrap(parentDimen - drawDimen), 2) - 1
    else if alignStyle == ALIGN_END then Wrap(parentDimen - drawDimen)
    else 1
  }

  /** The frame counter lies in 0..`mFrameCount` */
  predicate FrameInRange(s: Frames)
  {
    0 <= s.frame <= FRAME_COUNT
  }

  /** Every entry of `ds` names a glyph */
  predicate AllDigits(ds: seq<int32>)
  {
    forall k :: 0 <= k < |ds| ==> 0 <= ds[k] < GLYPH_COUNT
  }

  /** States that can be drawn for ever: the frame in range, a non-negative index short of
      `Integer.MAX_VALUE`, a current digit, and a non-empty sequence of digits, now and
      in any stashed replacement */
  predicate Drawable(s: Frames)
  {
    && FrameInRange(s)
    && 0 <= s.index < INT_MAX
    && 0 <= s.current < GLYPH_COUNT
    && |s.sequence| > 0 && AllDigits(s.sequence)
    && (s.pending.Some? ==> |s.pending.value| > 0 && AllDigits(s.pending.value))
  }

  /** The fields after `n` drawn frames */
  function Run(s: Frames, n: nat): Frames
    decreases n
  {
    if n == 0 then s else Run(Tick(s).state, n - 1)
  }

  /** Bounding sends exactly the indices at or past the end back to 0, and an index it
      keeps is below the length */
  lemma BoundedIndex(s: Frames)
    ensures Bounded(s).index == if s.index >= |s.sequence| then 0 else s.index
    ensures Bounded(s).index < |s.sequence| || |s.sequence| == 0
    ensures Bounded(s) == s.(index := Bounded(s).index)
  {
  }

  /** A fresh view is drawable */
  lemma InitialDrawable()
    ensures Drawable(Initial)
  {
  }

  /** Every operation keeps the frame counter within 0..`mFrameCount` */
  lemma FrameStaysInRange(s: Frames, sequence: Option<IntArray>, nextIndex: int32, autoAdvance: bool)
    requires FrameInRange(s)
    ensures FrameInRange(Tick(s).state)
    ensures FrameInRange(Advanced(s)) && FrameInRange(AdvancedTo(s, nextIndex))
    ensures FrameInRange(WithAutoAdvance(s, autoAdvance))
    ensures WithSequence(s, sequence).Ok? ==> FrameInRange(WithSequence(s, sequence).value)
    ensures FrameInRange(s.(index := nextIndex))
  {
    assert Bounded(s).frame == s.frame;
  }

  /** A frame before the last one only counts: nothing but the frame counter and the
      bounding of the index changes */
  lemma TickCounts(s: Frames)
    requires 0 <= s.frame < FRAME_COUNT && Tick(s).outcome.Ok?
    ensures Tick(s).state == Bounded(s).(frame := s.frame + 1)
    ensures Tick(s).outcome == Ok(true)
  {
  }

  /** The frame after the last one completes the transition: the entry the index pointed
      at becomes the current digit, a stashed sequence replaces the old one and is
      cleared, and the index moves on one place within the sequence now in use */
  lemma TickCompletes(s: Frames)
    requires s.frame == FRAME_COUNT && Tick(s).outcome.Ok?
    ensures var b := Bounded(s); var t := Tick(s).state;
      && t.frame == 0
      && t.current == b.sequence[b.index]
      && t.sequence == (if s.pending.Some? then s.pending.value else s.sequence)
      && t.pending == None
      && t.index == (if b.index + 1 >= |t.sequence| then 0 else b.index + 1)
      && t.autoAdvance == s.autoAdvance
      && Tick(s).outcome == Ok(s.autoAdvance)
  {
  }

  /** A drawable view never throws while drawing, stays drawable, and after every frame
      its index points into its sequence */
  lemma DrawableTicksSafely(s: Frames)
    requires Drawable(s)
    ensures Tick(s).outcome.Ok?
    ensures Drawable(Tick(s).state)
    ensures 0 <= Tick(s).state.index < |Tick(s).state.sequence|
  {
  }

  /** A negative index (which `setCurrentNumberIndex` and `advance(int)` accept unchecked)
      makes the next frame throw, whatever else the state holds */
  lemma NegativeIndexThrows(s: Frames)
    requires s.index < 0
    ensures Tick(s) == Drawn(s, Throws(ArrayIndexOutOfBounds))
  {
  }

  /** Starting a transition, `mFrameCount` frames go by with the current digit, the
      sequence and any stashed sequence untouched, and the frame after them completes it */
  lemma {:induction false} TransitionLength(s: Frames, n: nat)
    requires Drawable(s) && s.frame + n <= FRAME_COUNT && s.index < |s.sequence|
    ensures var r := Run(s, n);
      && r == s.(frame := s.frame + n)
      && (s.frame + n == FRAME_COUNT ==> Tick(r).state.frame == 0 && Tick(r).state.current == s.sequence[s.index])
    decreases n
  {
    if n > 0 {
      DrawableTicksSafely(s);
      TickCounts(s);
      TransitionLength(Tick(s).state, n - 1);
    } else if s.frame == FRAME_COUNT {
      DrawableTicksSafely(s);
      TickCompletes(s);
    }
  }

  /** Off the last frame a new sequence is only stashed: the sequence in use and the
      index are untouched, and the stash is replaced */
  lemma SetSequenceDefers(s: Frames, sequence: IntArray)
    requires s.frame != FRAME_COUNT
    ensures WithSequence(s, Some(sequence)) == Ok(s.(pending := Some(sequence)))
    ensures WithSequence(s, None) == Throws(IllegalArgument)
  {
  }

  /** On the last frame a new sequence is used at once, but a sequence stashed earlier
      still wins: the frame that completes the transition swaps the stale stash in over it */
  lemma StaleStashWins(s: Frames, sequence: IntArray, stashed: IntArray)
    requires s.frame == FRAME_COUNT && s.pending == Some(stashed)
    requires WithSequence(s, Some(sequence)).Ok?
    requires Tick(WithSequence(s, Some(sequence)).value).outcome.Ok?
    ensures WithSequence(s, Some(sequence)).value.sequence == sequence
    ensures Tick(WithSequence(s, Some(sequence)).value).state.sequence == stashed
  {
  }

  /** A number below the divisor is its own remainder */
  lemma SmallRemainder(a: int, n: int)
    requires 0 <= a < n
    ensures a % n == a
  {
  }

  /** Mid-transition, `advance()` moves the index to the next entry, wrapping to the start
      after the last one; at the start or the end of a transition it restarts the frame
      count and leaves the index alone */
  lemma AdvanceWraps(s: Frames)
    requires 0 <= s.index < |s.sequence|
    ensures Rem(s.frame, FRAME_COUNT) != 0 ==> Advanced(s) == s.(index := (s.index + 1) % |s.sequence|)
    ensures Rem(s.frame, FRAME_COUNT) == 0 ==> Advanced(s) == s.(frame := 0)
  {
    if Rem(s.frame, FRAME_COUNT) != 0 {
      var moved := s.(index := Wrap(s.index + 1));
      assert moved.index == s.index + 1;
      if s.index + 1 == |s.sequence| {
        assert Bounded(moved) == s.(index := 0);
      } else {
        SmallRemainder(s.index + 1, |s.sequence|);
        assert Bounded(moved) == moved;
      }
    }
  }

  /** `advance(nextIndex)` at the start of a transition stores the index unchecked */
  lemma AdvanceToUnchecked(s: Frames, nextIndex: int32)
    requires s.frame == 0
    ensures AdvancedTo(s, nextIndex) == s.(index := nextIndex)
  {
  }

  /** Switching auto-advance off restarts the transition; switching it on changes only
      the flag */
  lemma SetAutoAdvanceResets(s: Frames, autoAdvance: bool)
    ensures WithAutoAdvance(s, autoAdvance).autoAdvance == autoAdvance
    ensures WithAutoAdvance(s, autoAdvance).frame == if autoAdvance then s.frame else 0
    ensures WithAutoAdvance(s, autoAdvance).(frame := s.frame, autoAdvance := s.autoAdvance) == s
  {
  }

  /** The operations a user calls keep a view drawable, given an index and sequences
      that are themselves fit to draw */
  lemma OperationsKeepDrawable(s: Frames, sequence: IntArray, nextIndex: int32, autoAdvance: bool)
    requires Drawable(s)
    ensures Drawable(Advanced(s))
    ensures 0 <= nextIndex < INT_MAX ==> Drawable(AdvancedTo(s, nextIndex))
    ensures Drawable(WithAutoAdvance(s, autoAdvance))
    ensures |sequence| > 0 && AllDigits(sequence) ==> Drawable(WithSequence(s, Some(sequence)).value)
  {
    assert Bounded(s).frame == s.frame;
  }

  /** Centring splits the spare room in two, rounding toward zero, and moves one pixel
      toward the start; the end alignment leaves the drawing flush with the parent's end;
      the start alignment and every unknown style give 1 */
  lemma TranslatedValueAligns(alignStyle: int32, parentDimen: int32, drawDimen: int32)
    requires INT_MIN <= parentDimen - drawDimen <= INT_MAX
    ensures var r := ResolveTranslatedValue(alignStyle, parentDimen, drawDimen);
      var room := parentDimen - drawDimen;
      && (alignStyle == ALIGN_CENTER ==>
            && -1 <= room - 2 * (r + 1) <= 1
            && (room >= 0 ==> room - 2 * (r + 1) >= 0)
            && (room <= 0 ==> room - 2 * (r + 1) <= 0))
      && (alignStyle == ALIGN_END ==> r + drawDimen == parentDimen)
      && (alignStyle != ALIGN_CENTER && alignStyle != ALIGN_END ==> r == 1)
  {
    DivRem(parentDimen - drawDimen, 2);
  }

  class NumberView {
    var index: int32
    var current: int32
    var frame: int32
    var sequence: IntArray
    var pending: Option<IntArray>
    var autoAdvance: bool

    function State(): Frames
      reads this
    {
      Frames(index, current, frame, sequence, pending, autoAdvance)
    }

    /** The timing set-up of the constructor */
    constructor ()
      ensures State() == Initial
    {
      index := 0;
      current := 0;
      frame := 0;
      autoAdvance := true;
      pending := None;
      sequence := [0, 1, 2, 3, 4, 5, 6, 7, 8, 9];
    }

    /** `setSequence(sequence)`; the array copy is a sequence value here */
    method SetSequence(s: Option<IntArray>) returns (r: Result<()>)
      modifies this
      ensures r.Ok? <==> WithSequence(old(State()), s).Ok?
      ensures r.Ok? ==> State() == WithSequence(old(State()), s).value
      ensures r.Throws? ==> r.error == IllegalArgument && State() == old(State())
    {
      if s.None? {
        return Throws(IllegalArgument);
      }
      if frame != FRAME_COUNT {
        pending := s;
      } else {
        sequence := s.value;
        CheckSequenceBounds();
      }
      return Ok(());
    }

    /** `getSequence()` */
    method GetSequence() returns (s: IntArray)
      ensures s == sequence
    {
      s := sequence;
    }

    method SetAutoAdvance(b: bool)
      modifies this
      ensures State() == WithAutoAdvance(old(State()), b)
    {
      autoAdvance := b;
      if !autoAdvance {
        frame := 0;
      }
    }

    method IsAutoAdvance() returns (b: bool)
      ensures b == autoAdvance
    {
      b := autoAdvance;
    }

    /** `getCurrentNumber()` reports `mCurrent`, the digit the transition starts from */
    method GetCurrentNumber() returns (n: int32)
      ensures n == current
    {
      n := current;
    }

    /** `setCurrentNumberIndex(index)`: unchecked */
    method SetCurrentNumberIndex(i: int32)
      modifies this
      ensures State() == old(State()).(index := i)
    {
      index := i;
    }

    /** `advance(nextIndex)` */
    method AdvanceTo(nextIndex: int32)
      modifies this
      ensures State() == AdvancedTo(old(State()), nextIndex)
    {
      SetCurrentNumberIndex(nextIndex);
      Advance();
    }

    /** `advance()`; the redraw it requests is not modelled */
    method Advance()
      modifies this
      ensures State() == Advanced(old(State()))
    {
      if Rem(frame, FRAME_COUNT) == 0 {
        frame := 0;
      } else {
        index := Wrap(index + 1);
        CheckSequenceBounds();
      }
    }

    method CheckSequenceBounds()
      modifies this
      ensures State() == Bounded(old(State()))
    {
      if index >= |sequence| {
        index := 0;
      }
    }

    /** The field updates of `onDraw`; `r` says whether the next frame is scheduled, or
        which exception the drawing threw */
    method OnDraw() returns (r: Result<bool>)
      modifies this
      ensures State() == Tick(old(State())).state
      ensures r == Tick(old(State())).outcome
    {
      CheckSequenceBounds();
      if !(0 <= index < |sequence|) {
        return Throws(ArrayIndexOutOfBounds);
      }
      var nextNumberShown := sequence[index];
      if !(0 <= current < GLYPH_COUNT) || !(0 <= nextNumberShown < GLYPH_COUNT) {
        return Throws(ArrayIndexOutOfBounds);
      }
      frame := Wrap(frame + 1);
      if frame > FRAME_COUNT {
        frame := 0;
        current := nextNumberShown;
        index := Wrap(index + 1);
        if pending.Some? {
          sequence := pending.value;
          pending := None;
        }
        CheckSequenceBounds();
      }
      return Ok(autoAdvance || frame != 0);
    }
  }
}
