/** The library's `NumberView`: one digit position that animates from the number it
    shows (`mCurrent`) to the number it is heading for (`mNext`). The animator is
    reduced to whether it is running; its timing, the interpolated drawing and the
    scale are not modelled. */
module DigitView {
  import opened Java
  import Glyphs
  import StandardDigits

  /** The number fields of a view and whether its animator is running */
  datatype ViewState = ViewState(next: int32, current: int32, animating: bool)

  /** What `onSaveInstanceState` writes into its `SavedState` */
  datatype SavedState = SavedState(next: int32, current: int32)

  /** The state of a view straight after construction: both numbers hidden, and the
      animator that `init()` starts running */
  const Hidden: ViewState := ViewState(StandardDigits.HIDE_NUMBER, StandardDigits.HIDE_NUMBER, true)

  /** `checkSequenceBounds` applied to `n`: the hidden number is kept, anything else
      becomes `(n + 10) % 10` in Java arithmetic */
  function Normalized(n: int32): (r: int32)
    ensures -9 <= r <= 9
    ensures r == n <==> StandardDigits.IsGlyphNumber(n)
  {
    if n == StandardDigits.HIDE_NUMBER then n else Rem(Wrap(n + 10), 10)
  }

  /** For every input from -10 up (short of overflow) other than the hidden number,
      normalising yields a single digit: the input's residue modulo 10 */
  lemma NormalizedIsDigit(n: int32)
    requires n != StandardDigits.HIDE_NUMBER && -10 <= n <= INT_MAX - 10
    ensures 0 <= Normalized(n) <= 9
    ensures Normalized(n) == n % 10
  {
  }

  /** Below -10 normalising does not reach a digit: the result is the negative
      truncated remainder, so -11 becomes the hidden number and -12 becomes -2 */
  lemma NormalizedBelowRange(n: int32)
    requires n < -10
    ensures -9 <= Normalized(n) <= 0
    ensures Normalized(n) == -((-(n + 10)) % 10)
  {
  }

  /** The successor of a shown or hidden number, as `advance()` computes it, wraps
      9 to 0 and turns the hidden number into 0 */
  lemma SuccessorWraps(n: int32)
    requires StandardDigits.IsGlyphNumber(n)
    ensures Normalized(Wrap(n + 1)) == (n + 1) % 10
  {
  }

  /** `doAdvance(next, immediate)`: normalise the new target, commit it at once when
      `immediate`, and (re)start the animator */
  function Advanced(s: ViewState, target: int32, immediate: bool): (r: ViewState)
    ensures r.animating && -9 <= r.next <= 9
    ensures StandardDigits.IsGlyphNumber(target) ==> r.next == target
    ensures immediate ==> r.current == r.next
    ensures !immediate ==> r.current == s.current
  {
    var n := Normalized(target);
    ViewState(n, if immediate then n else s.current, true)
  }

  /** The animator's end listener: the target becomes the shown number */
  function Ended(s: ViewState): ViewState
  {
    ViewState(s.next, s.next, false)
  }

  /** `onSaveInstanceState`: a view saved mid-animation is saved as if it had finished */
  function Saved(s: ViewState): SavedState
  {
    SavedState(s.next, if s.animating then s.next else s.current)
  }

  /** `onRestoreInstanceState`: both numbers are written back; the animator is untouched */
  function Restored(s: ViewState, saved: SavedState): ViewState
  {
    ViewState(saved.next, saved.current, s.animating)
  }

  /** An immediate advance is an animated advance that has already ended: once the
      animation ends, both kinds leave the view in the same place */
  lemma AdvanceSettles(s: ViewState, target: int32)
    ensures Ended(Advanced(s, target, false)) == Ended(Advanced(s, target, true))
    ensures Advanced(s, target, true).current == Advanced(s, target, true).next
    ensures Advanced(s, target, false).current == s.current
  {
  }

  /** Saving then restoring shows the number the animation was heading for:
      a view saved mid-animation comes back with its animation finished */
  lemma SaveRestoreFinishesAnimation(s: ViewState, into: ViewState)
    ensures Restored(into, Saved(s)).next == s.next
    ensures s.animating ==> Restored(into, Saved(s)).current == Ended(s).current
    ensures !s.animating ==> Restored(into, Saved(s)).current == s.current
  {
  }

  class NumberView {
    /** `mNext`: the number being animated to, which `getCurrentNumber()` reports */
    var next: int32
    /** `mCurrent`: the number the animation starts from */
    var current: int32
    /** whether `mAnimator` is running */
    var animating: bool
    /** `mDigitCache` */
    var cache: map<int32, Glyphs.Digit>

    /** Each cached glyph is of the class drawn for its key */
    ghost predicate Valid()
      reads this
    {
      forall n :: n in cache ==> StandardDigits.ShapeFor(n) == Some(cache[n].shape)
    }

    function State(): ViewState
      reads this
    {
      ViewState(next, current, animating)
    }

    constructor ()
      ensures Valid()
      ensures State() == Hidden && cache == map[]
    {
      next := StandardDigits.HIDE_NUMBER;
      current := StandardDigits.HIDE_NUMBER;
      animating := true;
      cache := map[];
    }

    /** `getCurrentNumber()` reports the target `mNext`, not `mCurrent` */
    method GetCurrentNumber() returns (n: int32)
      ensures n == next
    {
      n := next;
    }

    method Hide()
      modifies this
      ensures cache == old(cache)
      ensures State() == Advanced(old(State()), StandardDigits.HIDE_NUMBER, false)
    {
      DoAdvance(StandardDigits.HIDE_NUMBER, false);
    }

    method HideImmediate()
      modifies this
      ensures cache == old(cache)
      ensures State() == Advanced(old(State()), StandardDigits.HIDE_NUMBER, true)
    {
      DoAdvance(StandardDigits.HIDE_NUMBER, true);
    }

    /** `advance()`: animate to the successor of the target */
    method Advance()
      modifies this
      ensures cache == old(cache)
      ensures State() == Advanced(old(State()), Wrap(old(next) + 1), false)
    {
      DoAdvance(Wrap(next + 1), false);
    }

    /** `advance(next)` */
    method AdvanceTo(target: int32)
      modifies this
      ensures cache == old(cache)
      ensures State() == Advanced(old(State()), target, false)
    {
      DoAdvance(target, false);
    }

    /** `advanceImmediate()` */
    method AdvanceImmediate()
      modifies this
      ensures cache == old(cache)
      ensures State() == Advanced(old(State()), Wrap(old(next) + 1), true)
    {
      DoAdvance(Wrap(next + 1), true);
    }

    /** `advanceImmediate(next)` */
    method AdvanceImmediateTo(target: int32)
      modifies this
      ensures cache == old(cache)
      ensures State() == Advanced(old(State()), target, true)
    {
      DoAdvance(target, true);
    }

    method DoAdvance(target: int32, immediate: bool)
      modifies this
      ensures cache == old(cache)
      ensures State() == Advanced(old(State()), target, immediate)
    {
      next := target;
      CheckSequenceBounds();
      if immediate {
        current := next;
      }
      // mAnimator.start()
      animating := true;
    }

    /** `checkSequenceBounds()`: normalise `mNext` in place */
    method CheckSequenceBounds()
      modifies this
      ensures next == Normalized(old(next))
      ensures current == old(current) && animating == old(animating) && cache == old(cache)
    {
      if next != StandardDigits.HIDE_NUMBER {
        next := Rem(Wrap(next + 10), 10);
      }
    }

    /** `getDigit(number)`: the cached glyph for `number` when there is one; otherwise a
        new glyph from `StandardDigits.forNumber`, which is cached before it is returned.
        For a number no glyph exists for it throws and caches nothing. */
    method GetDigit(number: int32) returns (r: Result<Glyphs.Digit>)
      requires Valid()
      modifies this
      ensures Valid() && State() == old(State())
      ensures number in old(cache) ==> r == Ok(old(cache)[number]) && cache == old(cache)
      ensures number !in old(cache) && StandardDigits.IsGlyphNumber(number) ==>
        r.Ok? && fresh(r.value) && cache == old(cache)[number := r.value]
      ensures !StandardDigits.IsGlyphNumber(number) ==> r == Throws(IllegalArgument) && cache == old(cache)
      ensures r.Ok? ==> StandardDigits.ShapeFor(number) == Some(r.value.shape)
    {
      if number in cache {
        return Ok(cache[number]);
      }
      r := StandardDigits.ForNumber(number);
      if r.Ok? {
        cache := cache[number := r.value];
      }
    }

    /** The state changes `onDraw` makes before it draws: it normalises `mNext` and
        looks up (and so caches) the glyphs of `mCurrent` and `mNext`, throwing when
        either has no glyph. The drawing itself is not modelled. */
    method OnDraw() returns (r: Result<()>)
      requires Valid()
      modifies this
      ensures Valid()
      ensures State() == old(State()).(next := Normalized(old(next)))
      ensures r.Ok? <==> StandardDigits.IsGlyphNumber(current) && StandardDigits.IsGlyphNumber(next)
      ensures r.Throws? ==> r.error == IllegalArgument
      ensures !StandardDigits.IsGlyphNumber(current) ==> cache == old(cache)
      ensures StandardDigits.IsGlyphNumber(current) ==>
        current in cache && (current !in old(cache) ==> fresh(cache[current]))
      ensures StandardDigits.IsGlyphNumber(current) && StandardDigits.IsGlyphNumber(next) ==>
        next in cache && (next !in old(cache) ==> fresh(cache[next]))
      ensures !StandardDigits.IsGlyphNumber(next) ==> forall n :: n in cache ==> n in old(cache) || n == current
      ensures forall n :: n in old(cache) ==> n in cache && cache[n] == old(cache)[n]
      ensures forall n :: n in cache ==> n in old(cache) || n == current || n == next
    {
      CheckSequenceBounds();
      var thisNumber := GetDigit(current);
      if thisNumber.Throws? {
        return Throws(thisNumber.error);
      }
      var nextNumber := GetDigit(next);
      if nextNumber.Throws? {
        return Throws(nextNumber.error);
      }
      return Ok(());
    }

    /** The animator's `onAnimationEnd` listener */
    method OnAnimationEnd()
      modifies this
      ensures State() == Ended(old(State())) && cache == old(cache)
    {
      current := next;
      animating := false;
    }

    /** `onSaveInstanceState()` */
    method OnSaveInstanceState() returns (saved: SavedState)
      ensures saved.next == next
      ensures saved.current == if animating then next else current
      ensures saved == Saved(State())
    {
      saved := SavedState(next, if animating then next else current);
    }

    /** `onRestoreInstanceState(state)` for a `SavedState` */
    method OnRestoreInstanceState(saved: SavedState)
      modifies this
      ensures State() == Restored(old(State()), saved) && cache == old(cache)
    {
      next := saved.next;
      current := saved.current;
    }
  }
}
