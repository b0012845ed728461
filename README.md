# NumberView: a verified model of its integer state

NumberView is an Android widget that draws decimal digits as Bézier curves and morphs one digit into the next. This project models the integer state logic behind the morphing and proves what that logic guarantees. The model covers:

- **Glyph lookup.** `StandardDigits` makes a new glyph for a number in {-1, 0..9} (-1 being the hidden number) and throws for anything else. `Digits` is a character-to-glyph registry where the last write wins.
- **One digit position.** This is the library's `NumberView`. It holds the number it animates towards (`mNext`) and the number it animates from (`mCurrent`). `checkSequenceBounds` normalises `mNext` with Java's truncating `%`. An advance is either animated or immediate, and when the animator ends, `mCurrent` takes `mNext`. The view caches glyphs and collapses an animation that is still running when its state is saved.
- **The multi-digit group.** This is `NumberViewGroup`. It counts the decimal digits of an `int`, including `Integer.MIN_VALUE`, and extracts digits least significant first. It applies the minimum-shown floor, and `bindViews` grows the row of children, advances the positions in use and hides the rest.
- **The original self-drawing view.** This is the demo's `NumberView`. It holds a frame counter that runs from 0 to 24, an index that walks a sequence of digits and wraps, and a replacement sequence that is deferred to the end of a transition. It also computes an alignment offset.

Java's 32-bit `int` is written out in the model:
- `Java.Wrap` gives two's-complement wrap-around.
- `Java.Div` and `Java.Rem` truncate toward zero. Dafny's own `/` and `%` are Euclidean.

The form of each part follows the source:
- **Classes with fields updated in place:** `Digits.Registry`, `DigitView.NumberView`, `DigitGroup.NumberViewGroup` and `LegacyView.NumberView`.
  - The number fields of `DigitView.NumberView` and `LegacyView.NumberView` are given by a `State()` function. Each method that changes them ensures that the new `State()` equals a pure transition function applied to the old one. The properties are proved as lemmas about those functions.
  - `Digits.Registry` states its `entries` map directly. `DigitGroup.NumberViewGroup` states its own fields directly, and the states of its children through `States()`.
  - The glyph cache of `DigitView.NumberView` is stated case by case in `GetDigit` and `OnDraw`: which keys are added, and that added glyphs are fresh.
  - For `DigitGroup.NumberViewGroup`, the transition functions give the children's states. Which child objects the group holds is stated separately: `GrowTo` keeps every existing child and adds only new ones, and `BindViews` adds only new ones.
- **A pure function:** `StandardDigits.ShapeFor` models `forNumber`'s switch.
- **Loops with invariants:** the loops of `bindViews`, `setMinimumNumbersShown` and `getDigits`. The registry's static initialiser is a straight run of `register` calls; the model takes those glyphs as a list parameter, so its constructor registers them with a loop.

Some behaviours of the code are worth stating outright:
- **Hiding with a minimum shown.** `hide()` with a minimum of at least one sends position 0 to `|(-1) % 10| = 1` and the other kept positions to 0 (`DigitGroup.HideWithMinimumShowsOne`). Only without a positive minimum does every position head for the hidden number (`DigitGroup.HideWithoutMinimumHidesAll`).
- **Positions kept by the minimum.** A position below the minimum but above the number's digits shows a leading 0 (`DigitGroup.BoundShowsDigits`).
- **Children are only added, at the front.** A new child goes in at layout index 0, so it becomes the most significant position and every earlier child keeps its position (`DigitGroup.KeptInPlaceMeans`). `setMinimumNumbersShown` and every public operation that binds the views keep each existing child at its position and add only new views (`DigitGroup.NumberViewGroup.SetMinimumNumbersShown`, `DigitGroup.NumberViewGroup.GrowTo`, `DigitGroup.NumberViewGroup.BindViews`, `DigitGroup.NumberViewGroup.AdvanceTo` and the other `advance` and `hide` methods). Each kept position is advanced from its own earlier state (`DigitGroup.BoundKeepsPositions`).
- **Progress is counted in drawn frames.** The original view counts drawn frames, 25 per transition (`LegacyView.TransitionLength`).
- **A sequence change can take effect mid-transition.** In the original view, a sequence set on the last frame (`mFrame == mFrameCount`) is used at once, and a replacement stashed earlier then overrides it at the end of the transition (`LegacyView.StaleStashWins`).

## Model

| member | source | states |
|---|---|---|
| Java.Wrap | library/src/main/java/com/deange/numberview/NumberViewGroup.java:138-144 | the result is an `int` congruent to the exact value modulo 2^32, and equal to it when no overflow occurs, as `mNumber + 1` and `mNext + 1` behave |
| Java.Rem | library/src/main/java/com/deange/numberview/NumberView.java:230 | Java's `%`: the remainder takes the sign of the dividend and is smaller than the divisor in magnitude |
| Java.DivRem | library/src/main/java/com/deange/numberview/NumberViewGroup.java:52 | truncating division and remainder satisfy Java's identity `(a / b) * b + a % b == a`, and the quotient's magnitude is the magnitude of `a` divided by `b`, rounded down |
| Glyphs.Identity | library/src/main/java/com/deange/numberview/digits/StandardDigits.java:17-38 | each glyph class stands for one number in -1..9, and only `Empty` stands for -1 |
| Glyphs.CharOf | library/src/main/java/com/deange/numberview/digits/Digit.java:15 | `getChar()` is `'\0'` exactly for `Empty`, and otherwise the character of the class's digit |
| StandardDigits.ShapeFor | library/src/main/java/com/deange/numberview/digits/StandardDigits.java:15-41 | a glyph class exists exactly for -1 and 0..9, and the class found is the one drawn for that number |
| StandardDigits.ShapeForIdentity | library/src/main/java/com/deange/numberview/digits/StandardDigits.java:17-38 | every glyph class is reached from exactly the number it is drawn for |
| StandardDigits.ForNumber | library/src/main/java/com/deange/numberview/digits/StandardDigits.java:15-41 | succeeds exactly for -1 and 0..9 with a freshly allocated glyph of the matching class; throws `IllegalArgumentException` for every other number |
| StandardDigits.Empty | library/src/main/java/com/deange/numberview/digits/StandardDigits.java:11-13 | a fresh `Empty` glyph, the one `forNumber(HIDE_NUMBER)` makes |
| Digits.LastFor | library/src/main/java/com/deange/numberview/digits/Digits.java:32-38 | finds the last glyph in a registration order that reports a given character, or none exactly when no glyph reports it |
| Digits.RegisterAllLastWins | library/src/main/java/com/deange/numberview/digits/Digits.java:32-38 | after a series of registrations each character maps to the last glyph registered for it; characters no glyph reports keep their old entry |
| Digits.Registry.constructor | library/src/main/java/com/deange/numberview/digits/Digits.java:14-26 | the static initialiser registers its glyphs in order, leaving the map those registrations produce, keyed by each glyph's character |
| Digits.Registry.Register | library/src/main/java/com/deange/numberview/digits/Digits.java:32-38 | stores the glyph under its own character, replacing any earlier one; every other character keeps its glyph |
| Digits.Registry.ForChar | library/src/main/java/com/deange/numberview/digits/Digits.java:44-46 | the registered glyph for the character, which reports that character, or none exactly when nothing was registered for it |
| Digits.Registry.Empty | library/src/main/java/com/deange/numberview/digits/Digits.java:40-42 | the glyph registered for `'\0'` |
| Digits.Registry.ForInt | library/src/main/java/com/deange/numberview/digits/Digits.java:48-53 | throws `IllegalArgumentException` exactly for digits outside 0..9; otherwise the lookup of `'0' + digit`, whose glyph reports that digit |
| DigitView.NormalizedIsDigit | library/src/main/java/com/deange/numberview/NumberView.java:226-232 | for every input from -10 upwards other than -1, short of overflow, the normalised target is the input's residue modulo 10, in 0..9 |
| DigitView.Normalized | library/src/main/java/com/deange/numberview/NumberView.java:226-232 | `checkSequenceBounds` on one number: the result always lies in -9..9, and the number is left unchanged exactly when it is -1 or a digit 0..9 |
| DigitView.NormalizedBelowRange | library/src/main/java/com/deange/numberview/NumberView.java:230 | below -10 the truncating remainder is negative: the result lies in -9..0 |
| DigitView.SuccessorWraps | library/src/main/java/com/deange/numberview/NumberView.java:178-190 | the successor that `advance()` targets wraps 9 to 0 and turns the hidden number into 0 |
| DigitView.Advanced | library/src/main/java/com/deange/numberview/NumberView.java:196-205 | `doAdvance`: the animator runs; the new target is normalised into -9..9 and is the given number whenever that has a glyph; an immediate advance commits it to `mCurrent`, an animated one keeps `mCurrent` |
| DigitView.AdvanceSettles | library/src/main/java/com/deange/numberview/NumberView.java:196-205 | an immediate advance commits `mCurrent == mNext`; an animated one keeps `mCurrent`; once the animation ends, both leave the same state |
| DigitView.SaveRestoreFinishesAnimation | library/src/main/java/com/deange/numberview/NumberView.java:356-379 | restoring a saved state restores `mNext`; a state saved mid-animation comes back finished, and one saved at rest keeps its `mCurrent` |
| DigitView.NumberView.constructor | library/src/main/java/com/deange/numberview/NumberView.java:61-62 | a new view has both numbers hidden, a running animator and an empty glyph cache |
| DigitView.NumberView.GetCurrentNumber | library/src/main/java/com/deange/numberview/NumberView.java:166-168 | reports the target `mNext`, not `mCurrent` |
| DigitView.NumberView.Hide | library/src/main/java/com/deange/numberview/NumberView.java:170-172 | an animated advance to the hidden number |
| DigitView.NumberView.HideImmediate | library/src/main/java/com/deange/numberview/NumberView.java:174-176 | an immediate advance to the hidden number |
| DigitView.NumberView.Advance | library/src/main/java/com/deange/numberview/NumberView.java:178-181 | an animated advance to `mNext + 1` in `int` arithmetic |
| DigitView.NumberView.AdvanceTo | library/src/main/java/com/deange/numberview/NumberView.java:183-185 | an animated advance to the given number |
| DigitView.NumberView.AdvanceImmediate | library/src/main/java/com/deange/numberview/NumberView.java:187-190 | an immediate advance to `mNext + 1` in `int` arithmetic |
| DigitView.NumberView.AdvanceImmediateTo | library/src/main/java/com/deange/numberview/NumberView.java:192-194 | an immediate advance to the given number |
| DigitView.NumberView.DoAdvance | library/src/main/java/com/deange/numberview/NumberView.java:196-205 | the target is normalised, committed to `mCurrent` only when immediate, and the animator is (re)started; the cache is untouched |
| DigitView.NumberView.CheckSequenceBounds | library/src/main/java/com/deange/numberview/NumberView.java:226-232 | `mNext` is normalised in place; nothing else changes |
| DigitView.NumberView.GetDigit | library/src/main/java/com/deange/numberview/NumberView.java:234-241 | a cached glyph is returned as it is; otherwise a fresh glyph of the right class is cached and returned; for a number with no glyph it throws and caches nothing; every cached glyph is of its key's class |
| DigitView.NumberView.OnDraw | library/src/main/java/com/deange/numberview/NumberView.java:300-305 | normalises `mNext`, then looks up the glyph of `mCurrent` and then of `mNext`; it throws `IllegalArgumentException` exactly when either has no glyph; nothing is cached when `mCurrent` has none, and only `mCurrent` when `mNext` has none; a glyph added to the cache is fresh |
| DigitView.NumberView.OnAnimationEnd | library/src/main/java/com/deange/numberview/NumberView.java:111-117 | `mCurrent` takes `mNext` and the animator stops |
| DigitView.NumberView.OnSaveInstanceState | library/src/main/java/com/deange/numberview/NumberView.java:356-365 | saves `mNext`, and `mNext` again in place of `mCurrent` while animating |
| DigitView.NumberView.OnRestoreInstanceState | library/src/main/java/com/deange/numberview/NumberView.java:367-379 | writes both saved numbers back and leaves the animator as it is |
| DigitGroup.Pow10 | library/src/main/java/com/deange/numberview/NumberViewGroup.java:52 | `Math.pow(10, digit)` for a position: at least 1, and at least 10 from position 1 on |
| DigitGroup.IntLength | library/src/main/java/com/deange/numberview/NumberViewGroup.java:55-61 | `getIntLength` is between 1 and 10 for every `int`; `DigitGroup.IntLengthCountsDigits` shows it is the digit count |
| DigitGroup.IntLengthCountsDigits | library/src/main/java/com/deange/numberview/NumberViewGroup.java:55-61 | `getIntLength` is the decimal digit count of the magnitude of `number` for every `int`, `Integer.MIN_VALUE` included, and zero has one digit; always 1..10 |
| DigitGroup.DigitOf | library/src/main/java/com/deange/numberview/NumberViewGroup.java:51-53 | `getDigit(number, i)` lies in -9..9; `DigitGroup.DigitOfMagnitude` shows which digit it is |
| DigitGroup.DigitOfMagnitude | library/src/main/java/com/deange/numberview/NumberViewGroup.java:51-53 | `getDigit(number, i)` is the i-th decimal digit of the magnitude of `number`, least significant first, carrying the sign of `number` |
| DigitGroup.RequiredChildCount | library/src/main/java/com/deange/numberview/NumberViewGroup.java:63-76 | `getRequiredChildCount()` never exceeds `Integer.MAX_VALUE`, so every count fits an `int`; `DigitGroup.RequiredChildCountIsFloor` gives its value |
| DigitGroup.RequiredChildCountIsFloor | library/src/main/java/com/deange/numberview/NumberViewGroup.java:63-76 | the count is the larger of `mMinShown` and the digits needed (none for the hidden number); for the hidden number it is `max(mMinShown, 0)` |
| DigitGroup.Grow | library/src/main/java/com/deange/numberview/NumberViewGroup.java:157-159 | growing to a count never shortens, keeps every existing position, and fills the new ones |
| DigitGroup.Bound | library/src/main/java/com/deange/numberview/NumberViewGroup.java:78-110 | the states `bindViews()` leaves: at least as many positions as before and at least `size`; `BoundKeepsPositions`, `BoundShowsDigits` and `BoundSpellsNumber` say what each position holds |
| DigitGroup.BoundKeepsPositions | library/src/main/java/com/deange/numberview/NumberViewGroup.java:80-86 | binding keeps every existing position, provides at least `size` of them, and advances each existing position from its own state |
| DigitGroup.BoundShowsDigits | library/src/main/java/com/deange/numberview/NumberViewGroup.java:82-106 | each position below `size` heads for its decimal digit of the magnitude of `number`, every other position heads for hidden; all animate, immediately (`mCurrent == mNext`) or keeping the old `mCurrent` |
| DigitGroup.DigitsValue | library/src/main/java/com/deange/numberview/NumberViewGroup.java:51-53 | the first k digits extracted least significant first are worth the number modulo 10^k |
| DigitGroup.BoundSpellsNumber | library/src/main/java/com/deange/numberview/NumberViewGroup.java:82-96 | after an immediate bind of a number other than the hidden one, the positions in use read back, as a decimal numeral, exactly the magnitude of `number` |
| DigitGroup.HideWithMinimumShowsOne | library/src/main/java/com/deange/numberview/NumberViewGroup.java:82-95 | with `mMinShown >= 1`, hiding sends position 0 to 1 and the other positions within the minimum to 0 |
| DigitGroup.HideWithoutMinimumHidesAll | library/src/main/java/com/deange/numberview/NumberViewGroup.java:98-106 | with no positive minimum, hiding adds no position and sends every existing one to hidden |
| DigitGroup.KeptInPlaceMeans | library/src/main/java/com/deange/numberview/NumberViewGroup.java:43-49 | a list of children kept in place by insertions at layout index 0 holds every earlier child at the same distance from the end, that is, at the same position |
| DigitGroup.KeptInPlaceTransitive | library/src/main/java/com/deange/numberview/NumberViewGroup.java:84-86 | keeping children in place composes, so a run of insertions keeps every earlier child at its position |
| DigitGroup.NumberViewGroup.constructor | library/src/main/java/com/deange/numberview/NumberViewGroup.java:12-14 | a new group has no children, shows the hidden number, is not immediate and has minimum -1 |
| DigitGroup.NumberViewGroup.AddNewChild | library/src/main/java/com/deange/numberview/NumberViewGroup.java:43-49 | a fresh, immediately hidden view is inserted at the front of the layout, which makes it the new most significant position; every earlier child keeps its position |
| DigitGroup.NumberViewGroup.GrowTo | library/src/main/java/com/deange/numberview/NumberViewGroup.java:84-86 | hidden positions are added above the existing ones until there are `count` of them; every existing child keeps its position, and every added child is a new view |
| DigitGroup.NumberViewGroup.AdvancePosition | library/src/main/java/com/deange/numberview/NumberViewGroup.java:88-95 | only the child at that position changes, advancing to the target immediately or animated as `mImmediate` says |
| DigitGroup.NumberViewGroup.HidePosition | library/src/main/java/com/deange/numberview/NumberViewGroup.java:100-105 | only the child at that position changes, advancing to hidden immediately or animated as `mImmediate` says |
| DigitGroup.NumberViewGroup.BindViews | library/src/main/java/com/deange/numberview/NumberViewGroup.java:78-110 | the children are grown to the required count and never fewer, every earlier child keeps its position, any added child is a new view, and each position reaches the state `Bound` gives; the fields are unchanged |
| DigitGroup.NumberViewGroup.BindUsed | library/src/main/java/com/deange/numberview/NumberViewGroup.java:82-96 | the first loop grows to `size` positions and advances every position below `size` to its digit; earlier children keep their positions and added ones are new views |
| DigitGroup.NumberViewGroup.BindPosition | library/src/main/java/com/deange/numberview/NumberViewGroup.java:84-95 | one round of the first loop: grow to `i + 1` positions, then advance position `i` to the magnitude of digit `i`, keeping earlier children in place |
| DigitGroup.NumberViewGroup.HideUnused | library/src/main/java/com/deange/numberview/NumberViewGroup.java:98-106 | the second loop hides every position from `size` up and leaves the list of children as it is |
| DigitGroup.NumberViewGroup.GetDigit | library/src/main/java/com/deange/numberview/NumberViewGroup.java:112-115 | a child is found exactly for an index within the child count, and it is the child at that position counted from the least significant |
| DigitGroup.NumberViewGroup.GetDigits | library/src/main/java/com/deange/numberview/NumberViewGroup.java:117-124 | a new array of all children, least significant first: the layout order reversed |
| DigitGroup.NumberViewGroup.AdvanceTo | library/src/main/java/com/deange/numberview/NumberViewGroup.java:126-130 | records the number, not immediate, and binds the positions to it; earlier children keep their positions and added ones are new views |
| DigitGroup.NumberViewGroup.AdvanceImmediateTo | library/src/main/java/com/deange/numberview/NumberViewGroup.java:132-136 | records the number, immediate, and binds the positions to it; earlier children keep their positions and added ones are new views |
| DigitGroup.NumberViewGroup.Advance | library/src/main/java/com/deange/numberview/NumberViewGroup.java:138-140 | animates to `mNumber + 1` in `int` arithmetic, so the hidden number -1 is followed by 0; earlier children keep their positions and added ones are new views |
| DigitGroup.NumberViewGroup.AdvanceImmediate | library/src/main/java/com/deange/numberview/NumberViewGroup.java:142-144 | shows `mNumber + 1` at once; earlier children keep their positions and added ones are new views |
| DigitGroup.NumberViewGroup.Hide | library/src/main/java/com/deange/numberview/NumberViewGroup.java:146-148 | an animated bind of the hidden number; earlier children keep their positions and added ones are new views |
| DigitGroup.NumberViewGroup.HideImmediate | library/src/main/java/com/deange/numberview/NumberViewGroup.java:150-152 | an immediate bind of the hidden number; earlier children keep their positions and added ones are new views |
| DigitGroup.NumberViewGroup.SetMinimumNumbersShown | library/src/main/java/com/deange/numberview/NumberViewGroup.java:154-160 | records the minimum and grows the positions to at least that many, without shrinking or binding them; every existing child keeps its position, and every added child is a new view |
| LegacyView.BoundedIndex | NumberView/src/main/java/com/deange/numberview/NumberView.java:483-488 | exactly the indices at or past the end of the sequence go back to 0; a kept index is below the length; nothing else changes |
| LegacyView.InitialDrawable | NumberView/src/main/java/com/deange/numberview/NumberView.java:183-192 | a new view (frame 0, index 0, the digits 0 to 9, no stash) can be drawn |
| LegacyView.FrameStaysInRange | NumberView/src/main/java/com/deange/numberview/NumberView.java:620-628 | a frame counter in 0..`mFrameCount` stays there under drawing, both advances, `setAutoAdvance`, `setSequence` and `setCurrentNumberIndex` |
| LegacyView.Tick | NumberView/src/main/java/com/deange/numberview/NumberView.java:566-652 | one `onDraw`: it throws `ArrayIndexOutOfBoundsException` exactly when the bounded index is outside the sequence or `mCurrent` or the entry at the index is not a digit, and then only the index is bounded; a frame that schedules no successor has reset the counter with auto-advance off |
| LegacyView.TickCounts | NumberView/src/main/java/com/deange/numberview/NumberView.java:619-626 | a frame before the last one only increments the counter (after bounding the index) and schedules the next frame |
| LegacyView.Completed | NumberView/src/main/java/com/deange/numberview/NumberView.java:626-643 | the end of a transition: counter 0, the shown entry committed to `mCurrent`, any stashed sequence swapped in and cleared, and an index from 0 up to `Integer.MAX_VALUE - 1` moved on into the sequence in use |
| LegacyView.TickCompletes | NumberView/src/main/java/com/deange/numberview/NumberView.java:626-652 | the frame after the last one resets the counter, commits the entry read at the start of the frame as `mCurrent`, swaps in and clears a stashed sequence, and moves the index on, wrapping against the new sequence; the next frame is scheduled only with auto-advance |
| LegacyView.DrawableTicksSafely | NumberView/src/main/java/com/deange/numberview/NumberView.java:566-574 | a view with a non-empty sequence of digits, a digit as `mCurrent` and a non-negative index never throws while drawing, stays that way, and its index points into its sequence after every frame |
| LegacyView.NegativeIndexThrows | NumberView/src/main/java/com/deange/numberview/NumberView.java:566-567 | a negative index, which the setters accept unchecked, makes the next frame throw `ArrayIndexOutOfBoundsException` |
| LegacyView.TransitionLength | NumberView/src/main/java/com/deange/numberview/NumberView.java:619-643 | from a drawable view whose index points into its sequence, the frames up to `mFrameCount` change only the counter, and the one after them completes the transition to the entry at the index |
| LegacyView.SetSequenceDefers | NumberView/src/main/java/com/deange/numberview/NumberView.java:310-325 | `null` throws `IllegalArgumentException`; off the last frame, a new sequence is only stashed, and the sequence in use and the index are untouched |
| LegacyView.StaleStashWins | NumberView/src/main/java/com/deange/numberview/NumberView.java:316-324 | on the last frame a new sequence is used at once, but an earlier stash replaces it when the transition completes |
| LegacyView.AdvanceWraps | NumberView/src/main/java/com/deange/numberview/NumberView.java:470-481 | mid-transition `advance()` moves the index to the next entry modulo the length; at frame 0 or 24 it only restarts the frame count |
| LegacyView.AdvanceToUnchecked | NumberView/src/main/java/com/deange/numberview/NumberView.java:464-468 | at the start of a transition `advance(n)` stores any `n`, negative or too large, as the index |
| LegacyView.SetAutoAdvanceResets | NumberView/src/main/java/com/deange/numberview/NumberView.java:393-400 | the flag is set; switching it off resets the frame counter to 0; nothing else changes |
| LegacyView.OperationsKeepDrawable | NumberView/src/main/java/com/deange/numberview/NumberView.java:464-488 | `advance()`, `advance(n)` with `0 <= n < Integer.MAX_VALUE`, `setAutoAdvance` and `setSequence` with a non-empty sequence of digits keep a view drawable |
| LegacyView.ResolveTranslatedValue | NumberView/src/main/java/com/deange/numberview/NumberView.java:527-545 | `resolveTranslatedValue`: the start and unknown styles give 1, and centring cannot overflow (the result lies between -2^30 - 1 and 2^30 - 2) |
| LegacyView.TranslatedValueAligns | NumberView/src/main/java/com/deange/numberview/NumberView.java:527-545 | centring leaves the spare room split within one pixel, with the half rounded toward zero for positive and negative room alike, then shifted one pixel toward the start; the end alignment is flush with the parent's end; the start and unknown styles give 1 |
| LegacyView.NumberView.constructor | NumberView/src/main/java/com/deange/numberview/NumberView.java:183-192 | index 0, current 0, frame 0, the digits 0 to 9, no stash, auto-advance on |
| LegacyView.NumberView.SetSequence | NumberView/src/main/java/com/deange/numberview/NumberView.java:310-325 | throws for `null` and changes nothing; otherwise the state becomes the deferred or immediate replacement |
| LegacyView.NumberView.GetSequence | NumberView/src/main/java/com/deange/numberview/NumberView.java:327-329 | the sequence in use |
| LegacyView.NumberView.SetAutoAdvance | NumberView/src/main/java/com/deange/numberview/NumberView.java:393-400 | sets the flag, resetting the frame counter when it is switched off |
| LegacyView.NumberView.IsAutoAdvance | NumberView/src/main/java/com/deange/numberview/NumberView.java:402-404 | the flag |
| LegacyView.NumberView.GetCurrentNumber | NumberView/src/main/java/com/deange/numberview/NumberView.java:406-408 | reports `mCurrent`, the digit the transition starts from |
| LegacyView.NumberView.SetCurrentNumberIndex | NumberView/src/main/java/com/deange/numberview/NumberView.java:410-412 | stores the index unchecked; nothing else changes |
| LegacyView.NumberView.AdvanceTo | NumberView/src/main/java/com/deange/numberview/NumberView.java:464-468 | sets the index, then advances |
| LegacyView.NumberView.Advance | NumberView/src/main/java/com/deange/numberview/NumberView.java:470-481 | restarts the frame count at frame 0 or 24, otherwise moves the index on with `int` wrap-around and bounds it |
| LegacyView.NumberView.CheckSequenceBounds | NumberView/src/main/java/com/deange/numberview/NumberView.java:483-488 | an index at or past the end goes back to 0 |
| LegacyView.NumberView.OnDraw | NumberView/src/main/java/com/deange/numberview/NumberView.java:566-652 | the field updates of one drawn frame and whether the next frame is scheduled, or the exception thrown |

## Left out

- Floating-point geometry is left out: the Bézier point tables, interpolation, `lerp`/`fequals`, widths, `setScale`/`applyScale` (including that the old view's `applyScale` overwrites the y coordinate with the scale), `getMin`/`getMax` and `measureTextSize`. Its results depend on IEEE rounding. A glyph is an opaque object carrying its class and its character.
- `LegacyView.ResolveTranslatedValue` returns the `int` computed before the widening to `float`. The rounding of that widening above 2^24 is not modelled.
- Animator timing, interpolators and `mFactor` are left out. The animator is reduced to whether it runs, and its end is the explicit `OnAnimationEnd`.
- The `Handler`, `invalidateDelayed`, `System.currentTimeMillis`, `mLastChange`, `mWaitUntil`, frame delays and `requestLayout`/`invalidate` are left out as scheduling and clock I/O. The old view's draw reports only whether it schedules another frame.
- Layout and measurement are left out: `onMeasure`, `onLayout`, `resolveLayoutParams`, the alignment setters and getters, gravity and orientation.
- `Parcel` serialisation of `SavedState`, and restoring from a state of another class, are left out. Both are framework plumbing.
- Debug drawing and `fixPointsAndDebug`/`printWithOffsets` are left out: they only print. So is the warning `register` logs when it replaces a glyph.
- The sample and demo activities are not part of this model.
- `Digits.Registry.constructor` takes the initial glyphs as a parameter. `Zero`, `Three`, `Four`, `Seven` and `Nine` show no `getChar` in the source, so which characters the static initialiser registers is not fixed. `Glyphs.CharOf` gives those classes their digit's character.
- `DigitGroup.NumberViewGroup.Valid` does not include the children's own glyph-cache invariant, and the group does not track the children's caches. The group's methods state only the children's number and animator state.
- `LegacyView.NumberView.GetSequence` returns a sequence value. The aliasing of the internal array that `getSequence()` hands out, which a caller could then change in place, is not modelled. The array copies in `setSequence` are value assignments.
- `DigitGroup.DigitOf` models `getDigit(number, i)` with truncating integer division. For a 32-bit `number`, the source's double division, `%` and cast give the same digit.
- The two loops of `bindViews` are the helper methods `BindUsed` and `HideUnused` of `DigitGroup.NumberViewGroup`. The ghost function `BindRounds` and the predicate `BoundBelow` describe the states between rounds.
- `DigitGroup.NumberViewGroup.AddNewChild` requires fewer than `Integer.MAX_VALUE` children, because a layout cannot hold more.
- `LegacyView.Drawable` requires an index below `Integer.MAX_VALUE`. At that index, `advance()` mid-transition wraps the index to `Integer.MIN_VALUE`, and the next frame throws (`LegacyView.NegativeIndexThrows`).
