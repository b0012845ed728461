/** `NumberViewGroup`: a row of `NumberView` children that together show one integer,
    one decimal position per child. Children are kept in layout order (the most
    significant position first, as `addView(child, 0)` leaves them), so position `p`,
    counted from the least significant digit, is the child `p` places from the end. */
module DigitGroup {
  import opened Java
  import Glyphs
  import StandardDigits
  import opened DigitView

  /** `Math.pow(10, i)` */
  function Pow10(i: nat): (p: nat)
    ensures p >= 1
    ensures i >= 1 ==> p >= 10
  {
    if i == 0 then 1 else 10 * Pow10(i - 1)
  }

  /** The number of decimal digits written for `k`; zero has one */
  function DecimalLength(k: nat): (len: nat)
    ensures len >= 1
  {
    if k < 10 then 1 else 1 + DecimalLength(k / 10)
  }

  lemma {:induction false} Pow10Monotonic(i: nat, j: nat)
    requires i <= j
    ensures Pow10(i) <= Pow10(j)
  {
    if i < j {
      Pow10Monotonic(i, j - 1);
    }
  }

  /** A number between 10^j and 10^(j+1) has j + 1 digits */
  lemma {:induction false} DecimalLengthOf(k: nat, j: nat)
    requires Pow10(j) <= k < Pow10(j + 1)
    ensures DecimalLength(k) == j + 1
  {
    if j > 0 {
      DecimalLengthOf(k / 10, j - 1);
    }
  }

  /** `k` is below 10 to the power of its digit count */
  lemma {:induction false} BelowPowerOfLength(k: nat)
    ensures k < Pow10(DecimalLength(k))
  {
    if k >= 10 {
      BelowPowerOfLength(k / 10);
    }
  }

  /** `getIntLength(number)`: the digit count of `|number|` by comparison with powers of
      ten, reading `Integer.MIN_VALUE` (whose magnitude is no `int`) as `Integer.MAX_VALUE` */
  function IntLength(number: int32): (r: int)
    ensures 1 <= r <= 10
  {
    var n := if number == INT_MIN then INT_MAX else Abs(number);
    if n < 100000 then
      if n < 100 then (if n < 10 then 1 else 2)
      else if n < 1000 then 3
      else if n < 10000 then 4
      else 5
    else if n < 10000000 then (if n < 1000000 then 6 else 7)
    else if n < 100000000 then 8
    else if n < 1000000000 then 9
    else 10
  }

  /** `getIntLength` counts the decimal digits of the magnitude of every `int`, including
      `Integer.MIN_VALUE`; the count is between 1 and 10 */
  lemma IntLengthCountsDigits(number: int32)
    ensures IntLength(number) == DecimalLength(Abs(number))
    ensures 1 <= IntLength(number) <= 10
  {
    var n := Abs(number);
    assert Pow10(1) == 10 && Pow10(2) == 100 && Pow10(3) == 1000 && Pow10(4) == 10000;
    assert Pow10(5) == 100000 && Pow10(6) == 1000000 && Pow10(7) == 10000000;
    assert Pow10(8) == 100000000 && Pow10(9) == 1000000000 && Pow10(10) == 10000000000;
    if n < 10 {
    } else if n < 100 {
      DecimalLengthOf(n, 1);
    } else if n < 1000 {
      DecimalLengthOf(n, 2);
    } else if n < 10000 {
      DecimalLengthOf(n, 3);
    } else if n < 100000 {
      DecimalLengthOf(n, 4);
    } else if n < 1000000 {
      DecimalLengthOf(n, 5);
    } else if n < 10000000 {
      DecimalLengthOf(n, 6);
    } else if n < 100000000 {
      DecimalLengthOf(n, 7);
    } else if n < 1000000000 {
      DecimalLengthOf(n, 8);
    } else {
      DecimalLengthOf(n, 9);
      DecimalLengthOf(INT_MAX, 9);
    }
  }

  /** `getDigit(number, digit)`: `(int) ((number / Math.pow(10, digit)) % 10)`. For a
      32-bit `number` the double division and remainder followed by the truncating cast
      give the truncated integer quotient and remainder used here. */
  function DigitOf(number: int, position: nat): (d: int)
    ensures -9 <= d <= 9
  {
    Rem(Div(number, Pow10(position)), 10)
  }

  /** The digit extracted at `position` is the decimal digit of `|number|` there, with
      the sign of `number`: `bindViews` takes its absolute value */
  lemma DigitOfMagnitude(number: int, position: nat)
    ensures Abs(DigitOf(number, position)) == (Abs(number) / Pow10(position)) % 10
    ensures number >= 0 ==> DigitOf(number, position) >= 0
    ensures number < 0 ==> DigitOf(number, position) <= 0
  {
    DivRem(number, Pow10(position));
  }

  /** `getRequiredChildCount()`: no digits for the hidden number, else its digit count,
      raised to the minimum shown */
  function RequiredChildCount(number: int32, minShown: int32): (count: nat)
    ensures count <= INT_MAX
  {
    var requested := if number == StandardDigits.HIDE_NUMBER then 0 else IntLength(number);
    if minShown > requested then minShown else requested
  }

  /** The required count is the larger of the minimum shown and the digits the number
      needs, and never negative */
  lemma RequiredChildCountIsFloor(number: int32, minShown: int32)
    ensures RequiredChildCount(number, minShown) >= minShown
    ensures number != StandardDigits.HIDE_NUMBER ==>
      RequiredChildCount(number, minShown) >= DecimalLength(Abs(number))
    ensures number == StandardDigits.HIDE_NUMBER ==>
      RequiredChildCount(number, minShown) == if minShown > 0 then minShown else 0
    ensures RequiredChildCount(number, minShown) == minShown ||
      RequiredChildCount(number, minShown) == (if number == StandardDigits.HIDE_NUMBER then 0 else DecimalLength(Abs(number)))
  {
    IntLengthCountsDigits(number);
  }

  /** The number `bindViews` sends to position `position` when `size` positions are in
      use: the magnitude of that digit of `number`, or the hidden number past `size` */
  function Target(number: int32, size: nat, position: nat): (t: int32)
  {
    if position < size then Abs(DigitOf(number, position)) else StandardDigits.HIDE_NUMBER
  }

  /** `s` extended with `filler` up to `count` elements; never shortened */
  function Grow<T>(s: seq<T>, count: int, filler: T): (r: seq<T>)
    ensures |r| == if count > |s| then count else |s|
    ensures forall p :: 0 <= p < |s| ==> r[p] == s[p]
    ensures forall p :: |s| <= p < |r| ==> r[p] == filler
    decreases count - |s|
  {
    if count <= |s| then s else Grow(s, count - 1, filler) + [filler]
  }

  /** The states `bindViews()` has reached once the positions below `i` are bound and
      `len` positions exist: those below `i` sent to their targets, the rest as the grown
      states left them */
  ghost predicate BoundBelow(states: seq<ViewState>, cur: seq<ViewState>, number: int32, size: nat,
                             immediate: bool, i: nat, len: nat)
  {
    var grown := Grow(states, size, Hidden);
    && |cur| == len <= |grown|
    && forall p :: 0 <= p < len ==>
         cur[p] == if p < i then Advanced(grown[p], Target(number, size, p), immediate) else grown[p]
  }

  /** A round of the first loop: grow to `i + 1` positions and bind position `i` */
  lemma BindStep(states: seq<ViewState>, cur: seq<ViewState>, next: seq<ViewState>, number: int32,
                 size: nat, immediate: bool, i: nat)
    requires i < size
    requires BoundBelow(states, cur, number, size, immediate, i, if i > |states| then i else |states|)
    requires var g := Grow(cur, i + 1, Hidden); next == g[i := Advanced(g[i], Target(number, size, i), immediate)]
    ensures BoundBelow(states, next, number, size, immediate, i + 1, if i + 1 > |states| then i + 1 else |states|)
  {
  }

  /** A round of the second loop: hide position `i` */
  lemma HideStep(states: seq<ViewState>, cur: seq<ViewState>, next: seq<ViewState>, number: int32,
                 size: nat, immediate: bool, i: nat)
    requires size <= i < |cur|
    requires BoundBelow(states, cur, number, size, immediate, i, |cur|)
    requires next == cur[i := Advanced(cur[i], StandardDigits.HIDE_NUMBER, immediate)]
    ensures BoundBelow(states, next, number, size, immediate, i + 1, |cur|)
  {
  }

  /** Before the first round nothing is bound and the states are as they were */
  lemma BoundBelowStart(states: seq<ViewState>, number: int32, size: nat, immediate: bool)
    ensures BoundBelow(states, states, number, size, immediate, 0, |states|)
  {
  }

  /** The states after the first `i` rounds of the first loop of `bindViews()` */
  ghost function BindRounds(states: seq<ViewState>, number: int32, size: nat, immediate: bool, i: nat): (r: seq<ViewState>)
    ensures |r| == if i > |states| then i else |states|
    decreases i
  {
    if i == 0 then states
    else
      var g := Grow(BindRounds(states, number, size, immediate, i - 1), i, Hidden);
      g[i - 1 := Advanced(g[i - 1], Target(number, size, i - 1), immediate)]
  }

  /** `current` holds the states after the first `i` rounds of the first loop of `bindViews()` */
  ghost predicate RoundsDone(current: seq<ViewState>, states: seq<ViewState>, number: int32, size: nat, immediate: bool, i: nat)
  {
    current == BindRounds(states, number, size, immediate, i)
  }

  /** After `i` rounds the positions below `i` are bound and the others are as growing
      left them */
  lemma {:induction false} BindRoundsBound(states: seq<ViewState>, number: int32, size: nat, immediate: bool, i: nat)
    requires i <= size
    ensures BoundBelow(states, BindRounds(states, number, size, immediate, i), number, size, immediate, i,
                       if i > |states| then i else |states|)
    decreases i
  {
    if i == 0 {
      BoundBelowStart(states, number, size, immediate);
    } else {
      BindRoundsBound(states, number, size, immediate, i - 1);
      BindStep(states, BindRounds(states, number, size, immediate, i - 1), BindRounds(states, number, size, immediate, i),
               number, size, immediate, i - 1);
    }
  }

  /** Once every position is bound, the states are those `Bound` describes */
  lemma BoundBelowComplete(states: seq<ViewState>, cur: seq<ViewState>, number: int32, size: nat, immediate: bool)
    requires BoundBelow(states, cur, number, size, immediate, |cur|, |cur|)
    requires |cur| == |Grow(states, size, Hidden)|
    ensures cur == Bound(states, number, size, immediate)
  {
  }

  /** The per-position states (least significant first) after `bindViews`: grown with
      hidden children to `size` positions, each used position advanced to its digit
      and every other position hidden, immediately or animated as `immediate` says */
  function Bound(states: seq<ViewState>, number: int32, size: nat, immediate: bool): (r: seq<ViewState>)
    ensures |r| >= |states| && |r| >= size
  {
    var grown := Grow(states, size, Hidden);
    seq(|grown|, p requires 0 <= p < |grown| => Advanced(grown[p], Target(number, size, p), immediate))
  }

  /** Binding never removes a position, provides at least `size` of them, and keeps the
      earlier positions in place */
  lemma BoundKeepsPositions(states: seq<ViewState>, number: int32, size: nat, immediate: bool)
    ensures |Bound(states, number, size, immediate)| == if size > |states| then size else |states|
    ensures forall p :: 0 <= p < |states| ==>
      Bound(states, number, size, immediate)[p] == Advanced(states[p], Target(number, size, p), immediate)
  {
  }

  /** What each position is told to show: position `p` below `size` heads for the `p`-th
      decimal digit of `|number|` (and shows it at once when `immediate`, or keeps showing
      its old number until its animation ends), every other position heads for hidden */
  lemma BoundShowsDigits(states: seq<ViewState>, number: int32, size: nat, immediate: bool, p: nat)
    requires p < |Bound(states, number, size, immediate)|
    ensures var r := Bound(states, number, size, immediate)[p];
      && (p < size ==> r.next == (Abs(number) / Pow10(p)) % 10)
      && (p >= size ==> r.next == StandardDigits.HIDE_NUMBER)
      && r.animating
      && (immediate ==> r.current == r.next)
      && (!immediate && p < |states| ==> r.current == states[p].current)
      && (!immediate && p >= |states| ==> r.current == StandardDigits.HIDE_NUMBER)
  {
    if p < size {
      DigitOfMagnitude(number, p);
    }
  }

  /** `x == q * d + r` with `0 <= r < d` fixes the quotient and remainder */
  lemma DivModUnique(x: int, d: int, q: int, r: int)
    requires d > 0 && 0 <= r < d && x == q * d + r
    ensures x / d == q && x % d == r
  {
    var q', r' := x / d, x % d;
    assert (q - q') * d == r' - r by {
      assert q' * d + r' == x;
      assert (q - q') * d == q * d - q' * d;
    }
    MulBounded(q - q', d, r' - r);
  }

  /** A multiple of `d` strictly between `-d` and `d` is zero */
  lemma MulBounded(a: int, d: int, e: int)
    requires d > 0 && a * d == e && -d < e < d
    ensures a == 0
  {
    if a > 0 {
      MulAtLeast(a, d);
    } else if a < 0 {
      MulAtMost(a, d);
    }
  }

  lemma MulAtLeast(a: int, d: int)
    requires a >= 1 && d > 0
    ensures a * d >= d
  {
  }

  lemma MulAtMost(a: int, d: int)
    requires a <= -1 && d > 0
    ensures a * d <= -d
  {
  }

  /** A value below `n * P` has a quotient by `P` below `n` */
  lemma DivBelow(r: nat, P: nat, n: nat)
    requires P > 0 && r < n * P
    ensures r / P < n
  {
    var s := r / P;
    assert s * P <= r;
    if s >= n {
      MulMonotonic(n, s, P);
    }
  }

  lemma MulMonotonic(a: nat, b: nat, P: nat)
    requires a <= b
    ensures a * P <= b * P
  {
  }

  /** The remainder modulo 10^(k+1) adds the digit at position `k` to the remainder
      modulo 10^k */
  lemma RemainderStep(a: nat, k: nat)
    ensures a % Pow10(k + 1) == a % Pow10(k) + ((a / Pow10(k)) % 10) * Pow10(k)
  {
    RemainderTimesTen(a, Pow10(k));
  }

  /** The remainder modulo `10 * P` adds the digit above `P` to the remainder modulo `P` */
  lemma RemainderTimesTen(a: nat, P: nat)
    requires P > 0
    ensures a % (10 * P) == a % P + ((a / P) % 10) * P
  {
    var q, r := a / (10 * P), a % (10 * P);
    var s, t := r / P, r % P;
    DivBelow(r, P, 10);
    Regroup(a, q, r, s, t, P);
    DivModUnique(a, P, 10 * q + s, t);
    DivModUnique(10 * q + s, 10, q, s);
  }

  /** `q * (10 * P) + (s * P + t)` regrouped around `P` */
  lemma Regroup(a: int, q: int, r: int, s: int, t: int, P: int)
    requires a == q * (10 * P) + r && r == s * P + t
    ensures a == (10 * q + s) * P + t
  {
    assert q * (10 * P) == (10 * q) * P;
    assert (10 * q + s) * P == (10 * q) * P + s * P;
  }

  /** The value of a digit sequence written least significant first */
  function DecimalValue(ds: seq<int>): int
  {
    if ds == [] then 0 else DecimalValue(ds[..|ds| - 1]) + ds[|ds| - 1] * Pow10(|ds| - 1)
  }

  /** The first `k` decimal digits of `a`, least significant first, are worth `a`
      modulo 10^k */
  lemma {:induction false} DigitsValue(a: nat, ds: seq<int>)
    requires forall p :: 0 <= p < |ds| ==> ds[p] == (a / Pow10(p)) % 10
    ensures DecimalValue(ds) == a % Pow10(|ds|)
  {
    if ds != [] {
      var k := |ds| - 1;
      DigitsValue(a, ds[..k]);
      RemainderStep(a, k);
    }
  }

  /** The numbers the positions show, least significant first */
  function Shown(states: seq<ViewState>): (ds: seq<int>)
    ensures |ds| == |states|
    ensures forall p :: 0 <= p < |states| ==> ds[p] == states[p].current
  {
    if states == [] then [] else Shown(states[..|states| - 1]) + [states[|states| - 1].current]
  }

  /** The shown digits spell the number: after an immediate bind of a number other than
      the hidden one, the positions in use show the decimal digits of `|number|`, least
      significant first, and read together they give back `|number|` */
  lemma BoundSpellsNumber(states: seq<ViewState>, number: int32, minShown: int32)
    requires number != StandardDigits.HIDE_NUMBER
    ensures var size := RequiredChildCount(number, minShown);
      var r := Bound(states, number, size, true);
      size <= |r| && DecimalValue(Shown(r)[..size]) == Abs(number)
  {
    var size := RequiredChildCount(number, minShown);
    var r := Bound(states, number, size, true);
    var a := Abs(number);
    assert size <= |r|;
    var ds := Shown(r)[..size];
    forall p | 0 <= p < size
      ensures ds[p] == (a / Pow10(p)) % 10
    {
      BoundShowsDigits(states, number, size, true, p);
    }
    DigitsValue(a, ds);
    RequiredChildCountIsFloor(number, minShown);
    BelowPowerOfLength(a);
    Pow10Monotonic(DecimalLength(a), size);
    DivModUnique(a, Pow10(size), 0, a);
  }

  /** Because the hidden number is -1, hiding a group with a minimum shown does not hide
      its positions: position 0 heads for |digit 0 of -1| = 1, and the other positions
      within the minimum head for 0 */
  lemma HideWithMinimumShowsOne(states: seq<ViewState>, minShown: int32, immediate: bool, p: nat)
    requires minShown >= 1 && p < minShown
    ensures var r := Bound(states, StandardDigits.HIDE_NUMBER, RequiredChildCount(StandardDigits.HIDE_NUMBER, minShown), immediate);
      p < |r| && r[p].next == (if p == 0 then 1 else 0)
  {
    assert RequiredChildCount(StandardDigits.HIDE_NUMBER, minShown) == minShown as nat;
    BoundShowsDigits(states, StandardDigits.HIDE_NUMBER, minShown as nat, immediate, p);
    if p > 0 {
      DivModUnique(1, Pow10(p), 0, 1);
    }
  }

  /** Without a positive minimum, hiding sends every position the group has to the
      hidden number and adds none */
  lemma HideWithoutMinimumHidesAll(states: seq<ViewState>, minShown: int32, immediate: bool)
    requires minShown <= 0
    ensures var r := Bound(states, StandardDigits.HIDE_NUMBER, RequiredChildCount(StandardDigits.HIDE_NUMBER, minShown), immediate);
      |r| == |states| && forall p :: 0 <= p < |r| ==> r[p].next == StandardDigits.HIDE_NUMBER
  {
  }

  ghost function StatesOf(cs: seq<NumberView>): (r: seq<ViewState>)
    reads cs
    ensures |r| == |cs|
    ensures forall p :: 0 <= p < |cs| ==> r[p] == cs[|cs| - 1 - p].State()
  {
    if cs == [] then [] else StatesOf(cs[1..]) + [cs[0].State()]
  }

  /** New children go in at the front of the layout, so the children of `before` are
      still there in `after`, each at the same position counted from the end */
  ghost predicate KeptInPlace(before: seq<NumberView>, after: seq<NumberView>)
    decreases |after|
  {
    if |after| <= |before| then after == before else KeptInPlace(before, after[1..])
  }

  /** What `KeptInPlace` means index by index */
  lemma {:induction false} KeptInPlaceMeans(before: seq<NumberView>, after: seq<NumberView>)
    requires KeptInPlace(before, after)
    ensures |before| <= |after|
    ensures forall p :: 0 <= p < |before| ==> after[|after| - |before| + p] == before[p]
  {
    if |after| > |before| {
      KeptInPlaceMeans(before, after[1..]);
    }
  }

  lemma {:induction false} KeptInPlaceTransitive(a: seq<NumberView>, b: seq<NumberView>, c: seq<NumberView>)
    requires KeptInPlace(a, b) && KeptInPlace(b, c)
    ensures KeptInPlace(a, c)
    decreases |c|
  {
    KeptInPlaceMeans(b, c);
    if |c| > |b| {
      KeptInPlaceTransitive(a, b, c[1..]);
    }
  }

  class NumberViewGroup {
    /** The child views in layout order: the most significant position first */
    var children: seq<NumberView>
    /** `mImmediate` */
    var immediate: bool
    /** `mMinShown` */
    var minShown: int32
    /** `mNumber` */
    var number: int32

    /** The children are distinct views, and there are no more of them than an `int`
        can count */
    ghost predicate Valid()
      reads this, children
    {
      && |children| <= INT_MAX
      && (forall i, j :: 0 <= i < j < |children| ==> children[i] != children[j])
    }

    /** The child at position `p`, counted from the least significant digit */
    function Position(p: nat): NumberView
      requires p < |children|
      reads this
    {
      children[|children| - 1 - p]
    }

    /** The state of every position, least significant first */
    ghost function States(): seq<ViewState>
      reads this, children
    {
      StatesOf(children)
    }

    /** The child views as a set: what a round of `bindViews()` may change */
    ghost function Views(): set<NumberView>
      reads this
    {
      set c | c in children
    }

    /** A group with no children, showing the hidden number, with no minimum */
    constructor ()
      ensures Valid()
      ensures children == [] && number == StandardDigits.HIDE_NUMBER && minShown == -1 && !immediate
    {
      children := [];
      immediate := false;
      minShown := -1;
      number := StandardDigits.HIDE_NUMBER;
    }

    /** `addNewChild()`: a new view, hidden at once, inserted at the front of the layout,
        so it becomes the new most significant position */
    method AddNewChild() returns (child: NumberView)
      requires Valid() && |children| < INT_MAX
      modifies this
      ensures Valid()
      ensures fresh(child) && children == [child] + old(children)
      ensures fresh(Views() - old(Views())) && KeptInPlace(old(children), children)
      ensures States() == old(States()) + [Hidden]
      ensures immediate == old(immediate) && minShown == old(minShown) && number == old(number)
    {
      child := new NumberView();
      child.HideImmediate();
      children := [child] + children;
    }

    /** `while (getChildCount() < count) addNewChild();`: new hidden positions are added
        above the existing ones until there are `count` of them */
    method GrowTo(count: int32)
      requires Valid()
      modifies this
      ensures Valid()
      ensures |children| >= |old(children)|
      ensures old(Views()) <= Views() && fresh(Views() - old(Views()))
      ensures KeptInPlace(old(children), children)
      ensures States() == Grow(old(States()), count, Hidden)
      ensures immediate == old(immediate) && minShown == old(minShown) && number == old(number)
    {
      while |children| < count
        invariant Valid()
        invariant |old(children)| <= |children|
        invariant count > |old(children)| ==> |children| <= count
        invariant count <= |old(children)| ==> |children| == |old(children)|
        invariant old(Views()) <= Views() && fresh(Views() - old(Views()))
        invariant KeptInPlace(old(children), children)
        invariant States() == Grow(old(States()), |children|, Hidden)
        invariant immediate == old(immediate) && minShown == old(minShown) && number == old(number)
        decreases count - |children|
      {
        ghost var prev := children;
        var child := AddNewChild();
        KeptInPlaceTransitive(old(children), prev, children);
      }
    }

    /** `child.advance(target)` or `child.advanceImmediate(target)` on position `p`, as
        `mImmediate` says; no other position changes */
    method AdvancePosition(p: nat, target: int32)
      requires Valid() && p < |children|
      modifies Position(p)
      ensures Valid()
      ensures States() == old(States())[p := Advanced(old(States())[p], target, immediate)]
    {
      var child := Position(p);
      if immediate {
        child.AdvanceImmediateTo(target);
      } else {
        child.AdvanceTo(target);
      }
    }

    /** `child.hide()` or `child.hideImmediate()` on position `p`, as `mImmediate` says */
    method HidePosition(p: nat)
      requires Valid() && p < |children|
      modifies Position(p)
      ensures Valid()
      ensures States() == old(States())[p := Advanced(old(States())[p], StandardDigits.HIDE_NUMBER, immediate)]
    {
      var child := Position(p);
      if immediate {
        child.HideImmediate();
      } else {
        child.Hide();
      }
    }

    /** `bindViews()`: every position below the required count is sent to its digit of
        `|mNumber|`, adding children as needed, and every position above it is hidden.
        Its two loops are `BindUsed` and `HideUnused`. */
    method BindViews()
      requires Valid()
      modifies this, Views()
      ensures Valid()
      ensures immediate == old(immediate) && minShown == old(minShown) && number == old(number)
      ensures |children| >= |old(children)|
      ensures fresh(Views() - old(Views())) && KeptInPlace(old(children), children)
      ensures States() == Bound(old(States()), number, RequiredChildCount(number, minShown), immediate)
    {
      var size := RequiredChildCount(number, minShown);
      BindUsed(size);
      BindRoundsBound(old(States()), number, size, immediate, size);
      HideUnused(size, old(States()));
      BoundBelowComplete(old(States()), States(), number, size, immediate);
    }

    /** The first loop of `bindViews()`: positions `0` to `size - 1` in turn */
    method BindUsed(size: nat)
      requires Valid() && size <= INT_MAX
      modifies this, Views()
      ensures Valid()
      ensures immediate == old(immediate) && minShown == old(minShown) && number == old(number)
      ensures fresh(Views() - old(Views())) && KeptInPlace(old(children), children)
      ensures RoundsDone(States(), old(States()), number, size, immediate, size)
    {
      ghost var before := States();
      ghost var kids := children;
      var i := 0;
      while i < size
        invariant 0 <= i <= size
        invariant Valid()
        invariant immediate == old(immediate) && minShown == old(minShown) && number == old(number)
        invariant fresh(Views() - old(Views())) && KeptInPlace(kids, children)
        invariant RoundsDone(States(), before, number, size, immediate, i)
      {
        BindPosition(i, size, before, kids);
        i := i + 1;
      }
    }

    /** One round of the first loop of `bindViews()`: add children until position `i`
        exists, then send it to its digit */
    method BindPosition(i: nat, size: nat, ghost states: seq<ViewState>, ghost kids: seq<NumberView>)
      requires Valid() && i < size <= INT_MAX
      requires RoundsDone(States(), states, number, size, immediate, i) && KeptInPlace(kids, children)
      modifies this, Views()
      ensures Valid()
      ensures immediate == old(immediate) && minShown == old(minShown) && number == old(number)
      ensures fresh(Views() - old(Views())) && KeptInPlace(kids, children)
      ensures RoundsDone(States(), states, number, size, immediate, i + 1)
    {
      GrowTo(i + 1);
      KeptInPlaceTransitive(kids, old(children), children);
      AdvancePosition(i, Abs(DigitOf(number, i)));
    }

    /** The second loop of `bindViews()`: positions from `size` up are hidden in turn */
    method HideUnused(size: nat, ghost states: seq<ViewState>)
      requires Valid()
      requires BoundBelow(states, States(), number, size, immediate, size, |children|)
      requires |children| == |Grow(states, size, Hidden)|
      modifies children
      ensures Valid() && children == old(children)
      ensures BoundBelow(states, States(), number, size, immediate, |children|, |children|)
    {
      var i := size;
      while i < |children|
        invariant size <= i <= |children|
        invariant Valid()
        invariant BoundBelow(states, States(), number, size, immediate, i, |children|)
      {
        ghost var before := States();
        HidePosition(i);
        HideStep(states, before, States(), number, size, immediate, i);
        i := i + 1;
      }
    }

    /** `getDigit(index)`: the child at position `index`, found at layout index
        `getChildCount() - index - 1` in `int` arithmetic; `getChildAt` answers `null`
        (here `None`) for any layout index out of range */
    function GetDigit(index: int32): (r: Option<NumberView>)
      requires |children| <= INT_MAX
      reads this
      ensures r.Some? <==> 0 <= index < |children|
      ensures r.Some? ==> r.value == Position(index)
    {
      var k := Wrap(|children| - index - 1);
      if 0 <= k < |children| then Some(children[k]) else None
    }

    /** `getDigits()`: a new array of the children, least significant position first,
        which is the layout order reversed */
    method GetDigits() returns (views: array<NumberView?>)
      requires |children| <= INT_MAX
      ensures fresh(views) && views.Length == |children|
      ensures forall i :: 0 <= i < |children| ==> views[i] == Position(i) == children[|children| - 1 - i]
    {
      views := new NumberView?[|children|];
      var i := 0;
      while i < |children|
        invariant 0 <= i <= |children|
        invariant forall j :: 0 <= j < i ==> views[j] == Position(j)
      {
        var child := GetDigit(i);
        views[i] := child.value;
        i := i + 1;
      }
    }

    /** `advance(number)`: show `n`, each position animating to its new digit */
    method AdvanceTo(n: int32)
      requires Valid()
      modifies this, children
      ensures Valid()
      ensures number == n && !immediate && minShown == old(minShown)
      ensures fresh(Views() - old(Views())) && KeptInPlace(old(children), children)
      ensures States() == Bound(old(States()), n, RequiredChildCount(n, minShown), false)
    {
      number := n;
      immediate := false;
      BindViews();
    }

    /** `advanceImmediate(number)`: show `n` at once */
    method AdvanceImmediateTo(n: int32)
      requires Valid()
      modifies this, children
      ensures Valid()
      ensures number == n && immediate && minShown == old(minShown)
      ensures fresh(Views() - old(Views())) && KeptInPlace(old(children), children)
      ensures States() == Bound(old(States()), n, RequiredChildCount(n, minShown), true)
    {
      number := n;
      immediate := true;
      BindViews();
    }

    /** `advance()`: animate to the successor of `mNumber`, wrapping as `int` does */
    method Advance()
      requires Valid()
      modifies this, children
      ensures Valid()
      ensures number == Wrap(old(number) + 1) && !immediate && minShown == old(minShown)
      ensures fresh(Views() - old(Views())) && KeptInPlace(old(children), children)
      ensures States() == Bound(old(States()), number, RequiredChildCount(number, minShown), false)
    {
      AdvanceTo(Wrap(number + 1));
    }

    /** `advanceImmediate()`: show the successor of `mNumber` at once */
    method AdvanceImmediate()
      requires Valid()
      modifies this, children
      ensures Valid()
      ensures number == Wrap(old(number) + 1) && immediate && minShown == old(minShown)
      ensures fresh(Views() - old(Views())) && KeptInPlace(old(children), children)
      ensures States() == Bound(old(States()), number, RequiredChildCount(number, minShown), true)
    {
      AdvanceImmediateTo(Wrap(number + 1));
    }

    /** `hide()`: `advance(HIDE_NUMBER)` */
    method Hide()
      requires Valid()
      modifies this, children
      ensures Valid()
      ensures number == StandardDigits.HIDE_NUMBER && !immediate && minShown == old(minShown)
      ensures fresh(Views() - old(Views())) && KeptInPlace(old(children), children)
      ensures States() == Bound(old(States()), number, RequiredChildCount(number, minShown), false)
    {
      AdvanceTo(StandardDigits.HIDE_NUMBER);
    }

    /** `hideImmediate()`: `advanceImmediate(HIDE_NUMBER)` */
    method HideImmediate()
      requires Valid()
      modifies this, children
      ensures Valid()
      ensures number == StandardDigits.HIDE_NUMBER && immediate && minShown == old(minShown)
      ensures fresh(Views() - old(Views())) && KeptInPlace(old(children), children)
      ensures States() == Bound(old(States()), number, RequiredChildCount(number, minShown), true)
    {
      AdvanceImmediateTo(StandardDigits.HIDE_NUMBER);
    }

    /** `setMinimumNumbersShown(minimum)`: records the minimum and adds hidden positions
        up to it; the number shown is not bound again */
    method SetMinimumNumbersShown(minimum: int32)
      requires Valid()
      modifies this
      ensures Valid()
      ensures minShown == minimum && number == old(number) && immediate == old(immediate)
      ensures old(Views()) <= Views() && fresh(Views() - old(Views()))
      ensures KeptInPlace(old(children), children)
      ensures States() == Grow(old(States()), minimum, Hidden)
    {
      minShown := minimum;
      GrowTo(minimum);
    }
  }
}
