/** `Digits`: the process-wide registry from a glyph's character to the glyph.
    The static `DIGITS` map is modelled as the one instance of `Registry`, and the
    static initialiser as its constructor, which registers a list of glyphs in order. */
module Digits {
  import opened Java
  import Glyphs

  /** `Map.get`: the glyph stored under `c`, or `None` (Java's `null`) */
  function Lookup(m: map<char, Glyphs.Digit>, c: char): Option<Glyphs.Digit>
  {
    if c in m then Some(m[c]) else None
  }

  /** The map after `register` is called on each glyph of `ds`, in order, starting from `m` */
  function RegisterAll(m: map<char, Glyphs.Digit>, ds: seq<Glyphs.Digit>): map<char, Glyphs.Digit>
  {
    if ds == [] then m
    else
      var last := ds[|ds| - 1];
      RegisterAll(m, ds[..|ds| - 1])[last.ch := last]
  }

  /** The last glyph of `ds` whose character is `c` */
  function LastFor(ds: seq<Glyphs.Digit>, c: char): (r: Option<Glyphs.Digit>)
    ensures r.Some? ==> r.value in ds && r.value.ch == c
    ensures r.None? <==> forall i :: 0 <= i < |ds| ==> ds[i].ch != c
    ensures r.Some? ==> exists i :: 0 <= i < |ds| && ds[i] == r.value && forall j :: i < j < |ds| ==> ds[j].ch != c
  {
    if ds == [] then None
    else if ds[|ds| - 1].ch == c then Some(ds[|ds| - 1])
    else
      var init := ds[..|ds| - 1];
      var r := LastFor(init, c);
      assert forall i :: 0 <= i < |init| ==> init[i] == ds[i];
      assert r.Some? ==> exists i :: 0 <= i < |ds| && ds[i] == r.value && forall j :: i < j < |ds| ==> ds[j].ch != c by {
        if r.Some? {
          var i :| 0 <= i < |init| && init[i] == r.value && forall j :: i < j < |init| ==> init[j].ch != c;
          assert forall j :: i < j < |ds| ==> ds[j].ch != c;
        }
      }
      r
  }

  /** Last write wins: after registering `ds`, each character maps to the last glyph
      registered for it, and characters no glyph of `ds` reports keep their old entry */
  lemma {:induction false} RegisterAllLastWins(m: map<char, Glyphs.Digit>, ds: seq<Glyphs.Digit>, c: char)
    ensures Lookup(RegisterAll(m, ds), c) == if LastFor(ds, c).Some? then LastFor(ds, c) else Lookup(m, c)
  {
    if ds != [] {
      RegisterAllLastWins(m, ds[..|ds| - 1], c);
    }
  }

  /** Every entry of the registry is stored under the character its glyph reports */
  ghost predicate KeyedByChar(m: map<char, Glyphs.Digit>)
  {
    forall c :: c in m ==> m[c].ch == c
  }

  class Registry {
    /** `DIGITS` */
    var entries: map<char, Glyphs.Digit>

    ghost predicate Valid()
      reads this
    {
      KeyedByChar(entries)
    }

    /** The static initialiser: registers each of `initial` in turn */
    constructor (initial: seq<Glyphs.Digit>)
      ensures Valid()
      ensures entries == RegisterAll(map[], initial)
    {
      entries := map[];
      new;
      var i := 0;
      while i < |initial|
        invariant 0 <= i <= |initial|
        invariant Valid()
        invariant entries == RegisterAll(map[], initial[..i])
      {
        assert initial[..i + 1][..i] == initial[..i];
        Register(initial[i]);
        i := i + 1;
      }
      assert initial[..i] == initial;
    }

    /** `register(digit)`: store the glyph under its own character, replacing any
        earlier glyph for that character; every other character keeps its glyph.
        The warning logged on replacement is not modelled. */
    method Register(digit: Glyphs.Digit)
      requires Valid()
      modifies this
      ensures Valid()
      ensures entries == old(entries)[digit.ch := digit]
      ensures ForChar(digit.ch) == Some(digit)
      ensures forall c :: c != digit.ch ==> ForChar(c) == old(ForChar(c))
    {
      entries := entries[digit.ch := digit];
    }

    /** `forChar(c)`: the glyph registered for `c`, which reports `c` as its character,
        or `None` when nothing was registered for `c` */
    function ForChar(c: char): (r: Option<Glyphs.Digit>)
      requires Valid()
      reads this
      ensures r.Some? <==> c in entries
      ensures r.Some? ==> r.value == entries[c] && r.value.ch == c
    {
      Lookup(entries, c)
    }

    /** `empty()`: the glyph registered for `'\0'` */
    function Empty(): (r: Option<Glyphs.Digit>)
      requires Valid()
      reads this
      ensures r == ForChar('\0')
      ensures r.Some? ==> r.value.ch == '\0'
    {
      ForChar('\0')
    }

    /** `forInt(digit)`: throws `IllegalArgumentException` outside 0..9, and otherwise
        looks up the digit's character `'0' + digit` */
    function ForInt(digit: int): (r: Result<Option<Glyphs.Digit>>)
      requires Valid()
      reads this
      ensures r.Throws? <==> digit < 0 || digit > 9
      ensures r.Throws? ==> r.error == IllegalArgument
      ensures r.Ok? ==> r.value == ForChar(('0' as int + digit) as char)
      ensures r.Ok? && r.value.Some? ==> r.value.value.ch as int - '0' as int == digit
    {
      if digit < 0 || digit > 9 then Throws(IllegalArgument)
      else Ok(ForChar(('0' as int + digit) as char))
    }
  }
}
