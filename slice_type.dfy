/** Slices: the three first-word scanners, which look for the first space
    byte of a string, and the range forms `[a..b]`, `[..b]` and `[..]`.

    A `String` is an object owning a byte buffer that `clear` empties in
    place; a `&str` or `&[T]` slice is modelled by the value it denotes, a
    sequence of bytes or elements. */
module SliceType {
  import opened RustPrelude

  newtype byte = x: int | 0 <= x < 256

  /** `b' '`. */
  const SPACE: byte := 32

  // The ASCII texts of the walkthrough, as bytes.
  const HELLO: seq<byte> := [104, 101, 108, 108, 111]         // "hello"
  const WORLD: seq<byte> := [119, 111, 114, 108, 100]         // "world"
  const LITERAL: seq<byte> := [108, 105, 116, 101, 114, 97, 108]  // "literal"
  /** ", I'm your ruler!" */
  const RULER_TAIL: seq<byte> := [44, 32, 73, 39, 109, 32, 121, 111, 117, 114, 32, 114, 117, 108, 101, 114, 33]

  const HELLO_WORLD: seq<byte> := HELLO + [SPACE] + WORLD                   // "hello world"
  const HELLO_LITERAL: seq<byte> := HELLO + [SPACE] + LITERAL               // "hello literal"
  const HELLO_RULER: seq<byte> := HELLO + [SPACE] + WORLD + RULER_TAIL      // "hello world, I'm your ruler!"

  /** An owned, growable `String`, seen as its UTF-8 bytes. */
  class OwnedString {
    var bytes: seq<byte>

    /** `String::from`. */
    constructor From(b: seq<byte>)
      ensures bytes == b
    {
      bytes := b;
    }

    /** `String::len`: the length in bytes. */
    function Len(): nat
      reads this
    {
      |bytes|
    }

    /** `String::clear`: empties the buffer in place. */
    method Clear()
      modifies this
      ensures bytes == []
    {
      bytes := [];
    }
  }

  // ---------------------------------------------------------------------
  // The end of the first word

  /** Where the first word of `s` ends: the position of the first space, or
      the length of `s` when it holds no space. */
  function WordEnd(s: seq<byte>): (k: nat)
    ensures k <= |s|
    ensures forall i :: 0 <= i < k ==> s[i] != SPACE
    ensures k < |s| ==> s[k] == SPACE
  {
    if s == [] || s[0] == SPACE then 0 else 1 + WordEnd(s[1..])
  }

  /** The three facts WordEnd ensures pin it down: no other position has
      them. */
  lemma WordEndUnique(s: seq<byte>, k: nat)
    requires k <= |s|
    requires forall i :: 0 <= i < k ==> s[i] != SPACE
    requires k < |s| ==> s[k] == SPACE
    ensures k == WordEnd(s)
  {
  }

  /** The first word ends before the end of `s` exactly when `s` holds a
      space. */
  lemma WordEndBeforeEndIff(s: seq<byte>)
    ensures WordEnd(s) < |s| <==> SPACE in s
  {
    if SPACE in s {
      var j :| 0 <= j < |s| && s[j] == SPACE;
      assert WordEnd(s) <= j;
    }
  }

  /** `first_word`: the loop over `bytes.iter().enumerate()` returning the
      index of the first space, and `s.len()` when the loop runs out. */
  method FirstWord(s: OwnedString) returns (index: nat)
    ensures index == WordEnd(s.bytes)
  {
    var bytes := s.bytes;
    var i := 0;
    while i < |bytes|
      invariant i <= |bytes|
      invariant forall j :: 0 <= j < i ==> bytes[j] != SPACE
    {
      if bytes[i] == SPACE {
        WordEndUnique(bytes, i);
        return i;
      }
      i := i + 1;
    }
    WordEndUnique(bytes, |bytes|);
    return s.Len();
  }

  /** `first_word_slice`: the same loop, returning `&s[0..i]` at the first
      space and `&s[..]` when there is none. */
  method FirstWordSlice(s: OwnedString) returns (word: seq<byte>)
    ensures word == s.bytes[..WordEnd(s.bytes)]
  {
    var bytes := s.bytes;
    var i := 0;
    while i < |bytes|
      invariant i <= |bytes|
      invariant forall j :: 0 <= j < i ==> bytes[j] != SPACE
    {
      if bytes[i] == SPACE {
        WordEndUnique(bytes, i);
        return bytes[0..i];
      }
      i := i + 1;
    }
    WordEndUnique(bytes, |bytes|);
    return bytes[..];
  }

  /** `first_word_slice_as_parameter`: the scanner on a `&str` slice, so it
      serves a whole `String` (as `&s[..]`) and a string literal alike. */
  method FirstWordSliceAsParameter(s: seq<byte>) returns (word: seq<byte>)
    ensures word == s[..WordEnd(s)]
  {
    var i := 0;
    while i < |s|
      invariant i <= |s|
      invariant forall j :: 0 <= j < i ==> s[j] != SPACE
    {
      if s[i] == SPACE {
        WordEndUnique(s, i);
        return s[0..i];
      }
      i := i + 1;
    }
    WordEndUnique(s, |s|);
    return s[..];
  }

  /** The first word is a prefix of the input with no space in it, as long
      as the index `first_word` returns; it is the whole input exactly when
      the input holds no space; and when it is shorter, a space follows it. */
  lemma FirstWordShape(s: seq<byte>)
    ensures var w := s[..WordEnd(s)];
      && |w| == WordEnd(s) <= |s|
      && w <= s
      && SPACE !in w
      && (w == s <==> SPACE !in s)
      && (|w| < |s| ==> s[|w|] == SPACE)
  {
    var w := s[..WordEnd(s)];
    WordEndBeforeEndIff(s);
    if w == s {
      assert |w| == |s|;
    }
  }

  /** The first word of the first word is itself: scanning again finds no
      space and returns everything. */
  lemma FirstWordIdempotent(s: seq<byte>)
    ensures var w := s[..WordEnd(s)]; w[..WordEnd(w)] == w
  {
    var w := s[..WordEnd(s)];
    FirstWordShape(s);
    FirstWordShape(w);
  }

  // ---------------------------------------------------------------------
  // Range slices

  /** `&s[a..b]`: the elements from `a` up to, but not including, `b`. A
      range that is reversed or reaches past the end panics (`None`). */
  function Slice<T>(s: seq<T>, a: nat, b: nat): (r: Option<seq<T>>)
    ensures r.Some? <==> a <= b <= |s|
    ensures r.Some? ==> |r.value| == b - a
    ensures r.Some? ==> forall i :: 0 <= i < b - a ==> r.value[i] == s[a + i]
  {
    if a <= b <= |s| then Some(s[a..b]) else None
  }

  /** `&s[..b]`, the range with its start left out. */
  function SliceTo<T>(s: seq<T>, b: nat): (r: Option<seq<T>>)
    ensures r.Some? <==> b <= |s|
    ensures r.Some? ==> |r.value| == b && r.value <= s
  {
    if b <= |s| then Some(s[..b]) else None
  }

  /** `&s[..]`, the full range. */
  function SliceFull<T>(s: seq<T>): seq<T> {
    s[..]
  }

  /** Leaving out the start means starting at 0: `[..b]` is `[0..b]`. */
  lemma SliceToFromZero<T>(s: seq<T>, b: nat)
    ensures SliceTo(s, b) == Slice(s, 0, b)
  {
  }

  /** Leaving out both ends means the whole: `[..]` is `[0..len]` and is
      the sequence itself. */
  lemma SliceFullWhole<T>(s: seq<T>)
    ensures Slice(s, 0, |s|) == Some(SliceFull(s))
    ensures SliceFull(s) == s
  {
    assert s[0..|s|] == s[..] == s;
  }

  /** Two adjacent ranges put back together give the range spanning both. */
  lemma SliceAdjacent<T>(s: seq<T>, a: nat, m: nat, b: nat)
    requires a <= m <= b <= |s|
    ensures Slice(s, a, b) == Some(Slice(s, a, m).value + Slice(s, m, b).value)
  {
    assert s[a..b] == s[a..m] + s[m..b];
  }

  // ---------------------------------------------------------------------
  // The walkthrough in main

  /** A word followed by a space ends at that space, whatever comes after. */
  lemma {:induction false} WordEndOfWordThenSpace(w: seq<byte>, rest: seq<byte>)
    requires SPACE !in w
    ensures WordEnd(w + [SPACE] + rest) == |w|
  {
    var s := w + [SPACE] + rest;
    assert s[|w|] == SPACE;
    assert forall i :: 0 <= i < |w| ==> s[i] == w[i];
    WordEndUnique(s, |w|);
  }

  lemma WordEndExamples()
    ensures WordEnd(HELLO_WORLD) == 5
    ensures WordEnd(HELLO_LITERAL) == 5
    ensures WordEnd(HELLO_RULER) == 5
    ensures WordEnd(HELLO) == 5
    ensures WordEnd([]) == 0
  {
    WordEndOfWordThenSpace(HELLO, WORLD);
    WordEndOfWordThenSpace(HELLO, LITERAL);
    assert HELLO_RULER == HELLO + [SPACE] + (WORLD + RULER_TAIL);
    WordEndOfWordThenSpace(HELLO, WORLD + RULER_TAIL);
    WordEndBeforeEndIff(HELLO);
  }

  /** "hello world" sliced `[0..5]` and `[6..11]`; "hello" sliced `[0..2]`
      and `[..2]`; "world" sliced `[0..len]` and `[..]`; the array
      `[1, 2, 3, 4, 5]` sliced `[1..3]`; and two ranges that panic. */
  lemma SliceExamples()
    ensures Slice(HELLO_WORLD, 0, 5) == Some(HELLO)
    ensures Slice(HELLO_WORLD, 6, 11) == Some(WORLD)
    ensures Slice(HELLO, 0, 2) == SliceTo(HELLO, 2) == Some([104, 101])
    ensures Slice(WORLD, 0, |WORLD|) == Some(SliceFull(WORLD))
    ensures Slice([1, 2, 3, 4, 5], 1, 3) == Some([2, 3])
    ensures Slice(HELLO, 0, 6) == None && Slice(HELLO, 3, 2) == None
  {
    assert HELLO_WORLD[0..5] == HELLO;
    assert HELLO_WORLD[6..11] == WORLD;
    assert HELLO[0..2] == HELLO[..2] == [104, 101];
    SliceFullWhole(WORLD);
    assert [1, 2, 3, 4, 5][1..3] == [2, 3];
  }

  /** `main`'s first demonstration: the index of the end of the first word of "hello world"
      is 5, and after `s.clear()` it still is, although the string is now
      empty: the index no longer says anything about `s`. */
  method DetachedIndex() returns (index: nat, lenAfterClear: nat)
    ensures index == 5 && lenAfterClear == 0
    ensures index > lenAfterClear
  {
    var s := new OwnedString.From(HELLO_WORLD);
    index := FirstWord(s);
    WordEndExamples();
    s.Clear();
    lenAfterClear := s.Len();
  }

  /** `main`'s slice-then-clear demonstration: the first word of "hello
      world", printed before `s.clear()`, is "hello", and the string is
      empty after the clear. The word is kept as a copy; in Rust it is a
      borrow of `s`, which the borrow checker lets `clear` outlive only
      because it is no longer used. */
  method WordThenClear() returns (word: seq<byte>, after: seq<byte>)
    ensures word == HELLO && after == []
  {
    var s := new OwnedString.From(HELLO_WORLD);
    word := FirstWordSlice(s);
    WordEndExamples();
    assert HELLO_WORLD[..5] == HELLO;
    s.Clear();
    after := s.bytes;
  }

  /** `main`'s calls of `first_word_slice` on "hello world, I'm your ruler!"
      and of `first_word_slice_as_parameter` on a `String` and a literal:
      the first word of the three strings scanned
      in main is "hello" each time, whether the scanner is given the
      `String` or a slice of it or of a literal. */
  method FirstWordWalkthrough() returns (ruler: seq<byte>, world: seq<byte>, literal: seq<byte>)
    ensures ruler == world == literal == HELLO
  {
    WordEndExamples();
    var s := new OwnedString.From(HELLO_RULER);
    ruler := FirstWordSlice(s);
    assert HELLO_RULER[..5] == HELLO;
    var myString := new OwnedString.From(HELLO_WORLD);
    world := FirstWordSliceAsParameter(SliceFull(myString.bytes));
    assert HELLO_WORLD[..5] == HELLO;
    literal := FirstWordSliceAsParameter(HELLO_LITERAL);
    assert HELLO_LITERAL[..5] == HELLO;
  }
}
