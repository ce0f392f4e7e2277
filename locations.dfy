/** Source positions and ranges, as the AST uses them.

    A `Location` is an offset into the source buffer and a `Span` is the
    half-open range `start..end` between two of them.  How far a location
    advances past a character or a string depends on the unit the offsets
    count; that unit is not fixed here.  A `Metric` carries the width of
    every character in that unit and the sentinel location used where no
    content exists.  Lengths stored in a node (`LengthShort`) are counted
    in the same unit and are added to a location directly. */
module Locations {

  type Location = nat

  /** The half-open source range `start..end`. */
  datatype Span = Span(start: Location, end: Location)

  /** How locations advance: the width of each character, and the dummy
      location of the position abstraction. */
  datatype Metric = Metric(charWidth: char -> nat, dummy: Location) {

    /** The width of a string: the sum of the widths of its characters. */
    function StrWidth(s: string): nat
    {
      if s == [] then 0 else charWidth(s[0]) + StrWidth(s[1..])
    }

    /** The location just past character `c` written at `l`. */
    function AdvanceChar(l: Location, c: char): (r: Location)
      ensures r == l + StrWidth([c])
    {
      l + charWidth(c)
    }

    /** The location just past string `s` written at `l`. */
    function AdvanceStr(l: Location, s: string): Location
    {
      l + StrWidth(s)
    }

    /** Every ASCII character is one unit wide.  This holds for both byte
        and UTF-16 offsets, and it is all that the lemmas about concrete
        widths rely on. */
    ghost predicate AsciiUnit()
    {
      forall c: char :: c < 128 as char ==> charWidth(c) == 1
    }
  }

  function Min(a: Location, b: Location): Location { if a <= b then a else b }
  function Max(a: Location, b: Location): Location { if a <= b then b else a }

  /** The characters of `s` are all ASCII. */
  ghost predicate IsAscii(s: string)
  {
    forall i :: 0 <= i < |s| ==> s[i] < 128 as char
  }

  /** Advancing past `a + b` is advancing past `a`, then past `b`. */
  lemma {:induction false} StrWidthAppend(m: Metric, a: string, b: string)
    ensures m.StrWidth(a + b) == m.StrWidth(a) + m.StrWidth(b)
  {
    if a == [] {
      assert a + b == b;
    } else {
      assert (a + b)[0] == a[0];
      assert (a + b)[1..] == a[1..] + b;
      StrWidthAppend(m, a[1..], b);
    }
  }

  /** An ASCII string is as wide as it is long. */
  lemma {:induction false} StrWidthAscii(m: Metric, s: string)
    requires m.AsciiUnit() && IsAscii(s)
    ensures m.StrWidth(s) == |s|
  {
    if s != [] {
      assert m.charWidth(s[0]) == 1;
      StrWidthAscii(m, s[1..]);
    }
  }
}
