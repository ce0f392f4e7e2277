/** The layout of a number literal's source text, and how `Number`'s
    accessors take it apart.

    A number literal is an optional `-`, the integral digits, an optional
    `.` with the fractional digits and an optional `e` with an optional
    sign and the exponent digits.  `Render` writes such a literal from its
    parts and `Assemble` builds the `Number` node the parser stores for
    it.  The accessors of `Number` compute each part's span in source
    locations and then index `raw` with those locations as they are; as
    `raw` holds only the literal's own text, that is right only for a
    literal that starts at location 0.  `RelativeSlice` and the `...Digits`
    functions below index `raw` relative to the literal's start instead,
    and take every literal apart correctly. */
module Numbers {
  import opened Wrappers
  import opened Locations
  import opened Ast

  /** The text of an exponent sign. */
  function SignText(sign: ExponentSign): (r: string)
    ensures |r| == if sign == ExponentSign.None then 0 else 1
  {
    match sign
    case Plus => "+"
    case Minus => "-"
    case None => ""
  }

  function NegativeText(isNegative: bool): string
  {
    if isNegative then "-" else ""
  }

  function FractionText(fractional: Option<string>): string
  {
    match fractional
    case Some(f) => "." + f
    case None => ""
  }

  function ExponentText(exponent: Option<(ExponentSign, string)>): string
  {
    match exponent
    case Some((sign, digits)) => "e" + SignText(sign) + digits
    case None => ""
  }

  /** The source text of a number literal with the given parts. */
  function Render(isNegative: bool, integral: string, fractional: Option<string>,
                  exponent: Option<(ExponentSign, string)>): string
  {
    NegativeText(isNegative) + integral + FractionText(fractional) + ExponentText(exponent)
  }

  /** The node the parser stores for the literal with these parts written
      at `start`: its text and the lengths of its digit runs. */
  function Assemble(start: Location, isNegative: bool, integral: string, fractional: Option<string>,
                    exponent: Option<(ExponentSign, string)>): Number
  {
    Number(start, Render(isNegative, integral, fractional, exponent), isNegative, |integral|,
           match fractional case Some(f) => Some(|f|) case None => Option.None,
           match exponent case Some((sign, digits)) => Some((sign, |digits|)) case None => Option.None)
  }

  /** Index in `raw` just past the integral digits. */
  function IntegralEndIndex(n: Number): nat
  {
    (if n.isNegative then 1 else 0) + n.integralLen
  }

  /** Index in `raw` just past the fractional digits, or past the
      integral digits when there is no fraction. */
  function FractionEndIndex(n: Number): nat
  {
    match n.fractionalLen
    case Some(f) => IntegralEndIndex(n) + 1 + f
    case None => IntegralEndIndex(n)
  }

  /** The text of `n` has the layout its lengths describe: a `-` exactly
      when it is negative, a `.` after the integral digits when there is a
      fraction, an `e` and the sign after that when there is an exponent,
      and nothing after the last digit run. */
  ghost predicate Laid(n: Number)
  {
    var i := IntegralEndIndex(n);
    var f := FractionEndIndex(n);
    |n.raw| == (match n.exponentLen case Some((s, e)) => f + 1 + |SignText(s)| + e case None => f) &&
    (n.isNegative ==> n.raw[0] == '-') &&
    (n.fractionalLen.Some? ==> n.raw[i] == '.') &&
    (n.exponentLen.Some? ==>
       n.raw[f] == 'e' && n.raw[f + 1..f + 1 + |SignText(n.exponentLen.value.0)|] == SignText(n.exponentLen.value.0))
  }

  // ---------------------------------------------------------------------
  // Where the accessors put each part, when the markers are one unit wide.

  lemma IntegralLayout(m: Metric, n: Number)
    requires m.AsciiUnit()
    ensures n.IntegralSpan(m) == Span(n.start + (if n.isNegative then 1 else 0),
                                      n.start + IntegralEndIndex(n))
  {
    assert m.charWidth('-') == 1;
  }

  lemma FractionLayout(m: Metric, n: Number)
    requires m.AsciiUnit()
    ensures n.FractionalSpan(m).Some? <==> n.fractionalLen.Some?
    ensures n.fractionalLen.Some? ==>
      n.FractionalSpan(m).value == Span(n.start + IntegralEndIndex(n) + 1, n.start + FractionEndIndex(n))
  {
    IntegralLayout(m, n);
    assert m.charWidth('.') == 1;
  }

  lemma ExponentLayout(m: Metric, n: Number)
    requires m.AsciiUnit()
    ensures n.ExponentSpan(m).Some? <==> n.exponentLen.Some?
    ensures n.exponentLen.Some? ==>
      var s := n.start + FractionEndIndex(n) + 1 + (if n.exponentLen.value.0 == ExponentSign.None then 0 else 1);
      n.ExponentSpan(m).value == Span(s, s + n.exponentLen.value.1)
    ensures n.ExponentSpan(m).Some? && n.ExponentSpan(m).value.end <= |n.raw| ==>
      n.ExponentPart(m).value.0 == n.exponentLen.value.0
  {
    IntegralLayout(m, n);
    assert m.charWidth('-') == 1 && m.charWidth('.') == 1 && m.charWidth('e') == 1;
  }

  /** Under unit-wide markers: the integral span starts one past the
      literal's start exactly when it is negative and is `integralLen`
      long; the fractional span exists exactly when `fractionalLen` does,
      starts one past the integral end and is `fractionalLen` long; the
      exponent span exists exactly when `exponentLen` does, starts past
      the fraction and its point, the `e` and one more character unless
      the sign is `None`, and is as long as `exponentLen` says; the
      exponent part carries the stored sign. */
  lemma NumberLayout(m: Metric, n: Number)
    requires m.AsciiUnit()
    ensures n.IntegralSpan(m) == Span(n.start + (if n.isNegative then 1 else 0),
                                      n.start + IntegralEndIndex(n))
    ensures n.FractionalSpan(m).Some? <==> n.fractionalLen.Some?
    ensures n.fractionalLen.Some? ==>
      n.FractionalSpan(m).value == Span(n.start + IntegralEndIndex(n) + 1, n.start + FractionEndIndex(n))
    ensures n.ExponentSpan(m).Some? <==> n.exponentLen.Some?
    ensures n.exponentLen.Some? ==>
      var s := n.start + FractionEndIndex(n) + 1 + (if n.exponentLen.value.0 == ExponentSign.None then 0 else 1);
      n.ExponentSpan(m).value == Span(s, s + n.exponentLen.value.1)
    ensures n.ExponentSpan(m).Some? && n.ExponentSpan(m).value.end <= |n.raw| ==>
      n.ExponentPart(m).value.0 == n.exponentLen.value.0
  {
    IntegralLayout(m, n);
    FractionLayout(m, n);
    ExponentLayout(m, n);
  }

  /** For a literal written in ASCII with the layout its lengths describe,
      the literal's span ends where its last part does: the exponent when
      there is one, else the fraction, else the integral digits. */
  lemma NumberEndsAtLastPart(m: Metric, n: Number)
    requires m.AsciiUnit() && IsAscii(n.raw) && Laid(n)
    ensures n.exponentLen.Some? ==> n.ExponentSpan(m).value.end == n.Span(m).end
    ensures n.exponentLen.None? && n.fractionalLen.Some? ==> n.FractionalSpan(m).value.end == n.Span(m).end
    ensures n.exponentLen.None? && n.fractionalLen.None? ==> n.IntegralEnd(m) == n.Span(m).end
  {
    NumberLayout(m, n);
    NumberWidth(m, n);
  }

  // ---------------------------------------------------------------------
  // Taking a literal apart relative to its start.

  /** The text of `raw` under `span`, counted from the literal's start. */
  function RelativeSlice(n: Number, span: Span): (r: string)
    requires n.start <= span.start <= span.end <= n.start + |n.raw|
    ensures |r| == span.end - span.start
    ensures forall i :: 0 <= i < |r| ==> r[i] == n.raw[span.start - n.start + i]
  {
    n.raw[span.start - n.start..span.end - n.start]
  }

  function IntegralDigits(m: Metric, n: Number): (r: string)
    requires n.IntegralEnd(m) <= n.start + |n.raw|
    ensures |r| == n.integralLen
  {
    RelativeSlice(n, n.IntegralSpan(m))
  }

  function FractionalDigits(m: Metric, n: Number): (r: Option<string>)
    requires n.FractionalSpan(m).Some? ==> n.FractionalSpan(m).value.end <= n.start + |n.raw|
    ensures r.Some? <==> n.fractionalLen.Some?
    ensures r.Some? ==> |r.value| == n.fractionalLen.value
  {
    match n.FractionalSpan(m)
    case Some(span) => Some(RelativeSlice(n, span))
    case None => Option.None
  }

  function ExponentDigits(m: Metric, n: Number): (r: Option<(ExponentSign, string)>)
    requires n.ExponentSpan(m).Some? ==> n.ExponentSpan(m).value.end <= n.start + |n.raw|
    ensures r.Some? <==> n.exponentLen.Some?
    ensures r.Some? ==> r.value.0 == n.exponentLen.value.0 && |r.value.1| == n.exponentLen.value.1
  {
    match n.ExponentSpan(m)
    case Some(span) => Some((n.exponentLen.value.0, RelativeSlice(n, span)))
    case None => Option.None
  }

  lemma SplitFour(s: string, a: nat, b: nat, c: nat)
    requires a <= b <= c <= |s|
    ensures s == s[..a] + s[a..b] + s[b..c] + s[c..]
  {
  }

  /** The rendered text of a literal, split at the boundaries of its parts. */
  lemma {:induction false} RenderPieces(isNegative: bool, integral: string, fractional: Option<string>,
                                        exponent: Option<(ExponentSign, string)>)
    ensures var raw := Render(isNegative, integral, fractional, exponent);
      var a := |NegativeText(isNegative)|;
      var b := a + |integral|;
      var c := b + |FractionText(fractional)|;
      |raw| == c + |ExponentText(exponent)| &&
      raw[..a] == NegativeText(isNegative) && raw[a..b] == integral &&
      raw[b..c] == FractionText(fractional) && raw[c..] == ExponentText(exponent)
  {
    var p, q, s, t := NegativeText(isNegative), integral, FractionText(fractional), ExponentText(exponent);
    var raw := p + q + s + t;
    assert raw[..|p|] == p;
    assert raw[|p|..|p| + |q|] == q;
    assert raw[|p| + |q|..|p| + |q| + |s|] == s;
    assert raw[|p| + |q| + |s|..] == t;
  }

  lemma AssembleIntegral(m: Metric, start: Location, isNegative: bool, integral: string,
                         fractional: Option<string>, exponent: Option<(ExponentSign, string)>)
    requires m.AsciiUnit()
    ensures var n := Assemble(start, isNegative, integral, fractional, exponent);
      n.IntegralEnd(m) <= n.start + |n.raw| && IntegralDigits(m, n) == integral
  {
    var n := Assemble(start, isNegative, integral, fractional, exponent);
    NumberLayout(m, n);
    RenderPieces(isNegative, integral, fractional, exponent);
    var a := |NegativeText(isNegative)|;
    assert IntegralDigits(m, n) == n.raw[a..a + |integral|];
  }

  lemma AssembleFraction(m: Metric, start: Location, isNegative: bool, integral: string,
                         fractional: Option<string>, exponent: Option<(ExponentSign, string)>)
    requires m.AsciiUnit()
    ensures var n := Assemble(start, isNegative, integral, fractional, exponent);
      (n.FractionalSpan(m).Some? ==> n.FractionalSpan(m).value.end <= n.start + |n.raw|) &&
      FractionalDigits(m, n) == fractional &&
      (fractional.Some? ==> n.raw[IntegralEndIndex(n)] == '.')
  {
    var n := Assemble(start, isNegative, integral, fractional, exponent);
    NumberLayout(m, n);
    RenderPieces(isNegative, integral, fractional, exponent);
    var raw := n.raw;
    var b := |NegativeText(isNegative)| + |integral|;
    var c := b + |FractionText(fractional)|;
    if fractional.Some? {
      var f := fractional.value;
      assert raw[b..c] == "." + f;
      assert raw[b] == raw[b..c][0] == '.';
      assert raw[b + 1..c] == raw[b..c][1..] == f;
      assert FractionalDigits(m, n) == Some(raw[b + 1..c]);
    }
  }

  lemma ExponentPieces(sign: ExponentSign, digits: string)
    ensures var e := ExponentText(Some((sign, digits)));
      var k := 1 + |SignText(sign)|;
      |e| == k + |digits| && e[0] == 'e' && e[1..k] == SignText(sign) && e[k..] == digits
  {
    var e := "e" + SignText(sign) + digits;
    assert e[1..1 + |SignText(sign)|] == SignText(sign);
    assert e[1 + |SignText(sign)|..] == digits;
  }

  /** Slicing a suffix of `s` is slicing `s` past the suffix's start. */
  lemma SliceOfSuffix(s: string, c: nat, e: string, i: nat, j: nat)
    requires c <= |s| && s[c..] == e && i <= j <= |e|
    ensures s[c + i..c + j] == e[i..j]
  {
    assert s[c..][i..j] == s[c + i..c + j];
  }

  /** The exponent text is the tail of the rendered literal. */
  lemma RenderTail(isNegative: bool, integral: string, fractional: Option<string>,
                   exponent: Option<(ExponentSign, string)>)
    ensures var raw := Render(isNegative, integral, fractional, exponent);
      var c := |NegativeText(isNegative)| + |integral| + |FractionText(fractional)|;
      |raw| == c + |ExponentText(exponent)| && raw[c..] == ExponentText(exponent)
  {
    var h := NegativeText(isNegative) + integral + FractionText(fractional);
    assert Render(isNegative, integral, fractional, exponent) == h + ExponentText(exponent);
  }

  /** Where the exponent digits are taken from, in `raw` indices. */
  lemma ExponentDigitsAt(m: Metric, n: Number, k: nat)
    requires m.AsciiUnit() && n.exponentLen.Some?
    requires k == FractionEndIndex(n) + 1 + |SignText(n.exponentLen.value.0)|
    requires k + n.exponentLen.value.1 <= |n.raw|
    ensures n.ExponentSpan(m).Some? && n.ExponentSpan(m).value.end <= n.start + |n.raw|
    ensures ExponentDigits(m, n) == Some((n.exponentLen.value.0, n.raw[k..k + n.exponentLen.value.1]))
  {
    ExponentLayout(m, n);
  }

  /** The exponent digits of a rendered literal are the end of its text. */
  lemma RenderExponentDigits(isNegative: bool, integral: string, fractional: Option<string>,
                             sign: ExponentSign, digits: string)
    ensures var raw := Render(isNegative, integral, fractional, Some((sign, digits)));
      var k := |NegativeText(isNegative)| + |integral| + |FractionText(fractional)| + 1 + |SignText(sign)|;
      k + |digits| == |raw| && raw[k..] == digits
  {
    var h := NegativeText(isNegative) + integral + FractionText(fractional) + "e" + SignText(sign);
    assert Render(isNegative, integral, fractional, Some((sign, digits))) == h + digits;
  }

  /** The fraction of an assembled literal ends where its rendered fraction does. */
  lemma AssembleFractionEnd(start: Location, isNegative: bool, integral: string,
                            fractional: Option<string>, exponent: Option<(ExponentSign, string)>)
    ensures FractionEndIndex(Assemble(start, isNegative, integral, fractional, exponent)) ==
            |NegativeText(isNegative)| + |integral| + |FractionText(fractional)|
  {
  }

  /** The exponent digits of an assembled literal sit at the end of its text. */
  lemma AssembleExponentText(start: Location, isNegative: bool, integral: string,
                             fractional: Option<string>, sign: ExponentSign, digits: string)
    ensures var n := Assemble(start, isNegative, integral, fractional, Some((sign, digits)));
      var k := FractionEndIndex(n) + 1 + |SignText(sign)|;
      n.exponentLen == Some((sign, |digits|)) && k + |digits| <= |n.raw| && n.raw[k..k + |digits|] == digits
  {
    var n := Assemble(start, isNegative, integral, fractional, Some((sign, digits)));
    RenderExponentDigits(isNegative, integral, fractional, sign, digits);
    AssembleFractionEnd(start, isNegative, integral, fractional, Some((sign, digits)));
    var k := FractionEndIndex(n) + 1 + |SignText(sign)|;
    assert n.raw[k..] == digits;
    assert n.raw[k..k + |digits|] == n.raw[k..];
  }

  lemma AssembleExponent(m: Metric, start: Location, isNegative: bool, integral: string,
                         fractional: Option<string>, exponent: Option<(ExponentSign, string)>)
    requires m.AsciiUnit()
    ensures var n := Assemble(start, isNegative, integral, fractional, exponent);
      (n.ExponentSpan(m).Some? ==> n.ExponentSpan(m).value.end <= n.start + |n.raw|) &&
      ExponentDigits(m, n) == exponent
  {
    var n := Assemble(start, isNegative, integral, fractional, exponent);
    if exponent.Some? {
      var sign, digits := exponent.value.0, exponent.value.1;
      AssembleExponentText(start, isNegative, integral, fractional, sign, digits);
      ExponentDigitsAt(m, n, FractionEndIndex(n) + 1 + |SignText(sign)|);
    } else {
      ExponentLayout(m, n);
    }
  }

  lemma AssembleMarkers(start: Location, isNegative: bool, integral: string,
                        fractional: Option<string>, exponent: Option<(ExponentSign, string)>)
    ensures var n := Assemble(start, isNegative, integral, fractional, exponent);
      |n.raw| == FractionEndIndex(n) + |ExponentText(exponent)| &&
      (exponent.Some? ==>
         var f := FractionEndIndex(n);
         var sign := exponent.value.0;
         n.raw[f] == 'e' && n.raw[f + 1..f + 1 + |SignText(sign)|] == SignText(sign))
  {
    var n := Assemble(start, isNegative, integral, fractional, exponent);
    RenderTail(isNegative, integral, fractional, exponent);
    var c := FractionEndIndex(n);
    if exponent.Some? {
      var sign := exponent.value.0;
      var e := ExponentText(exponent);
      ExponentPieces(sign, exponent.value.1);
      SliceOfSuffix(n.raw, c, e, 1, 1 + |SignText(sign)|);
      assert n.raw[c] == e[0];
    }
  }

  /** The literal written from its parts has the layout its lengths describe. */
  lemma AssembleLaid(start: Location, isNegative: bool, integral: string,
                     fractional: Option<string>, exponent: Option<(ExponentSign, string)>)
    ensures Laid(Assemble(start, isNegative, integral, fractional, exponent))
  {
    var n := Assemble(start, isNegative, integral, fractional, exponent);
    AssembleMarkers(start, isNegative, integral, fractional, exponent);
    RenderPieces(isNegative, integral, fractional, exponent);
    if isNegative {
      assert n.raw[0] == n.raw[..1][0] == '-';
    }
    if fractional.Some? {
      var b := |NegativeText(isNegative)| + |integral|;
      var c := b + |FractionText(fractional)|;
      assert n.raw[b] == n.raw[b..c][0] == '.';
    }
  }

  /** Taking apart the literal written at any start gives back its parts,
      and the literal has the layout its lengths describe. */
  lemma AssembleRoundTrip(m: Metric, start: Location, isNegative: bool, integral: string,
                          fractional: Option<string>, exponent: Option<(ExponentSign, string)>)
    requires m.AsciiUnit()
    ensures var n := Assemble(start, isNegative, integral, fractional, exponent);
      Laid(n) &&
      n.IntegralEnd(m) <= n.start + |n.raw| &&
      IntegralDigits(m, n) == integral &&
      (n.FractionalSpan(m).Some? ==> n.FractionalSpan(m).value.end <= n.start + |n.raw|) &&
      FractionalDigits(m, n) == fractional &&
      (n.ExponentSpan(m).Some? ==> n.ExponentSpan(m).value.end <= n.start + |n.raw|) &&
      ExponentDigits(m, n) == exponent
  {
    AssembleLaid(start, isNegative, integral, fractional, exponent);
    AssembleIntegral(m, start, isNegative, integral, fractional, exponent);
    AssembleFraction(m, start, isNegative, integral, fractional, exponent);
    AssembleExponent(m, start, isNegative, integral, fractional, exponent);
  }

  /** Where the fractional digits are taken from, in `raw` indices. */
  lemma FractionDigitsAt(m: Metric, n: Number)
    requires m.AsciiUnit() && n.fractionalLen.Some? && FractionEndIndex(n) <= |n.raw|
    ensures n.FractionalSpan(m).Some? && n.FractionalSpan(m).value.end <= n.start + |n.raw|
    ensures FractionalDigits(m, n) == Some(n.raw[IntegralEndIndex(n) + 1..FractionEndIndex(n)])
  {
    FractionLayout(m, n);
  }

  /** Under `Laid`, the text of the fraction is a `.` and its digits. */
  lemma LaidFractionText(n: Number)
    requires Laid(n) && n.fractionalLen.Some?
    ensures IntegralEndIndex(n) < FractionEndIndex(n) <= |n.raw|
    ensures n.raw[IntegralEndIndex(n)..FractionEndIndex(n)] ==
            FractionText(Some(n.raw[IntegralEndIndex(n) + 1..FractionEndIndex(n)]))
  {
    var i, f := IntegralEndIndex(n), FractionEndIndex(n);
    assert n.raw[i..f] == [n.raw[i]] + n.raw[i + 1..f];
  }

  lemma LaidFraction(m: Metric, n: Number)
    requires m.AsciiUnit() && Laid(n)
    ensures n.FractionalSpan(m).Some? ==> n.FractionalSpan(m).value.end <= n.start + |n.raw|
    ensures n.raw[IntegralEndIndex(n)..FractionEndIndex(n)] == FractionText(FractionalDigits(m, n))
  {
    if n.fractionalLen.Some? {
      LaidFractionText(n);
      FractionDigitsAt(m, n);
    } else {
      FractionLayout(m, n);
    }
  }

  /** Under `Laid`, the text from the end of the fraction on is the
      exponent written with the digits found at the end of `raw`. */
  lemma LaidExponentText(n: Number)
    requires Laid(n) && n.exponentLen.Some?
    ensures var f := FractionEndIndex(n);
      var sign := n.exponentLen.value.0;
      var k := f + 1 + |SignText(sign)|;
      k + n.exponentLen.value.1 == |n.raw| && n.raw[f..] == ExponentText(Some((sign, n.raw[k..])))
  {
    var f := FractionEndIndex(n);
    var k := f + 1 + |SignText(n.exponentLen.value.0)|;
    assert n.raw[f..] == [n.raw[f]] + n.raw[f + 1..k] + n.raw[k..];
  }

  lemma LaidExponent(m: Metric, n: Number)
    requires m.AsciiUnit() && Laid(n)
    ensures n.ExponentSpan(m).Some? ==> n.ExponentSpan(m).value.end <= n.start + |n.raw|
    ensures n.raw[FractionEndIndex(n)..] == ExponentText(ExponentDigits(m, n))
  {
    if n.exponentLen.Some? {
      var k := FractionEndIndex(n) + 1 + |SignText(n.exponentLen.value.0)|;
      LaidExponentText(n);
      ExponentDigitsAt(m, n, k);
      assert n.raw[k..k + n.exponentLen.value.1] == n.raw[k..];
    } else {
      ExponentLayout(m, n);
    }
  }

  lemma LaidRender(m: Metric, n: Number)
    requires m.AsciiUnit() && Laid(n)
    ensures n.IntegralEnd(m) <= n.start + |n.raw|
    ensures n.FractionalSpan(m).Some? ==> n.FractionalSpan(m).value.end <= n.start + |n.raw|
    ensures n.ExponentSpan(m).Some? ==> n.ExponentSpan(m).value.end <= n.start + |n.raw|
    ensures Render(n.isNegative, IntegralDigits(m, n), FractionalDigits(m, n), ExponentDigits(m, n)) == n.raw
  {
    NumberLayout(m, n);
    LaidFraction(m, n);
    LaidExponent(m, n);
    var i := IntegralEndIndex(n);
    var f := FractionEndIndex(n);
    var neg := if n.isNegative then 1 else 0;
    assert IntegralDigits(m, n) == n.raw[neg..i];
    assert n.raw[..neg] == NegativeText(n.isNegative);
    SplitFour(n.raw, neg, i, f);
  }

  /** The converse: a literal with the layout its lengths describe is the
      one assembled from the parts its accessors take out of it. */
  lemma LaidRoundTrip(m: Metric, n: Number)
    requires m.AsciiUnit() && Laid(n)
    ensures n.IntegralEnd(m) <= n.start + |n.raw|
    ensures n.FractionalSpan(m).Some? ==> n.FractionalSpan(m).value.end <= n.start + |n.raw|
    ensures n.ExponentSpan(m).Some? ==> n.ExponentSpan(m).value.end <= n.start + |n.raw|
    ensures Assemble(n.start, n.isNegative, IntegralDigits(m, n), FractionalDigits(m, n), ExponentDigits(m, n)) == n
  {
    LaidRender(m, n);
    var fractional := FractionalDigits(m, n);
    var exponent := ExponentDigits(m, n);
    var a := Assemble(n.start, n.isNegative, IntegralDigits(m, n), fractional, exponent);
    assert a.fractionalLen == n.fractionalLen;
    assert a.exponentLen == n.exponentLen;
  }

  /** A literal that starts at location 0 is sliced the same way by the
      accessors as written and by the relative ones. */
  lemma AccessorsAtStartZero(m: Metric, n: Number)
    requires n.start == 0
    ensures n.IntegralEnd(m) <= |n.raw| ==> n.IntegralPart(m) == IntegralDigits(m, n)
    ensures (n.FractionalSpan(m).Some? ==> n.FractionalSpan(m).value.end <= |n.raw|) ==>
      n.FractionalPart(m) == FractionalDigits(m, n)
    ensures (n.ExponentSpan(m).Some? ==> n.ExponentSpan(m).value.end <= |n.raw|) ==>
      n.ExponentPart(m) == ExponentDigits(m, n)
  {
  }

  /** The accessors as written take apart a literal that starts at
      location 0 into the parts it was written from. */
  lemma AbsoluteRoundTripAtZero(m: Metric, isNegative: bool, integral: string,
                                fractional: Option<string>, exponent: Option<(ExponentSign, string)>)
    requires m.AsciiUnit()
    ensures var n := Assemble(0, isNegative, integral, fractional, exponent);
      n.IntegralEnd(m) <= |n.raw| &&
      n.IntegralPart(m) == integral &&
      (n.FractionalSpan(m).Some? ==> n.FractionalSpan(m).value.end <= |n.raw|) &&
      n.FractionalPart(m) == fractional &&
      (n.ExponentSpan(m).Some? ==> n.ExponentSpan(m).value.end <= |n.raw|) &&
      n.ExponentPart(m) == exponent
  {
    AssembleRoundTrip(m, 0, isNegative, integral, fractional, exponent);
    AccessorsAtStartZero(m, Assemble(0, isNegative, integral, fractional, exponent));
  }

  /** The literal `1.5` written at location 1: the accessors as written
      read the decimal point as its integral part, and the span of its
      fraction runs past the end of `raw`, where slicing panics; the
      relative accessors read `1` and `5`. */
  lemma AbsoluteSliceMisreads(m: Metric)
    requires m.AsciiUnit()
    ensures var n := Assemble(1, false, "1", Some("5"), Option.None);
      n.raw == "1.5" &&
      n.IntegralEnd(m) <= |n.raw| && n.IntegralPart(m) == "." &&
      n.FractionalSpan(m).value.end > |n.raw| &&
      IntegralDigits(m, n) == "1" && FractionalDigits(m, n) == Some("5")
  {
    var n := Assemble(1, false, "1", Some("5"), Option.None);
    AssembleRoundTrip(m, 1, false, "1", Some("5"), Option.None);
    NumberLayout(m, n);
    assert n.raw == "1.5";
    assert n.IntegralSpan(m) == Span(1, 2);
  }

  /** `-12.34e-5` written at location 0: where each part lies. */
  lemma NegativeExponentExample(m: Metric)
    requires m.AsciiUnit()
    ensures var n := Assemble(0, true, "12", Some("34"), Some((ExponentSign.Minus, "5")));
      n.raw == "-12.34e-5" &&
      n.IntegralSpan(m) == Span(1, 3) &&
      n.FractionalSpan(m) == Some(Span(4, 6)) &&
      n.ExponentSpan(m) == Some(Span(8, 9)) &&
      n.Span(m) == Span(0, 9)
  {
    var n := Assemble(0, true, "12", Some("34"), Some((ExponentSign.Minus, "5")));
    NumberLayout(m, n);
    assert n.raw == "-12.34e-5";
    StrWidthAscii(m, n.raw);
  }
}
