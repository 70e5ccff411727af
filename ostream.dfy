/// The part of a C++ std::ostream that the JEBDebug helpers rely on: the
/// text written so far, the fill character, the integer base (the
/// basefield flags), and the field width of `std::setw`, which pads the
/// next number on the left with the fill character.
module OStreams {

  /** The basefield of the stream's flags. */
  datatype Base = Dec | Hex | Oct

  function Radix(base: Base): (r: nat)
    ensures r == 8 || r == 10 || r == 16
  {
    match base
    case Dec => 10
    case Hex => 16
    case Oct => 8
  }

  /** The digit characters 0-9 and a-f, lower case as the stream writes
      them without the uppercase flag. */
  function DigitChar(d: nat): char
    requires d < 16
  {
    if d < 10 then '0' + d as char else 'a' + (d - 10) as char
  }

  /** The value of a digit character, the inverse of DigitChar. */
  function DigitValue(c: char): nat
  {
    if '0' <= c <= '9' then (c - '0') as nat
    else if 'a' <= c <= 'f' then (c - 'a') as nat + 10
    else 0
  }

  lemma DigitRoundTrip(d: nat)
    requires d < 16
    ensures DigitValue(DigitChar(d)) == d
  {
  }

  /** The digits of x in the given radix, most significant first, without
      leading zeros: the text `os << x` writes. */
  function Digits(x: nat, radix: nat): (r: string)
    requires 2 <= radix <= 16
    ensures 1 <= |r|
  {
    if x < radix then [DigitChar(x)]
    else Digits(x / radix, radix) + [DigitChar(x % radix)]
  }

  /** A single digit exactly for the numbers below the radix. */
  lemma SingleDigit(x: nat, radix: nat)
    requires 2 <= radix <= 16
    ensures x < radix <==> |Digits(x, radix)| == 1
  {
  }

  /** The number a digit string denotes. */
  function Value(s: string, radix: nat): nat
  {
    if s == [] then 0 else Value(s[..|s| - 1], radix) * radix + DigitValue(s[|s| - 1])
  }

  /** Reading the digits back gives the number. */
  lemma {:induction false} DigitsRoundTrip(x: nat, radix: nat)
    requires 2 <= radix <= 16
    ensures Value(Digits(x, radix), radix) == x
  {
    if x < radix {
      DigitRoundTrip(x);
      assert Digits(x, radix)[..0] == [];
    } else {
      DivShrinks(x, radix);
      DigitsRoundTrip(x / radix, radix);
      ValueOfDigitsStep(x, radix);
    }
  }

  lemma DivShrinks(x: nat, radix: nat)
    requires 2 <= radix <= x
    ensures 1 <= x / radix < x
  {
  }

  /** The last digit of x contributes x % radix, the others x / radix. */
  lemma ValueOfDigitsStep(x: nat, radix: nat)
    requires 2 <= radix <= x && radix <= 16
    requires Value(Digits(x / radix, radix), radix) == x / radix
    ensures Value(Digits(x, radix), radix) == x
  {
    var r, q, d := Digits(x, radix), x / radix, x % radix;
    DivMod(x, radix);
    DigitRoundTrip(d);
    assert r[..|r| - 1] == Digits(q, radix);
    assert DigitValue(r[|r| - 1]) == d;
    calc {
      Value(r, radix);
      Value(Digits(q, radix), radix) * radix + d;
      q * radix + d;
      { MulCommutes(q, radix); }
      x;
    }
  }

  /** Leading zeros do not change the value. */
  lemma {:induction false} LeadingZeros(k: nat, s: string, radix: nat)
    ensures Value(Repeat('0', k) + s, radix) == Value(s, radix)
    decreases |s|
  {
    if s == [] {
      ZerosValue(k, radix);
      assert Repeat('0', k) + s == Repeat('0', k);
    } else {
      var t := Repeat('0', k) + s;
      assert t[..|t| - 1] == Repeat('0', k) + s[..|s| - 1];
      LeadingZeros(k, s[..|s| - 1], radix);
    }
  }

  lemma {:induction false} ZerosValue(k: nat, radix: nat)
    ensures Value(Repeat('0', k), radix) == 0
  {
    if k > 0 {
      assert Repeat('0', k)[..k - 1] == Repeat('0', k - 1);
      ZerosValue(k - 1, radix);
    }
  }

  function Pow(radix: nat, k: nat): nat
  {
    if k == 0 then 1 else radix * Pow(radix, k - 1)
  }

  /** x has exactly |Digits(x)| digits: it lies between radix^(len-1)
      (or is 0 when len is 1) and radix^len. */
  lemma {:induction false} DigitsLength(x: nat, radix: nat)
    requires 2 <= radix <= 16
    ensures x < Pow(radix, |Digits(x, radix)|)
    ensures |Digits(x, radix)| > 1 ==> Pow(radix, |Digits(x, radix)| - 1) <= x
  {
    if x >= radix {
      DivShrinks(x, radix);
      DigitsLength(x / radix, radix);
      DigitsLengthStep(x, radix);
    }
  }

  lemma DigitsLengthStep(x: nat, radix: nat)
    requires 2 <= radix <= x && radix <= 16
    requires x / radix < Pow(radix, |Digits(x / radix, radix)|)
    requires |Digits(x / radix, radix)| > 1 ==> Pow(radix, |Digits(x / radix, radix)| - 1) <= x / radix
    ensures x < Pow(radix, |Digits(x, radix)|)
    ensures Pow(radix, |Digits(x, radix)| - 1) <= x
  {
    var q, d := x / radix, x % radix;
    DivMod(x, radix);
    var k := |Digits(q, radix)|;
    assert |Digits(x, radix)| == k + 1;
    assert Pow(radix, k + 1) == radix * Pow(radix, k);
    MulMonotone(radix, q + 1, Pow(radix, k));
    MulDistributes(radix, q);
    assert x < radix * (q + 1);
    if k > 1 {
      assert Pow(radix, k) == radix * Pow(radix, k - 1);
      MulMonotone(radix, Pow(radix, k - 1), q);
    } else {
      assert Pow(radix, k) == radix;
      MulMonotone(radix, 1, q);
    }
  }

  /** Euclid's division of x by the radix. */
  lemma DivMod(x: nat, radix: nat)
    requires radix > 0
    ensures x == radix * (x / radix) + x % radix
    ensures 0 <= x % radix < radix
  {
  }

  lemma MulCommutes(a: nat, b: nat)
    ensures a * b == b * a
  {
  }

  lemma MulDistributes(a: nat, b: nat)
    ensures a * (b + 1) == a * b + a
  {
  }

  lemma MulMonotone(c: nat, a: nat, b: nat)
    requires a <= b
    ensures c * a <= c * b
  {
  }

  /** A larger number never has fewer digits. */
  lemma {:induction false} DigitsMonotone(x: nat, y: nat, radix: nat)
    requires 2 <= radix <= 16
    requires x <= y
    ensures |Digits(x, radix)| <= |Digits(y, radix)|
  {
    if x >= radix {
      DivMonotone(x, y, radix);
      DivShrinks(x, radix);
      DigitsMonotone(x / radix, y / radix, radix);
      assert Digits(x, radix) == Digits(x / radix, radix) + [DigitChar(x % radix)];
      assert Digits(y, radix) == Digits(y / radix, radix) + [DigitChar(y % radix)];
    }
  }

  lemma DivMonotone(x: nat, y: nat, d: nat)
    requires x <= y && d > 0
    ensures x / d <= y / d
  {
    DivMod(x, d);
    DivMod(y, d);
    if x / d > y / d {
      MulMonotone(d, y / d + 1, x / d);
    }
  }

  function Repeat(c: char, k: nat): (r: string)
    ensures |r| == k
  {
    if k == 0 then [] else Repeat(c, k - 1) + [c]
  }

  lemma {:induction false} RepeatAt(c: char, k: nat)
    ensures forall i :: 0 <= i < k ==> Repeat(c, k)[i] == c
  {
    if k > 0 {
      RepeatAt(c, k - 1);
    }
  }

  lemma {:induction false} RepeatSplit(c: char, a: nat, b: nat)
    ensures Repeat(c, a + b) == Repeat(c, a) + Repeat(c, b)
  {
    if b > 0 {
      RepeatSplit(c, a, b - 1);
    }
  }

  /** The effect of setw(width) on the next number: the text is padded on
      the left with the fill character up to `width`, and never cut. */
  function PadLeft(s: string, width: nat, fill: char): string
  {
    if |s| < width then Repeat(fill, width - |s|) + s else s
  }

  lemma PadLeftShape(s: string, width: nat, fill: char)
    ensures |PadLeft(s, width, fill)| == if |s| < width then width else |s|
    ensures PadLeft(s, width, fill)[|PadLeft(s, width, fill)| - |s|..] == s
    ensures forall i :: 0 <= i < |PadLeft(s, width, fill)| - |s| ==> PadLeft(s, width, fill)[i] == fill
  {
    if |s| < width {
      RepeatAt(fill, width - |s|);
    }
  }

  /** Zero fill on the left does not change the value a number's digits
      denote. */
  lemma PadLeftValue(s: string, width: nat, radix: nat)
    ensures Value(PadLeft(s, width, '0'), radix) == Value(s, radix)
  {
    if |s| < width {
      LeadingZeros(width - |s|, s, radix);
    }
  }

  /** An output stream: what has been written and the formatting state. */
  class OStream {
    var text: string
    var fill: char
    var base: Base

    /** A fresh stream: fill ' ', decimal. */
    constructor()
      ensures text == [] && fill == ' ' && base == Dec
    {
      text := [];
      fill := ' ';
      base := Dec;
    }

    /** stream.put(c). */
    method Put(c: char)
      modifies this`text
      ensures text == old(text) + [c]
    {
      text := text + [c];
    }

    /** stream << s for a string. */
    method Write(s: string)
      modifies this`text
      ensures text == old(text) + s
    {
      text := text + s;
    }

    /** stream << std::setw(width) << x for an unsigned x (width 0 for no
        setw): the digits in the current base, padded with the fill. */
    method WriteNumber(x: nat, width: nat)
      modifies this`text
      ensures text == old(text) + PadLeft(Digits(x, Radix(base)), width, fill)
    {
      text := text + PadLeft(Digits(x, Radix(base)), width, fill);
    }

    /** stream.setf(b, std::ios::basefield), which returns the previous
        base, and stream.flags(previous), which puts it back. */
    method SetBase(b: Base) returns (previous: Base)
      modifies this`base
      ensures base == b && previous == old(base)
    {
      previous := base;
      base := b;
    }

    /** stream.fill(c): sets the fill character, returns the previous one. */
    method SetFill(c: char) returns (previous: char)
      modifies this`fill
      ensures fill == c && previous == old(fill)
    {
      previous := fill;
      fill := c;
    }
  }
}
