/// The JEBDebug helpers of src/RotatingMesh/Debug.hpp: writing ranges to a
/// stream, hex dumps of byte buffers, and the accumulating CpuTimer. The
/// stream is the OStream model; the clock is passed in as explicit time
/// points.
module JEBDebug {
  import opened OStreams

  type Byte = x: int | 0 <= x < 256

  function Min(a: nat, b: nat): nat { if a <= b then a else b }

  // ---------------------------------------------------------------------
  // internal::write and internal::writePretty
  // ---------------------------------------------------------------------

  /** ", " followed by each element, for the elements after the first. */
  function Separated<T>(xs: seq<T>, show: T -> string): string
  {
    if xs == [] then [] else Separated(xs[..|xs| - 1], show) + ", " + show(xs[|xs| - 1])
  }

  /** The text internal::write produces: the elements separated by ", ". */
  function Joined<T>(xs: seq<T>, show: T -> string): string
  {
    if xs == [] then [] else show(xs[0]) + Separated(xs[1..], show)
  }

  /** internal::write: the first element, then ", " and each further one.
      `show` is the text `os << element` writes. */
  method Write<T>(os: OStream, xs: seq<T>, show: T -> string)
    modifies os
    ensures os.text == old(os.text) + Joined(xs, show)
    ensures os.fill == old(os.fill) && os.base == old(os.base)
  {
    if xs == [] {
      return;
    }
    os.Write(show(xs[0]));
    ghost var head := os.text;
    for i := 1 to |xs|
      invariant os.text == head + Separated(xs[1..i], show)
      invariant os.fill == old(os.fill) && os.base == old(os.base)
    {
      WriteSeparated(os, xs[i], show);
      SeparatedStep(xs, i, show);
      Regroup(head, Separated(xs[1..i], show), ", " + show(xs[i]), Separated(xs[1..i + 1], show));
    }
    assert xs[1..|xs|] == xs[1..];
    Regroup(old(os.text), show(xs[0]), Separated(xs[1..], show), Joined(xs, show));
  }

  /** The body of write's loop: `os << ", " << element`. */
  method WriteSeparated<T>(os: OStream, x: T, show: T -> string)
    modifies os`text
    ensures os.text == old(os.text) + (", " + show(x))
  {
    os.Write(", ");
    os.Write(show(x));
  }

  lemma SeparatedStep<T>(xs: seq<T>, i: nat, show: T -> string)
    requires 1 <= i < |xs|
    ensures Separated(xs[1..i + 1], show) == Separated(xs[1..i], show) + (", " + show(xs[i]))
  {
    assert xs[1..i + 1][..i - 1] == xs[1..i];
  }

  function TotalLength<T>(xs: seq<T>, show: T -> string): nat
  {
    if xs == [] then 0 else TotalLength(xs[..|xs| - 1], show) + |show(xs[|xs| - 1])|
  }

  function Count(s: string, c: char): nat
  {
    if s == [] then 0 else Count(s[..|s| - 1], c) + (if s[|s| - 1] == c then 1 else 0)
  }

  lemma {:induction false} CountAppend(a: string, b: string, c: char)
    ensures Count(a + b, c) == Count(a, c) + Count(b, c)
    decreases |b|
  {
    if b == [] {
      assert a + b == a;
    } else {
      assert (a + b)[..|a + b| - 1] == a + b[..|b| - 1];
      CountAppend(a, b[..|b| - 1], c);
    }
  }

  /** The separators add two characters per element after the first; when
      no element's text holds a comma, the commas in the output are exactly
      the n - 1 separators. */
  lemma {:induction false} SeparatedShape<T>(xs: seq<T>, show: T -> string)
    ensures |Separated(xs, show)| == TotalLength(xs, show) + 2 * |xs|
    ensures (forall i :: 0 <= i < |xs| ==> Count(show(xs[i]), ',') == 0) ==>
      Count(Separated(xs, show), ',') == |xs|
  {
    if xs != [] {
      var init, last := xs[..|xs| - 1], xs[|xs| - 1];
      SeparatedShape(init, show);
      CountAppend(Separated(init, show), ", ", ',');
      CountAppend(Separated(init, show) + ", ", show(last), ',');
      assert Count(", ", ',') == 1 by {
        assert ", "[..1] == ",";
        assert ","[..0] == [];
      }
      if forall i :: 0 <= i < |xs| ==> Count(show(xs[i]), ',') == 0 {
        assert forall i :: 0 <= i < |init| ==> init[i] == xs[i];
      }
    }
  }

  lemma {:induction false} TotalLengthSplit<T>(xs: seq<T>, show: T -> string)
    requires xs != []
    ensures TotalLength(xs, show) == |show(xs[0])| + TotalLength(xs[1..], show)
  {
    if |xs| > 1 {
      TotalLengthSplit(xs[..|xs| - 1], show);
      assert xs[..|xs| - 1][1..] == xs[1..][..|xs[1..]| - 1];
    } else {
      assert xs[..0] == [] && xs[1..] == [];
    }
  }

  /** write's output: every element's text plus two characters per
      separator, and exactly n - 1 commas when the elements have none. */
  lemma JoinedShape<T>(xs: seq<T>, show: T -> string)
    requires xs != []
    ensures |Joined(xs, show)| == TotalLength(xs, show) + 2 * (|xs| - 1)
    ensures (forall i :: 0 <= i < |xs| ==> Count(show(xs[i]), ',') == 0) ==>
      Count(Joined(xs, show), ',') == |xs| - 1
  {
    SeparatedShape(xs[1..], show);
    TotalLengthSplit(xs, show);
    CountAppend(show(xs[0]), Separated(xs[1..], show), ',');
    if forall i :: 0 <= i < |xs| ==> Count(show(xs[i]), ',') == 0 {
      assert forall i :: 0 <= i < |xs[1..]| ==> xs[1..][i] == xs[i + 1];
    }
  }

  /** One line of writePretty: the index right-aligned in a field of 6
      (std::setw(6)), ": ", the element and "\n\t". */
  function PrettyLine<T>(i: nat, x: T, show: T -> string, base: Base, fill: char): string
  {
    PadLeft(Digits(i, Radix(base)), 6, fill) + ": " + show(x) + "\n\t"
  }

  function Pretty<T>(xs: seq<T>, show: T -> string, base: Base, fill: char): string
  {
    if xs == [] then []
    else Pretty(xs[..|xs| - 1], show, base, fill) + PrettyLine(|xs| - 1, xs[|xs| - 1], show, base, fill)
  }

  /** internal::writePretty: one line per element, numbered from 0 in the
      stream's current base and fill. */
  method WritePretty<T>(os: OStream, xs: seq<T>, show: T -> string)
    modifies os
    ensures os.text == old(os.text) + Pretty(xs, show, old(os.base), old(os.fill))
    ensures os.fill == old(os.fill) && os.base == old(os.base)
  {
    var i := 0;
    while i < |xs|
      invariant i <= |xs|
      invariant os.text == old(os.text) + Pretty(xs[..i], show, os.base, os.fill)
      invariant os.fill == old(os.fill) && os.base == old(os.base)
    {
      WritePrettyLine(os, i, xs[i], show);
      PrettyStep(xs, i, show, os.base, os.fill);
      Regroup(old(os.text), Pretty(xs[..i], show, os.base, os.fill), PrettyLine(i, xs[i], show, os.base, os.fill),
        Pretty(xs[..i + 1], show, os.base, os.fill));
      i := i + 1;
    }
    assert xs[..|xs|] == xs;
  }

  /** The body of writePretty's loop: `stream << std::setw(6) << i << ": "
      << element << "\n\t"`. */
  method WritePrettyLine<T>(os: OStream, i: nat, x: T, show: T -> string)
    modifies os`text
    ensures os.text == old(os.text) + PrettyLine(i, x, show, os.base, os.fill)
  {
    os.WriteNumber(i, 6);
    os.Write(": ");
    os.Write(show(x));
    os.Write("\n\t");
    RegroupLine(old(os.text), PadLeft(Digits(i, Radix(os.base)), 6, os.fill), show(x));
  }

  lemma RegroupLine(before: string, tag: string, item: string)
    ensures before + tag + ": " + item + "\n\t" == before + (tag + ": " + item + "\n\t")
  {
  }

  lemma PrettyStep<T>(xs: seq<T>, i: nat, show: T -> string, base: Base, fill: char)
    requires i < |xs|
    ensures Pretty(xs[..i + 1], show, base, fill) == Pretty(xs[..i], show, base, fill) + PrettyLine(i, xs[i], show, base, fill)
  {
    assert xs[..i + 1][..i] == xs[..i];
  }

  /** In a decimal stream, an index below 10^6 fills the field of 6
      exactly, right-aligned, and reads back as the index. */
  lemma PrettyLabelFits(i: nat, fill: char)
    requires i < 1000000
    ensures |PadLeft(Digits(i, 10), 6, fill)| == 6
    ensures PadLeft(Digits(i, 10), 6, fill)[6 - |Digits(i, 10)|..] == Digits(i, 10)
    ensures Value(PadLeft(Digits(i, 10), 6, fill)[6 - |Digits(i, 10)|..], 10) == i
  {
    DigitsMonotone(i, 999999, 10);
    assert |Digits(999999, 10)| == 6;
    PadLeftShape(Digits(i, 10), 6, fill);
    DigitsRoundTrip(i, 10);
  }

  /** An index of 10^6 or more overflows the field of 6 rather than being
      cut. */
  lemma PrettyLabelOverflows(i: nat, fill: char)
    requires i >= 1000000
    ensures PadLeft(Digits(i, 10), 6, fill) == Digits(i, 10)
    ensures |Digits(i, 10)| > 6
  {
    DigitsMonotone(1000000, i, 10);
    assert |Digits(1000000, 10)| == 7;
  }

  // ---------------------------------------------------------------------
  // printHexNumbers and printCharacters
  // ---------------------------------------------------------------------

  /** One byte of the hex part: a space and the byte's two hex digits. */
  function HexCell(b: Byte): string
  {
    [' ', DigitChar(b / 16), DigitChar(b % 16)]
  }

  /** The cell is what `stream << ' ' << std::setw(2) << b` writes with the
      hex base and '0' fill. */
  lemma HexCellWritten(b: Byte)
    ensures HexCell(b) == " " + PadLeft(Digits(b, 16), 2, '0')
  {
    if b >= 16 {
      assert Digits(b, 16) == Digits(b / 16, 16) + [DigitChar(b % 16)];
    }
  }

  function HexCells(bytes: seq<Byte>): (r: string)
    ensures |r| == 3 * |bytes|
  {
    if bytes == [] then [] else HexCells(bytes[..|bytes| - 1]) + HexCell(bytes[|bytes| - 1])
  }

  /** What printHexNumbers writes: a cell for each of the first `cells`
      bytes available, three spaces for each cell past the end. */
  function HexRow(bytes: seq<Byte>, cells: nat): (r: string)
    ensures |r| == 3 * cells
  {
    var n := Min(|bytes|, cells);
    HexCells(bytes[..n]) + Repeat(' ', 3 * (cells - n))
  }

  /** With at least `cells` bytes left, the row is their cells alone. */
  lemma HexRowFull(bytes: seq<Byte>, cells: nat)
    requires cells <= |bytes|
    ensures HexRow(bytes, cells) == HexCells(bytes[..cells])
  {
    assert Repeat(' ', 0) == [];
  }

  /** internal::printHexNumbers, with `bytes` the numBytes bytes at data.
      The base and fill it sets are put back before it returns. */
  method PrintHexNumbers(os: OStream, bytes: seq<Byte>, numNumbers: nat) returns (n: nat)
    modifies os
    ensures n == Min(|bytes|, numNumbers)
    ensures os.text == old(os.text) + HexRow(bytes, numNumbers)
    ensures os.fill == old(os.fill) && os.base == old(os.base)
  {
    var flags := os.SetBase(Hex);
    var fill := os.SetFill('0');
    n := Min(|bytes|, numNumbers);
    WriteHexCells(os, bytes[..n]);
    WriteBlankCells(os, numNumbers - n);
    fill := os.SetFill(fill);
    flags := os.SetBase(flags);
  }

  /** printHexNumbers's first loop: a cell for each byte shown. */
  method WriteHexCells(os: OStream, shown: seq<Byte>)
    requires os.fill == '0' && os.base == Hex
    modifies os`text
    ensures os.text == old(os.text) + HexCells(shown)
  {
    for i := 0 to |shown|
      invariant os.text == old(os.text) + HexCells(shown[..i])
    {
      WriteHexCell(os, shown[i]);
      assert shown[..i + 1][..i] == shown[..i];
    }
    assert shown[..|shown|] == shown;
  }

  /** printHexNumbers's second loop: three spaces for each missing byte. */
  method WriteBlankCells(os: OStream, count: nat)
    modifies os`text
    ensures os.text == old(os.text) + Repeat(' ', 3 * count)
  {
    for i := 0 to count
      invariant os.text == old(os.text) + Repeat(' ', 3 * i)
    {
      os.Write("   ");
      RepeatSplit(' ', 3 * i, 3);
      assert Repeat(' ', 3) == "   ";
    }
  }

  /** One pass of printHexNumbers's first loop: `stream << ' ' << setw(2)
      << byte` with the hex base and '0' fill it set. */
  method WriteHexCell(os: OStream, b: Byte)
    requires os.fill == '0' && os.base == Hex
    modifies os`text
    ensures os.text == old(os.text) + HexCell(b)
  {
    os.Put(' ');
    os.WriteNumber(b, 2);
    HexCellWritten(b);
  }

  /** Every cell is three characters, a space and the byte's two hex digits,
      which read back as the byte. */
  lemma HexCellShape(b: Byte)
    ensures |HexCell(b)| == 3 && HexCell(b)[0] == ' '
    ensures Value(HexCell(b)[1..], 16) == b
  {
    var hi, lo := DigitChar(b / 16), DigitChar(b % 16);
    DigitRoundTrip(b / 16);
    DigitRoundTrip(b % 16);
    assert HexCell(b)[1..] == [hi, lo];
    assert Value([hi], 16) == b / 16 by {
      assert [hi][..0] == [];
    }
    assert Value([hi, lo], 16) == Value([hi], 16) * 16 + b % 16 by {
      assert [hi, lo][..1] == [hi];
    }
    DivMod(b, 16);
  }

  /** Cell j of the hex cells sits at 3j and shows byte j. */
  lemma {:induction false} HexCellsAt(bytes: seq<Byte>, j: nat)
    requires j < |bytes|
    ensures |HexCells(bytes)| == 3 * |bytes|
    ensures HexCells(bytes)[3 * j..3 * j + 3] == HexCell(bytes[j])
  {
    HexCellShape(bytes[|bytes| - 1]);
    if j < |bytes| - 1 {
      HexCellsAt(bytes[..|bytes| - 1], j);
    }
  }

  /** printHexNumbers writes exactly 3 characters per cell, and the cell of
      each byte shown reads back as that byte. */
  lemma HexRowShape(bytes: seq<Byte>, cells: nat, j: nat)
    requires j < Min(|bytes|, cells)
    ensures |HexRow(bytes, cells)| == 3 * cells
    ensures HexRow(bytes, cells)[3 * j] == ' '
    ensures Value(HexRow(bytes, cells)[3 * j + 1..3 * j + 3], 16) == bytes[j]
  {
    var n := Min(|bytes|, cells);
    HexCellsAt(bytes[..n], j);
    HexCellShape(bytes[j]);
    var row := HexRow(bytes, cells);
    assert row[3 * j..3 * j + 3] == HexCell(bytes[j]);
    assert row[3 * j + 1..3 * j + 3] == HexCell(bytes[j])[1..];
  }

  /** How printCharacters shows a byte: itself when printable ASCII, else '.'. */
  function Shown(b: Byte): char
  {
    if 32 <= b < 127 then b as char else '.'
  }

  /** The bytes as printCharacters shows them, one character each. */
  function ShownChars(bytes: seq<Byte>): (r: string)
    ensures |r| == |bytes|
  {
    if bytes == [] then [] else ShownChars(bytes[..|bytes| - 1]) + [Shown(bytes[|bytes| - 1])]
  }

  lemma {:induction false} ShownCharsAt(bytes: seq<Byte>)
    ensures forall i :: 0 <= i < |bytes| ==> ShownChars(bytes)[i] == Shown(bytes[i])
  {
    if bytes != [] {
      ShownCharsAt(bytes[..|bytes| - 1]);
    }
  }

  /** What printCharacters writes: a character for each of the first
      `cells` bytes available, a space for each cell past the end. */
  function CharRow(bytes: seq<Byte>, cells: nat): (r: string)
    ensures |r| == cells
  {
    var n := Min(|bytes|, cells);
    ShownChars(bytes[..n]) + Repeat(' ', cells - n)
  }

  /** internal::printCharacters, with `bytes` the numBytes bytes at data. */
  method PrintCharacters(os: OStream, bytes: seq<Byte>, numChars: nat) returns (n: nat)
    modifies os`text
    ensures n == Min(|bytes|, numChars)
    ensures os.text == old(os.text) + CharRow(bytes, numChars)
  {
    var i := 0;
    n := Min(|bytes|, numChars);
    while i < n
      invariant i <= n
      invariant os.text == old(os.text) + ShownChars(bytes[..i])
    {
      if 32 <= bytes[i] && bytes[i] < 127 {
        os.Put(bytes[i] as char);
      } else {
        os.Put('.');
      }
      assert bytes[..i + 1][..i] == bytes[..i];
      i := i + 1;
    }
    while i < numChars
      invariant n <= i <= numChars
      invariant os.text == old(os.text) + ShownChars(bytes[..n]) + Repeat(' ', i - n)
    {
      os.Put(' ');
      i := i + 1;
    }
  }

  /** The character part is one printable ASCII character per cell, and a
      shown byte appears as itself exactly when it is printable. */
  lemma CharRowShape(bytes: seq<Byte>, cells: nat)
    ensures |CharRow(bytes, cells)| == cells
    ensures forall i :: 0 <= i < cells ==> 32 <= CharRow(bytes, cells)[i] as int < 127
    ensures forall i :: 0 <= i < Min(|bytes|, cells) ==>
      (CharRow(bytes, cells)[i] == bytes[i] as char <==> 32 <= bytes[i] < 127)
  {
    var n := Min(|bytes|, cells);
    ShownCharsAt(bytes[..n]);
    RepeatAt(' ', cells - n);
  }

  // ---------------------------------------------------------------------
  // hexdump
  // ---------------------------------------------------------------------

  /** The lambda `digits` of hexdump: one more digit for every shift of n
      by 4 bits that leaves something, i.e. the hex digit count of n. */
  method HexDigitCount(n: nat) returns (count: nat)
    ensures count == |Digits(n, 16)|
    ensures count >= 1
  {
    count := 1;
    var m: nat := n / 16;
    while m != 0
      invariant count >= 1
      invariant m == 0 ==> count == |Digits(n, 16)|
      invariant m != 0 ==> count + |Digits(m, 16)| == |Digits(n, 16)|
      decreases m
    {
      m := m / 16;
      count := count + 1;
    }
  }

  /** The hex part of a line, from byte `start` on: for each of `halves`
      halves a space and the printHexNumbers output for the bytes left, each
      half moving on by the bytes it showed (tmpCdata in the source). */
  function HexPart(bytes: seq<Byte>, start: nat, h: nat, halves: nat): string
    requires start <= |bytes|
    decreases halves
  {
    if halves == 0 then []
    else " " + HexRow(bytes[start..], h) + HexPart(bytes, start + Min(|bytes| - start, h), h, halves - 1)
  }

  /** One hexdump line: the offset in hex, zero padded to `digits`, the hex
      part in two halves of columns/2 cells, two spaces, the character part
      of `columns` cells, and a newline. */
  function DumpLine(bytes: seq<Byte>, start: nat, columns: nat, digits: nat): string
    requires start <= |bytes|
  {
    Line(PadLeft(Digits(start, 16), digits, '0'), HexPart(bytes, start, columns / 2, 2), CharRow(bytes[start..], columns))
  }

  /** How a hexdump line lays out its offset field, its hex part and its
      character part. */
  function Line(field: string, hex: string, chars: string): string
  {
    field + hex + "  " + chars + "\n"
  }

  lemma LineShape(field: string, hex: string, chars: string)
    ensures |Line(field, hex, chars)| == |field| + |hex| + |chars| + 3
    ensures Line(field, hex, chars)[..|field|] == field
    ensures Line(field, hex, chars)[|field| + |hex| + |chars| + 2] == '\n'
  {
  }

  /** The text of a loop that, from byte `start` of `size`, writes
      line(start) and moves on by min(size - start, columns) bytes, until it
      reaches the end: hexdump's loop over its lines, for any line writer. */
  function LoopText(line: nat --> string, size: nat, columns: nat, start: nat): string
    requires columns > 0 || start >= size
    requires forall s :: start <= s < size ==> line.requires(s)
    decreases size - start
  {
    if start >= size then [] else
      line(start) + LoopText(line, size, columns, start + Min(size - start, columns))
  }

  /** The lines of one hexdump call, as a function of their offset. */
  function LineWriter(bytes: seq<Byte>, columns: nat, digits: nat): (line: nat --> string)
    ensures forall s: nat :: s <= |bytes| ==> line.requires(s) && line(s) == DumpLine(bytes, s, columns, digits)
  {
    (s: nat) requires s <= |bytes| => DumpLine(bytes, s, columns, digits)
  }

  /** The whole text hexdump writes, the offsets in as many hex digits as
      the size has. */
  function Dump(bytes: seq<Byte>, columns: nat): string
    requires columns > 0 || |bytes| == 0
  {
    LoopText(LineWriter(bytes, columns, |Digits(|bytes|, 16)|), |bytes|, columns, 0)
  }

  /** ceil(size / columns). */
  function LineCount(size: nat, columns: nat): nat
    requires columns > 0
  {
    (size + columns - 1) / columns
  }

  /** hexdump: writes the lines of Dump, then puts back the base and the
      fill it changed. Columns default to 16, as in the source. With columns == 0 and bytes to show, the source never
      advances, so the model requires columns > 0 then. */
  method Hexdump(os: OStream, bytes: seq<Byte>, columns: nat := 16)
    requires columns > 0 || |bytes| == 0
    modifies os
    ensures os.text == old(os.text) + Dump(bytes, columns)
    ensures os.fill == old(os.fill) && os.base == old(os.base)
  {
    var flags := os.SetBase(Hex);
    var fill := os.SetFill('0');
    var digits := HexDigitCount(|bytes|);
    var offset := 0;
    ghost var target := old(os.text) + Dump(bytes, columns);
    while offset != |bytes|
      invariant offset <= |bytes|
      invariant os.text + LoopText(LineWriter(bytes, columns, digits), |bytes|, columns, offset) == target
      invariant os.fill == '0' && os.base == Hex
      decreases |bytes| - offset
    {
      offset := WriteNextLine(os, bytes, offset, columns, digits);
    }
    AppendEmpty(os.text);
    fill := os.SetFill(fill);
    flags := os.SetBase(flags);
  }

  /** A pass of hexdump's loop: writes the line for `offset` and moves the
      cursor past the bytes it showed, which leaves the rest of the loop's
      text to write. */
  method WriteNextLine(os: OStream, bytes: seq<Byte>, offset: nat, columns: nat, digits: nat)
    returns (next: nat)
    requires offset < |bytes| && columns > 0
    requires os.fill == '0' && os.base == Hex
    modifies os
    ensures next == offset + Min(|bytes| - offset, columns) && next <= |bytes|
    ensures os.text + LoopText(LineWriter(bytes, columns, digits), |bytes|, columns, next)
      == old(os.text) + LoopText(LineWriter(bytes, columns, digits), |bytes|, columns, offset)
    ensures os.fill == '0' && os.base == Hex
  {
    ghost var line := LineWriter(bytes, columns, digits);
    var shown := WriteDumpLine(os, bytes, offset, columns, digits);
    next := offset + shown;
    LoopTextStep(line, |bytes|, columns, offset, next);
    Regroup(old(os.text), line(offset), LoopText(line, |bytes|, columns, next), LoopText(line, |bytes|, columns, offset));
  }

  /** The body of hexdump's loop: one line for the bytes from `offset`;
      returns how far the cursor moves. */
  method WriteDumpLine(os: OStream, bytes: seq<Byte>, offset: nat, columns: nat, digits: nat)
    returns (shown: nat)
    requires offset <= |bytes|
    requires os.fill == '0' && os.base == Hex
    modifies os
    ensures shown == Min(|bytes| - offset, columns)
    ensures os.text == old(os.text) + DumpLine(bytes, offset, columns, digits)
    ensures os.fill == '0' && os.base == Hex
  {
    os.WriteNumber(offset, digits);
    WriteHexPart(os, bytes, offset, columns / 2);
    os.Write("  ");
    shown := PrintCharacters(os, bytes[offset..], columns);
    os.Put('\n');
    LineRegroup(old(os.text), PadLeft(Digits(offset, 16), digits, '0'), HexPart(bytes, offset, columns / 2, 2),
      CharRow(bytes[offset..], columns));
  }

  /** The loop over the two halves of a line's hex part, each picking up
      where the previous one stopped. */
  method WriteHexPart(os: OStream, bytes: seq<Byte>, offset: nat, h: nat)
    requires offset <= |bytes|
    requires os.fill == '0' && os.base == Hex
    modifies os
    ensures os.text == old(os.text) + HexPart(bytes, offset, h, 2)
    ensures os.fill == '0' && os.base == Hex
  {
    var tmp: nat := offset;
    var i := 0;
    ghost var left: nat := 2;
    while i < 2
      invariant 0 <= i <= 2 && left == 2 - i && tmp <= |bytes|
      invariant os.text + HexPart(bytes, tmp, h, left) == old(os.text) + HexPart(bytes, offset, h, 2)
      invariant os.fill == '0' && os.base == Hex
    {
      tmp := WriteHexHalf(os, bytes, tmp, h, left);
      i := i + 1;
      left := left - 1;
    }
    AppendEmpty(os.text);
  }

  /** The pieces of a line appended one by one make the line. */
  lemma LineRegroup(before: string, field: string, hex: string, chars: string)
    ensures before + field + hex + "  " + chars + "\n" == before + Line(field, hex, chars)
  {
  }

  /** One pass of the loop over the two halves: a space, then
      printHexNumbers from `tmp`; returns the cursor moved past what it
      showed. What it writes is the first of the `halves` halves left. */
  method WriteHexHalf(os: OStream, bytes: seq<Byte>, tmp: nat, h: nat, ghost halves: nat) returns (next: nat)
    requires tmp <= |bytes| && halves > 0
    requires os.fill == '0' && os.base == Hex
    modifies os
    ensures next == tmp + Min(|bytes| - tmp, h) && next <= |bytes|
    ensures os.text + HexPart(bytes, next, h, halves - 1) == old(os.text) + HexPart(bytes, tmp, h, halves)
    ensures os.fill == '0' && os.base == Hex
  {
    os.Put(' ');
    var k := PrintHexNumbers(os, bytes[tmp..], h);
    next := tmp + k;
    HexPartStep(bytes, tmp, h, halves, next, halves - 1);
    RegroupPair(old(os.text), " ", HexRow(bytes[tmp..], h), HexPart(bytes, next, h, halves - 1), HexPart(bytes, tmp, h, halves));
  }

  /** A hex part is its first half and the remaining halves from where
      that half stopped. */
  lemma HexPartStep(bytes: seq<Byte>, start: nat, h: nat, halves: nat, next: nat, left: nat)
    requires start <= |bytes| && halves == left + 1 && next == start + Min(|bytes| - start, h)
    ensures next <= |bytes|
    ensures HexPart(bytes, start, h, halves) == " " + HexRow(bytes[start..], h) + HexPart(bytes, next, h, left)
  {
    assert HexPart(bytes, start, h, halves)
        == " " + HexRow(bytes[start..], h) + HexPart(bytes, start + Min(|bytes| - start, h), h, halves - 1);
  }

  lemma LoopTextStep(line: nat --> string, size: nat, columns: nat, start: nat, next: nat)
    requires start < size && columns > 0 && next == start + Min(size - start, columns)
    requires forall s :: start <= s < size ==> line.requires(s)
    ensures LoopText(line, size, columns, start) == line(start) + LoopText(line, size, columns, next)
  {
  }

  /** Appending a piece and then the rest is appending the whole. */
  lemma Regroup(before: string, piece: string, rest: string, whole: string)
    requires whole == piece + rest
    ensures before + whole == (before + piece) + rest
  {
  }

  /** The same, for a piece written in two parts. */
  lemma RegroupPair(before: string, first: string, second: string, rest: string, whole: string)
    requires whole == first + second + rest
    ensures before + whole == before + first + second + rest
  {
  }

  /** The lines of a dump cover the bytes, the last one possibly in part:
      (L - 1) * columns < size <= L * columns. */
  lemma LineCountBounds(size: nat, columns: nat)
    requires columns > 0 && size > 0
    ensures LineCount(size, columns) >= 1
    ensures (LineCount(size, columns) - 1) * columns < size <= LineCount(size, columns) * columns
  {
    var l := LineCount(size, columns);
    DivMod(size + columns - 1, columns);
    MulCommutes(columns, l);
    assert l >= 1;
    MulStep(l, columns);
  }

  /** A line takes min(rest, columns) bytes, and the line count drops by one. */
  lemma LineCountStep(rest: nat, columns: nat)
    requires columns > 0 && rest > 0
    ensures LineCount(rest, columns) == 1 + LineCount(rest - Min(rest, columns), columns)
  {
    if rest <= columns {
      DivMod(rest + columns - 1, columns);
      assert LineCount(rest - Min(rest, columns), columns) == 0;
    } else {
      DivPlusOne(rest - 1, columns);
    }
  }

  lemma DivPlusOne(x: nat, d: nat)
    requires d > 0
    ensures (x + d) / d == x / d + 1
  {
    DivMod(x, d);
    MulDistributes(d, x / d);
    DivUnique(x + d, d, x / d + 1, x % d);
  }

  /** Euclid's quotient is the only one with a remainder below d. */
  lemma DivUnique(x: nat, d: nat, q: nat, r: nat)
    requires d > 0 && x == d * q + r && r < d
    ensures x / d == q
  {
    DivMod(x, d);
    var q' := x / d;
    if q' > q {
      MulMonotone(d, q + 1, q');
      MulDistributes(d, q);
    } else if q' < q {
      MulMonotone(d, q' + 1, q);
      MulDistributes(d, q');
    }
  }

  /** (a - 1) * b + b == a * b. */
  lemma MulStep(a: nat, b: nat)
    requires a >= 1
    ensures 0 <= (a - 1) * b && (a - 1) * b + b == a * b
  {
  }

  /** Each hex half is a space and 3 characters per cell, whatever is left
      of the data. */
  lemma HexPartLength(bytes: seq<Byte>, start: nat, h: nat)
    requires start <= |bytes|
    ensures |HexPart(bytes, start, h, 2)| == 2 + 6 * h
  {
    var next := start + Min(|bytes| - start, h);
    assert |HexPart(bytes, next, h, 1)| == 1 + 3 * h;
  }

  /** The width every line of a dump has. */
  function LineWidth(columns: nat, digits: nat): nat
  {
    digits + 2 + 6 * (columns / 2) + 2 + columns + 1
  }

  /** A line of a dump whose offsets are written in at least as many hex
      digits as the size has is of the uniform width. */
  lemma DumpLineWidth(bytes: seq<Byte>, start: nat, columns: nat, digits: nat)
    requires start <= |bytes| && |Digits(|bytes|, 16)| <= digits
    ensures |DumpLine(bytes, start, columns, digits)| == LineWidth(columns, digits)
  {
    var field := PadLeft(Digits(start, 16), digits, '0');
    var hex := HexPart(bytes, start, columns / 2, 2);
    var chars := CharRow(bytes[start..], columns);
    HexPartLength(bytes, start, columns / 2);
    DigitsMonotone(start, |bytes|, 16);
    LineShape(field, hex, chars);
  }

  /** The first `digits` characters of such a line read back as its
      offset. */
  lemma DumpLineOffset(bytes: seq<Byte>, start: nat, columns: nat, digits: nat)
    requires start <= |bytes| && |Digits(|bytes|, 16)| <= digits
    ensures digits <= |DumpLine(bytes, start, columns, digits)|
    ensures Value(DumpLine(bytes, start, columns, digits)[..digits], 16) == start
  {
    var d := Digits(start, 16);
    var field := PadLeft(d, digits, '0');
    DigitsMonotone(start, |bytes|, 16);
    DigitsRoundTrip(start, 16);
    PadLeftValue(d, digits, 16);
    LineShape(field, HexPart(bytes, start, columns / 2, 2), CharRow(bytes[start..], columns));
    assert |field| == digits;
    assert DumpLine(bytes, start, columns, digits)[..digits] == field;
    assert Value(field, 16) == start;
  }

  /** Every line ends in a newline. */
  lemma DumpLineEnd(bytes: seq<Byte>, start: nat, columns: nat, digits: nat)
    requires start <= |bytes| && |Digits(|bytes|, 16)| <= digits
    ensures DumpLine(bytes, start, columns, digits)[LineWidth(columns, digits) - 1] == '\n'
  {
    DumpLineWidth(bytes, start, columns, digits);
    HexPartLength(bytes, start, columns / 2);
    DigitsMonotone(start, |bytes|, 16);
    LineShape(PadLeft(Digits(start, 16), digits, '0'), HexPart(bytes, start, columns / 2, 2), CharRow(bytes[start..], columns));
  }

  /** How many passes hexdump's loop makes over `rest` bytes: each line
      takes min(rest, columns) of them. */
  function LinesFrom(rest: nat, columns: nat): nat
    requires columns > 0
  {
    if rest == 0 then 0 else 1 + LinesFrom(rest - Min(rest, columns), columns)
  }

  /** The loop makes ceil(rest / columns) passes. */
  lemma {:induction false} LinesFromCount(rest: nat, columns: nat)
    requires columns > 0
    ensures LinesFrom(rest, columns) == LineCount(rest, columns)
  {
    if rest == 0 {
      assert LineCount(rest, columns) == 0;
    } else {
      LinesFromCount(rest - Min(rest, columns), columns);
      LineCountStep(rest, columns);
    }
  }

  lemma LinesFromStep(rest: nat, columns: nat, left: nat)
    requires columns > 0 && rest > 0 && left == rest - Min(rest, columns)
    ensures LinesFrom(rest, columns) == LinesFrom(left, columns) + 1
  {
  }

  /** The first part of an append, as a slice. */
  lemma PrefixOfAppend(text: string, first: string, tail: string, a: nat, b: nat, piece: string)
    requires text == first + tail && a == 0 && b == |first| && piece == first
    ensures b <= |text| && text[a..b] == piece
  {
    assert text[..|first|] == first;
  }

  /** A slice of an append lying in its second part is a slice of that
      part. */
  lemma SliceOfAppend(text: string, first: string, tail: string, a: nat, b: nat, a': nat, b': nat, piece: string)
    requires text == first + tail && |first| <= a <= b <= |text|
    requires a' == a - |first| && b' == b - |first| && tail[a'..b'] == piece
    ensures text[a..b] == piece
  {
    assert text[a..b] == tail[a'..b'];
  }

  /** The extent of `count` blocks of `size` laid end to end; equal to
      count * size (SpanIsProduct), but unfolding one block at a time. */
  function Span(count: nat, size: nat): nat
  {
    if count == 0 then 0 else Span(count - 1, size) + size
  }

  lemma {:induction false} SpanIsProduct(count: nat, size: nat)
    ensures Span(count, size) == count * size
  {
    if count > 0 {
      SpanIsProduct(count - 1, size);
      MulStep(count, size);
    }
  }

  /** When every line is `w` characters, the loop's text is one block of
      `w` per pass of the loop. */
  lemma {:induction false} LoopTextLength(line: nat --> string, size: nat, columns: nat, start: nat, w: nat)
    requires columns > 0 && start <= size
    requires forall s :: start <= s < size ==> line.requires(s) && |line(s)| == w
    ensures |LoopText(line, size, columns, start)| == Span(LinesFrom(size - start, columns), w)
    decreases size - start
  {
    if start < size {
      var next := start + Min(size - start, columns);
      LoopTextLength(line, size, columns, next, w);
      LinesFromStep(size - start, columns, size - next);
    }
  }

  /** With lines of `w` characters, the j-th block of `w` of the loop's
      text is the line for offset start + j * columns. */
  lemma {:induction false} LoopTextAt(line: nat --> string, size: nat, columns: nat, start: nat, w: nat, j: nat)
    requires columns > 0 && start <= size
    requires forall s :: start <= s < size ==> line.requires(s) && |line(s)| == w
    requires j < LinesFrom(size - start, columns)
    ensures start + Span(j, columns) < size
    ensures Span(j + 1, w) <= |LoopText(line, size, columns, start)|
    ensures LoopText(line, size, columns, start)[Span(j, w)..Span(j + 1, w)] == line(start + Span(j, columns))
    decreases j
  {
    var next := start + Min(size - start, columns);
    LinesFromStep(size - start, columns, size - next);
    LoopTextLength(line, size, columns, next, w);
    var first := line(start);
    var tail := LoopText(line, size, columns, next);
    assert LoopText(line, size, columns, start) == first + tail;
    if j > 0 {
      assert next == start + columns;
      LoopTextAt(line, size, columns, next, w, j - 1);
      SpanShift(j, w);
      SpanShift(j, columns);
      LaterBlock(line, LoopText(line, size, columns, start), first, tail, w, Span(j, w), Span(j + 1, w), Span(j - 1, w),
        next + Span(j - 1, columns), start + Span(j, columns));
    } else {
      assert Span(0, w) == 0 && Span(1, w) == w && start + Span(0, columns) == start;
      PrefixOfAppend(LoopText(line, size, columns, start), first, tail, Span(0, w), Span(1, w), line(start + Span(0, columns)));
    }
  }

  /** One step of LoopTextAt past the first line, on plain variables: the
      block at a' of the tail is the block at a = w + a' of the whole. */
  lemma LaterBlock(line: nat --> string, text: string, first: string, tail: string, w: nat, a: nat, b: nat, a': nat,
    s': nat, s: nat)
    requires text == first + tail && |first| == w && a == w + a' && b == a + w
    requires a <= |tail| && s' == s && line.requires(s)
    requires tail[a'..a] == line(s')
    ensures b <= |text| && text[a..b] == line(s)
  {
    SliceOfAppend(text, first, tail, a, b, a', a, line(s));
  }

  /** Dropping the first block: Span(j, size) == size + Span(j - 1, size). */
  lemma {:induction false} SpanShift(j: nat, size: nat)
    requires j > 0
    ensures Span(j, size) == size + Span(j - 1, size)
    ensures Span(j + 1, size) == size + Span(j, size)
  {
    if j > 1 {
      SpanShift(j - 1, size);
    }
  }

  /** Every line of a dump has the width of the first. */
  lemma UniformLines(bytes: seq<Byte>, columns: nat, digits: nat)
    requires |Digits(|bytes|, 16)| <= digits
    ensures forall s :: 0 <= s < |bytes| ==>
      LineWriter(bytes, columns, digits).requires(s) && |LineWriter(bytes, columns, digits)(s)| == LineWidth(columns, digits)
  {
    forall s | 0 <= s < |bytes|
      ensures LineWriter(bytes, columns, digits).requires(s) && |LineWriter(bytes, columns, digits)(s)| == LineWidth(columns, digits)
    {
      DumpLineWidth(bytes, s, columns, digits);
    }
  }

  /** hexdump of `size` bytes writes ceil(size / columns) lines, all of
      the same width. */
  lemma DumpLineCount(bytes: seq<Byte>, columns: nat)
    requires columns > 0
    ensures |Dump(bytes, columns)| == LineCount(|bytes|, columns) * LineWidth(columns, |Digits(|bytes|, 16)|)
  {
    var digits := |Digits(|bytes|, 16)|;
    var w := LineWidth(columns, digits);
    UniformLines(bytes, columns, digits);
    LoopTextLength(LineWriter(bytes, columns, digits), |bytes|, columns, 0, w);
    LinesFromCount(|bytes|, columns);
    SpanIsProduct(LineCount(|bytes|, columns), w);
  }

  /** Line j of hexdump's output, for j below ceil(size / columns), is the
      line for the bytes from offset j * columns on. */
  lemma DumpLineAt(bytes: seq<Byte>, columns: nat, j: nat)
    requires columns > 0 && j < LineCount(|bytes|, columns)
    ensures 0 <= j * columns < |bytes|
    ensures var w := LineWidth(columns, |Digits(|bytes|, 16)|);
      && 0 <= j * w <= (j + 1) * w <= |Dump(bytes, columns)|
      && Dump(bytes, columns)[j * w..(j + 1) * w] == DumpLine(bytes, j * columns, columns, |Digits(|bytes|, 16)|)
  {
    var digits := |Digits(|bytes|, 16)|;
    var w := LineWidth(columns, digits);
    UniformLines(bytes, columns, digits);
    LinesFromCount(|bytes|, columns);
    LoopTextBlock(LineWriter(bytes, columns, digits), |bytes|, columns, w, j);
  }

  /** LoopTextAt from the start, with the blocks' bounds as products. */
  lemma LoopTextBlock(line: nat --> string, size: nat, columns: nat, w: nat, j: nat)
    requires columns > 0
    requires forall s :: 0 <= s < size ==> line.requires(s) && |line(s)| == w
    requires j < LinesFrom(size, columns)
    ensures 0 <= j * columns < size
    ensures 0 <= j * w <= (j + 1) * w <= |LoopText(line, size, columns, 0)|
    ensures LoopText(line, size, columns, 0)[j * w..(j + 1) * w] == line(j * columns)
  {
    LoopTextAt(line, size, columns, 0, w, j);
    SpanIsProduct(j, w);
    SpanIsProduct(j + 1, w);
    SpanIsProduct(j, columns);
  }

  /** With an odd column count, a full line shows `columns` bytes in its
      character part but only columns - 1 in its hex part: the last byte of
      every full line never appears in hex. */
  lemma OddColumnsHideAByte(bytes: seq<Byte>, start: nat, columns: nat, h: nat)
    requires columns == 2 * h + 1 && start + columns <= |bytes|
    ensures columns / 2 == h
    ensures HexPart(bytes, start, h, 2) == " " + HexCells(bytes[start..start + h]) + " " + HexCells(bytes[start + h..start + 2 * h])
    ensures CharRow(bytes[start..], columns) == ShownChars(bytes[start..start + columns])
  {
    var mid := start + Min(|bytes| - start, h);
    var end := mid + Min(|bytes| - mid, h);
    HexPartStep(bytes, start, h, 2, mid, 1);
    HexPartStep(bytes, mid, h, 1, end, 0);
    assert mid == start + h;
    HexRowFrom(bytes, start, h);
    HexRowFrom(bytes, mid, h);
    HalvesJoin(HexPart(bytes, start, h, 2), HexRow(bytes[start..], h), HexPart(bytes, mid, h, 1),
      HexRow(bytes[mid..], h), HexPart(bytes, end, h, 0),
      HexCells(bytes[start..start + h]), HexCells(bytes[start + h..start + 2 * h]));
    CharRowFrom(bytes, start, columns);
  }

  /** With at least `cells` bytes from `start` on, printHexNumbers shows
      exactly those. */
  lemma HexRowFrom(bytes: seq<Byte>, start: nat, cells: nat)
    requires start + cells <= |bytes|
    ensures HexRow(bytes[start..], cells) == HexCells(bytes[start..start + cells])
  {
    SliceOfSlice(bytes, start, cells);
    HexRowFull(bytes[start..], cells);
  }

  /** With at least `cells` bytes from `start` on, printCharacters shows
      exactly those. */
  lemma CharRowFrom(bytes: seq<Byte>, start: nat, cells: nat)
    requires start + cells <= |bytes|
    ensures CharRow(bytes[start..], cells) == ShownChars(bytes[start..start + cells])
  {
    SliceOfSlice(bytes, start, cells);
    assert Repeat(' ', 0) == [];
    AppendEmpty(ShownChars(bytes[start..start + cells]));
  }

  /** Taking n elements after position i is the slice from i to i + n. */
  lemma SliceOfSlice(s: seq<Byte>, i: nat, n: nat)
    requires i + n <= |s|
    ensures s[i..][..n] == s[i..i + n]
  {
  }

  /** The two halves of a hex part, the second with nothing after it. */
  lemma HalvesJoin(whole: string, first: string, rest: string, second: string, tail: string, first': string, second': string)
    requires whole == " " + first + rest && rest == " " + second + tail && tail == []
    requires first == first' && second == second'
    ensures whole == " " + first' + " " + second'
  {
  }

  lemma AppendEmpty(s: string)
    ensures s + [] == s
  {
  }

  // ---------------------------------------------------------------------
  // CpuTimer
  // ---------------------------------------------------------------------

  /** CpuTimer: accumulates the time between each start() and the stop()
      after it. Time points are clock ticks passed in by the caller; the
      conversion of the total to seconds as a double is not modelled. */
  class CpuTimer {
    var startTime: int
    var accumulated: int
    var isStopped: bool

    /** The member initialisers: epoch start, nothing accumulated, stopped. */
    constructor()
      ensures startTime == 0 && accumulated == 0 && isStopped
    {
      startTime := 0;
      accumulated := 0;
      isStopped := true;
    }

    /** start(): records the time and marks the timer running. */
    method Start(now: int)
      modifies this`startTime, this`isStopped
      ensures startTime == now && !isStopped
    {
      startTime := now;
      isStopped := false;
    }

    /** stop(): adds the time since the last start(), whether or not the
        timer was running, and marks it stopped. */
    method Stop(now: int)
      modifies this`accumulated, this`isStopped
      ensures accumulated == old(accumulated) + (now - startTime) && isStopped
    {
      accumulated := accumulated + (now - startTime);
      isStopped := true;
    }

    /** seconds(): the accumulated time, plus the running interval when the
        timer is running. */
    function Seconds(now: int): (r: int)
      reads this
      ensures isStopped ==> r == accumulated
      ensures !isStopped ==> r == accumulated + (now - startTime)
      ensures now >= startTime ==> r >= accumulated
    {
      if isStopped then accumulated else accumulated + (now - startTime)
    }

    /** stopped(): true exactly when the reading is frozen at the
        accumulated total, whatever the time of reading. */
    predicate Stopped(): (b: bool)
      reads this
      ensures b <==> forall now :: Seconds(now) == accumulated
    {
      assert !isStopped ==> Seconds(startTime + 1) != accumulated;
      isStopped
    }
  }

  /** Two start/stop intervals: the timer reports their total length, at
      any later time. */
  method TimeTwoIntervals(t0: int, t1: int, t2: int, t3: int, later: int) returns (total: int)
    requires t0 <= t1 <= t2 <= t3 <= later
    ensures total == (t1 - t0) + (t3 - t2)
  {
    var timer := new CpuTimer();
    timer.Start(t0);
    timer.Stop(t1);
    timer.Start(t2);
    timer.Stop(t3);
    total := timer.Seconds(later);
  }

  /** A running timer reports the time since start() up to now, and that
      reading grows with now. */
  method ReadWhileRunning(t0: int, now: int, later: int) returns (first: int, second: int)
    requires t0 <= now <= later
    ensures first == now - t0 && second == later - t0 && first <= second
  {
    var timer := new CpuTimer();
    timer.Start(t0);
    first := timer.Seconds(now);
    second := timer.Seconds(later);
  }

  /** stop() twice without a start() between: the second stop adds the
      time since the same start() again, so the first interval is counted
      twice. */
  method StopTwice(t0: int, t1: int, t2: int) returns (total: int, stopped: bool)
    requires t0 <= t1 <= t2
    ensures total == (t1 - t0) + (t2 - t0)
    ensures t0 < t1 ==> total > t2 - t0
    ensures stopped
  {
    var timer := new CpuTimer();
    timer.Start(t0);
    timer.Stop(t1);
    timer.Stop(t2);
    total := timer.Seconds(t2);
    stopped := timer.Stopped();
  }
}
