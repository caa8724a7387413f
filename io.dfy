/** Console output and keyboard line input (src/io.cpp): print_char's cursor
    and cell updates, number formatting, the scancode tables and the line
    editor of `input`. */
module Io {
  import opened Bytes
  import opened Screens
  import opened Arena
  import opened Vectors

  // ---------------------------------------------------------------------
  // print_char

  /** VGA_COLOR_LIGHT_RED, used for "[Invalid Base]". */
  const LightRed := 12
  const U16Limit := 0x1_0000

  /** Screen contents with the cursor, as print_char sees them. */
  datatype Display = Display(cells: seq<Cell>, x: nat, y: nat)
  {
    ghost predicate Wf()
    {
      |cells| >= ScreenCells && x < U16Limit && y < U16Limit
    }

    /** The cursor is on the screen. */
    ghost predicate OnScreen()
    {
      x < Width && y < Height
    }
  }

  ghost function Snapshot(screen: Screen): Display
    reads screen, screen.cells
  {
    Display(screen.cells[..], screen.cursorX, screen.cursorY)
  }

  /** ASCII characters only: the cell write does not sign-extend. */
  predicate Ascii(c: char)
  {
    c as int < 128
  }

  /** `cursor++` on a uint16_t. */
  function Inc16(v: nat): nat
  {
    (v + 1) % U16Limit
  }

  /** (uint16_t)((color << 8) | c) for an ASCII character. */
  function Glyph(color: nat, c: char): Cell
    requires Ascii(c)
  {
    (color % 256) * 256 + c as int
  }

  /** The check print_char repeats: past the last row, scroll and park on it. */
  function FixRow(d: Display): (r: Display)
    requires d.Wf()
    ensures r.Wf() && |r.cells| == |d.cells| && r.x == d.x && r.y < U16Limit
  {
    if d.y >= Height then Display(Scrolled(d.cells), d.x, Height - 1) else d
  }

  /** The effect of print_char(c, inplace, color). */
  function PutChar(d: Display, c: char, inplace: bool, color: nat): (r: Display)
    requires d.Wf() && Ascii(c)
    ensures r.Wf() && |r.cells| == |d.cells| && r.OnScreen()
    decreases if c == '\t' then 1 else 0, 0
  {
    if c == '\n' then FixRow(Display(d.cells, 0, Inc16(d.y)))
    else if c == '\t' then Spaces(d, 4 - d.x % 4, color)
    else FixRow(PlaceGlyph(d, c, inplace, color))
  }

  /** print_char for any other character, up to the final row check: bring
      the cursor onto the screen, write the cell, advance unless in place. */
  function PlaceGlyph(d: Display, c: char, inplace: bool, color: nat): (r: Display)
    requires d.Wf() && Ascii(c)
    ensures r.Wf() && |r.cells| == |d.cells|
  {
    var d1 := FixRow(d);
    var d2 := if d1.x >= Width then FixRow(Display(d1.cells, 0, Inc16(d1.y))) else d1;
    var d3 := Display(d2.cells[CellIndex(d2.y, d2.x) := Glyph(color, c)], d2.x, d2.y);
    if inplace then d3
    else if d3.x + 1 >= Width then Display(d3.cells, 0, Inc16(d3.y))
    else Display(d3.cells, d3.x + 1, d3.y)
  }

  /** k calls of print_char(' ', false, color), as the tab branch makes. */
  function Spaces(d: Display, k: nat, color: nat): (r: Display)
    requires d.Wf()
    ensures r.Wf() && |r.cells| == |d.cells|
    ensures k > 0 ==> r.OnScreen()
    decreases 0, k
  {
    if k == 0 then d else PutChar(Spaces(d, k - 1, color), ' ', false, color)
  }

  /** '\n' returns the cursor to column 0 of the next row, scrolling when it
      was on the last row. */
  lemma NewlineMovesDown(d: Display, color: nat)
    requires d.Wf() && d.OnScreen()
    ensures var r := PutChar(d, '\n', false, color);
            && r.x == 0
            && (d.y < Height - 1 ==> r.y == d.y + 1 && r.cells == d.cells)
            && (d.y == Height - 1 ==> r.y == Height - 1 && r.cells == Scrolled(d.cells))
  {
  }

  /** Spaces that stay inside the row just move the cursor right. */
  lemma {:induction false} SpacesAdvance(d: Display, k: nat, color: nat)
    requires d.Wf() && d.OnScreen() && d.x + k < Width
    ensures Spaces(d, k, color).x == d.x + k && Spaces(d, k, color).y == d.y
    decreases k
  {
    if k > 0 {
      SpacesAdvance(d, k - 1, color);
    }
  }

  /** A tab moves the cursor to the next multiple of 4, wrapping to column 0
      of the next row at the end of a row. */
  lemma TabToNextStop(d: Display, color: nat)
    requires d.Wf() && d.OnScreen()
    ensures var r := PutChar(d, '\t', false, color);
            && r.x == ((d.x / 4) + 1) * 4 % Width
            && (d.x < Width - 4 ==> r.y == d.y)
            && (d.x >= Width - 4 && d.y < Height - 1 ==> r.y == d.y + 1)
  {
    var k := 4 - d.x % 4;
    TabStop(d.x);
    SpacesAdvance(d, k - 1, color);
    var before := Spaces(d, k - 1, color);
    GlyphWritten(before, ' ', false, color);
    assert PutChar(d, '\t', false, color) == PutChar(before, ' ', false, color);
  }

  /** The column a tab from column x ends on: 4 - x % 4 steps reach the next
      multiple of 4, which is the row's end at most. */
  lemma TabStop(x: nat)
    requires x < Width
    ensures var stop := ((x / 4) + 1) * 4;
            && x + (4 - x % 4) == stop <= Width
            && stop % Width == (if stop < Width then stop else 0)
  {
  }

  /** Any other character is written at the cursor in the given colour; the
      cursor then moves right (unless in place), wrapping and scrolling at the
      end of the screen. */
  lemma GlyphWritten(d: Display, c: char, inplace: bool, color: nat)
    requires d.Wf() && d.OnScreen() && Ascii(c) && c != '\n' && c != '\t'
    ensures var r := PutChar(d, c, inplace, color);
            var written := d.cells[CellIndex(d.y, d.x) := Glyph(color, c)];
            && (inplace ==> r == Display(written, d.x, d.y))
            && (!inplace && d.x < Width - 1 ==> r == Display(written, d.x + 1, d.y))
            && (!inplace && d.x == Width - 1 && d.y < Height - 1 ==> r == Display(written, 0, d.y + 1))
            && (!inplace && d.x == Width - 1 && d.y == Height - 1 ==> r == Display(Scrolled(written), 0, Height - 1))
  {
  }

  method PrintChar(screen: Screen, c: char, inplace: bool, color: nat)
    requires screen.Valid() && Ascii(c)
    modifies screen, screen.cells
    ensures screen.Valid()
    ensures Snapshot(screen) == PutChar(old(Snapshot(screen)), c, inplace, color)
    decreases if c == '\t' then 1 else 0
  {
    if c == '\n' {
      screen.cursorX := 0;
      screen.cursorY := Inc16(screen.cursorY);
    } else if c == '\t' {
      var spacesToAdd := 4 - screen.cursorX % 4;
      ghost var start := Snapshot(screen);
      var i := 0;
      while i < spacesToAdd
        invariant 0 <= i <= spacesToAdd
        invariant screen.Valid()
        invariant Snapshot(screen) == Spaces(start, i, color)
      {
        PrintChar(screen, ' ', false, color);
        i := i + 1;
      }
      return;
    } else {
      WriteGlyph(screen, c, inplace, color);
    }
    FixCursorRow(screen);
  }

  /** The check print_char makes at its end: past the last row, scroll and
      move the cursor to the last row. */
  method FixCursorRow(screen: Screen)
    requires screen.Valid()
    modifies screen, screen.cells
    ensures screen.Valid() && Snapshot(screen) == FixRow(old(Snapshot(screen)))
  {
    if screen.cursorY >= Height {
      ScrollScreen(screen.cells);
      screen.cursorY := Height - 1;
    }
  }

  /** The branch of print_char for any other character, before its final
      row check. */
  method WriteGlyph(screen: Screen, c: char, inplace: bool, color: nat)
    requires screen.Valid() && Ascii(c)
    modifies screen, screen.cells
    ensures screen.Valid()
    ensures Snapshot(screen) == PlaceGlyph(old(Snapshot(screen)), c, inplace, color)
  {
    FixCursorRow(screen);
    if screen.cursorX >= Width {
      screen.cursorX := 0;
      screen.cursorY := Inc16(screen.cursorY);
      FixCursorRow(screen);
    }
    var position := screen.cursorY * Width + screen.cursorX;
    if position < ScreenCells {
      screen.cells[position] := Glyph(color, c);
    }
    if !inplace {
      screen.cursorX := screen.cursorX + 1;
      if screen.cursorX >= Width {
        screen.cursorX := 0;
        screen.cursorY := Inc16(screen.cursorY);
      }
    }
  }

  /** The characters print_string prints: those before the first NUL. */
  function CString(s: seq<char>): (r: seq<char>)
    ensures r <= s
    ensures forall k :: 0 <= k < |r| ==> r[k] != Nul
    ensures |r| < |s| ==> s[|r|] == Nul
  {
    if s == [] || s[0] == Nul then [] else [s[0]] + CString(s[1..])
  }

  /** print_char applied to each character of s in turn. */
  function PutString(d: Display, s: seq<char>, color: nat): (r: Display)
    requires d.Wf() && forall k :: 0 <= k < |s| ==> Ascii(s[k])
    ensures r.Wf() && |r.cells| == |d.cells|
  {
    if s == [] then d else PutChar(PutString(d, s[..|s| - 1], color), s[|s| - 1], false, color)
  }

  /** Printing a concatenation prints its parts in turn. */
  lemma {:induction false} PutStringAppend(d: Display, a: seq<char>, b: seq<char>, color: nat)
    requires d.Wf()
    requires forall k :: 0 <= k < |a| ==> Ascii(a[k])
    requires forall k :: 0 <= k < |b| ==> Ascii(b[k])
    ensures PutString(d, a + b, color) == PutString(PutString(d, a, color), b, color)
    decreases |b|
  {
    if b != [] {
      PutStringAppend(d, a, b[..|b| - 1], color);
      assert (a + b)[..|a + b| - 1] == a + b[..|b| - 1];
    } else {
      assert a + b == a;
    }
  }

  method PrintString(screen: Screen, s: seq<char>, color: nat)
    requires screen.Valid()
    requires forall k :: 0 <= k < |s| ==> Ascii(s[k])
    modifies screen, screen.cells
    ensures screen.Valid()
    ensures Snapshot(screen) == PutString(old(Snapshot(screen)), CString(s), color)
  {
    var i := 0;
    while i < |s| && s[i] != Nul
      invariant 0 <= i <= |s|
      invariant forall k :: 0 <= k < i ==> s[k] != Nul
      invariant screen.Valid()
      invariant Snapshot(screen) == PutString(old(Snapshot(screen)), s[..i], color)
    {
      PrintChar(screen, s[i], false, color);
      assert s[..i + 1][..i] == s[..i];
      i := i + 1;
    }
    CStringIsPrefixBeforeNul(s, i);
  }

  /** The text up to the first NUL is CString. */
  lemma {:induction false} CStringIsPrefixBeforeNul(s: seq<char>, i: nat)
    requires i <= |s| && (forall k :: 0 <= k < i ==> s[k] != Nul) && (i < |s| ==> s[i] == Nul)
    ensures CString(s) == s[..i]
    decreases i
  {
    if i > 0 {
      CStringIsPrefixBeforeNul(s[1..], i - 1);
      assert s[..i] == [s[0]] + s[1..][..i - 1];
    }
  }

  /** A C string is printed in full. */
  lemma CStringOfCText(s: seq<char>)
    requires CText(s)
    ensures CString(s) == s
  {
    CStringIsPrefixBeforeNul(s, |s|);
  }

  // ---------------------------------------------------------------------
  // print_uint_base, print_int, print_hex, print_hex32

  const DigitMap := "0123456789abcdef"
  const Nul: char := 0 as char
  const InvalidBaseText := "[Invalid Base]"
  /** 2^64: unsigned long long values lie below it. */
  const U64Limit := 0x1_0000_0000_0000_0000
  /** LLONG_MIN and LLONG_MAX. */
  const LLongMin := -0x8000_0000_0000_0000
  const LLongMax := 0x7FFF_FFFF_FFFF_FFFF
  /** What print_int prints after '-' for LLONG_MIN. */
  const LLongMinMagnitudeText := "9223372036854775808"

  predicate ValidBase(base: int)
  {
    2 <= base <= 16
  }

  /** A C string: printable by print_string in full. */
  predicate CText(s: seq<char>)
  {
    forall k :: 0 <= k < |s| ==> Ascii(s[k]) && s[k] != Nul
  }

  function DigitChar(d: nat): (c: char)
    requires d < 16
    ensures Ascii(c) && c != Nul
  {
    DigitMap[d]
  }

  /** The digit a lowercase digit character stands for. */
  function DigitValue(c: char): nat
  {
    if '0' <= c <= '9' then c as int - '0' as int
    else if 'a' <= c <= 'f' then c as int - 'a' as int + 10
    else 0
  }

  lemma DigitValueOfChar(d: nat)
    requires d < 16
    ensures DigitValue(DigitChar(d)) == d
  {
    assert DigitMap[d] == DigitMap[d];
    if d < 10 {
      assert DigitMap[..10] == "0123456789";
    }
  }

  /** The base-`base` digits of n, most significant first, "0" for 0. */
  function Digits(n: nat, base: nat): (s: seq<char>)
    requires ValidBase(base)
    ensures |s| >= 1 && CText(s)
    decreases n
  {
    if n < base then [DigitChar(n)] else Digits(n / base, base) + [DigitChar(n % base)]
  }

  /** The number a digit string stands for, most significant digit first. */
  function ValueOf(s: seq<char>, base: nat): nat
  {
    if s == [] then 0 else ValueOf(s[..|s| - 1], base) * base + DigitValue(s[|s| - 1])
  }

  /** Reading the printed digits back gives the number. */
  lemma {:induction false} DigitsRoundTrip(n: nat, base: nat)
    requires ValidBase(base)
    ensures ValueOf(Digits(n, base), base) == n
    decreases n
  {
    if n < base {
      DigitValueOfChar(n);
      ValueOfSnoc([], DigitChar(n), base);
      assert [] + [DigitChar(n)] == Digits(n, base);
    } else {
      DivShrinks(n, base);
      DigitsRoundTrip(n / base, base);
      DigitsValueStep(n, base);
    }
  }

  /** The last digit adds n % base to base times the value of the others. */
  lemma DigitsValueStep(n: nat, base: nat)
    requires ValidBase(base) && n >= base
    requires ValueOf(Digits(n / base, base), base) == n / base
    ensures ValueOf(Digits(n, base), base) == n
  {
    var q, r := n / base, n % base;
    DivMod(n, base);
    DigitsStep(n, base);
    ValueOfSnoc(Digits(q, base), DigitChar(r), base);
    DigitValueOfChar(r);
  }

  /** Appending a digit multiplies by the base and adds the digit. */
  lemma ValueOfSnoc(s: seq<char>, c: char, base: nat)
    ensures ValueOf(s + [c], base) == ValueOf(s, base) * base + DigitValue(c)
  {
    assert (s + [c])[..|s|] == s;
  }

  lemma DivMod(n: nat, d: nat)
    requires d > 0
    ensures n == (n / d) * d + n % d && n % d < d
  {
  }

  /** Only 0 is printed with a leading zero. */
  lemma {:induction false} DigitsNoLeadingZero(n: nat, base: nat)
    requires ValidBase(base) && n > 0
    ensures Digits(n, base)[0] != '0'
    decreases n
  {
    if n >= base {
      DivLowerBound(n, base, 1);
      DivShrinks(n, base);
      DigitsStep(n, base);
      DigitsNoLeadingZero(n / base, base);
    } else {
      assert DigitMap[0] == '0';
    }
  }

  function Pow(b: nat, k: nat): (p: nat)
    ensures b >= 1 ==> p >= 1
  {
    if k == 0 then 1 else b * Pow(b, k - 1)
  }

  /** A value below 2^k never needs more than k digits. */
  lemma {:induction false} DigitsAtMost(n: nat, base: nat, k: nat)
    requires ValidBase(base) && k >= 1 && n < Pow(2, k)
    ensures |Digits(n, base)| <= k
    decreases n
  {
    if n >= base {
      assert k >= 2;
      DivByLargerBase(n, base);
      assert n / 2 < Pow(2, k - 1);
      DigitsAtMost(n / base, base, k - 1);
    }
  }

  /** Dividing by a base of at least 2 gives at most half. */
  lemma DivByLargerBase(n: nat, base: nat)
    requires base >= 2
    ensures n / base <= n / 2
  {
    var q := n / base;
    DivMod(n, base);
    assert q * base == q * 2 + q * (base - 2);
    DivLowerBound(n, 2, q);
  }

  /** A value of at least base^k needs more than k digits. */
  lemma {:induction false} DigitsAtLeast(n: nat, base: nat, k: nat)
    requires ValidBase(base) && Pow(base, k) <= n
    ensures |Digits(n, base)| > k
    decreases k
  {
    if k > 0 {
      assert Pow(base, k) == base * Pow(base, k - 1);
      assert n >= base by {
        assert Pow(base, k - 1) >= 1;
      }
      assert n / base >= Pow(base, k - 1) by {
        DivLowerBound(n, base, Pow(base, k - 1));
      }
      DigitsAtLeast(n / base, base, k - 1);
    }
  }

  lemma DivShrinks(m: nat, base: nat)
    requires m > 0 && base >= 2
    ensures 0 <= m / base < m
  {
    assert m == (m / base) * base + m % base;
  }

  lemma MulCancel(a: int, b: int, d: int)
    requires d > 0 && a * d < b * d
    ensures a < b
  {
  }

  lemma DivLowerBound(n: nat, d: nat, q: nat)
    requires d > 0 && d * q <= n
    ensures n / d >= q
  {
    var r := n / d;
    assert n == r * d + n % d;
    assert q * d < (r + 1) * d;
    MulCancel(q, r + 1, d);
  }

  /** "0x" for base 16 and "0b" for base 2 when asked for, nothing otherwise. */
  function PrefixText(base: int, printPrefix: bool): seq<char>
  {
    if printPrefix && base == 16 then "0x"
    else if printPrefix && base == 2 then "0b"
    else ""
  }

  /** The text print_uint_base prints for a valid base. */
  function UintText(n: nat, base: nat, printPrefix: bool): (s: seq<char>)
    requires ValidBase(base)
    ensures CText(s)
  {
    PrefixText(base, printPrefix) + Digits(n, base)
  }

  /** The local buffer of print_uint_base as written, and the size it needs. */
  const BufferSizeAsWritten := 65
  const BufferSize := 67

  /** Buffer slots print_uint_base uses: the text plus the terminating NUL. */
  function BufferUse(n: nat, base: nat, printPrefix: bool): nat
    requires ValidBase(base)
  {
    |UintText(n, base, printPrefix)| + 1
  }

  /** In base 2 with the prefix, every n >= 2^62 needs more than the 65
      slots of the buffer as written. */
  lemma BufferOverflowAsWritten(n: nat)
    requires Pow(2, 62) <= n < U64Limit
    ensures BufferUse(n, 2, true) > BufferSizeAsWritten
  {
    DigitsAtLeast(n, 2, 62);
  }

  /** 67 slots hold the text of every unsigned long long, in every base. */
  lemma BufferSuffices(n: nat, base: nat, printPrefix: bool)
    requires ValidBase(base) && n < U64Limit
    ensures BufferUse(n, base, printPrefix) <= BufferSize
  {
    assert Pow(2, 64) == U64Limit by {
      Pow2Of64();
    }
    DigitsAtMost(n, base, 64);
  }

  lemma Pow2Of64()
    ensures Pow(2, 64) == U64Limit
  {
    Pow2Of32();
    PowAdd(2, 32, 32);
  }

  lemma Pow2Of32()
    ensures Pow(2, 32) == 0x1_0000_0000
  {
    Pow2Of8();
    PowAdd(2, 8, 8);
    PowAdd(2, 16, 16);
  }

  lemma Pow2Of8()
    ensures Pow(2, 8) == 256
  {
    assert Pow(2, 4) == 16;
  }

  lemma {:induction false} PowAdd(b: nat, j: nat, k: nat)
    ensures Pow(b, j + k) == Pow(b, j) * Pow(b, k)
    decreases k
  {
    if k > 0 {
      PowAdd(b, j, k - 1);
      var x, y := Pow(b, j), Pow(b, k - 1);
      calc {
        Pow(b, j + k);
        b * Pow(b, j + k - 1);
        b * (x * y);
        { MulAssocSwap(b, x, y); }
        x * (b * y);
        x * Pow(b, k);
      }
    }
  }

  lemma MulAssocSwap(a: int, b: int, c: int)
    ensures a * (b * c) == b * (a * c)
  {
  }

  function Reverse(s: seq<char>): (r: seq<char>)
    ensures |r| == |s|
  {
    seq(|s|, k requires 0 <= k < |s| => s[|s| - 1 - k])
  }

  /** The digits of n, least significant first, as the conversion loop
      produces them; empty for 0. */
  function LowDigitsFirst(n: nat, base: nat): seq<char>
    requires ValidBase(base)
    decreases n
  {
    if n == 0 then [] else [DigitChar(n % base)] + LowDigitsFirst(n / base, base)
  }

  lemma ReverseSnoc(s: seq<char>, c: char)
    ensures Reverse(s + [c]) == [c] + Reverse(s)
  {
  }

  lemma {:induction false} LowDigitsFirstReversed(n: nat, base: nat)
    requires ValidBase(base) && n > 0
    ensures LowDigitsFirst(n, base) == Reverse(Digits(n, base))
    decreases n
  {
    if n >= base {
      DivLowerBound(n, base, 1);
      LowDigitsFirstReversed(n / base, base);
      LowDigitsFirstStep(n, base);
    } else {
      LowDigitsFirstSingle(n, base);
    }
  }

  lemma LowDigitsFirstSingle(n: nat, base: nat)
    requires ValidBase(base) && 0 < n < base
    ensures LowDigitsFirst(n, base) == Reverse(Digits(n, base))
  {
    var c := DigitChar(n % base);
    assert n / base == 0 && n % base == n;
    assert LowDigitsFirst(n, base) == [c] + LowDigitsFirst(n / base, base);
    assert LowDigitsFirst(n / base, base) == [];
    assert Digits(n, base) == [c];
    assert Reverse([c]) == [c];
  }

  lemma LowDigitsFirstStep(n: nat, base: nat)
    requires ValidBase(base) && n >= base
    requires LowDigitsFirst(n / base, base) == Reverse(Digits(n / base, base))
    ensures LowDigitsFirst(n, base) == Reverse(Digits(n, base))
  {
    var c := DigitChar(n % base);
    assert LowDigitsFirst(n, base) == [c] + LowDigitsFirst(n / base, base);
    ReverseSnoc(Digits(n / base, base), c);
    assert Digits(n, base) == Digits(n / base, base) + [c];
  }

  /** The digit step of print_uint_base: n's text, least significant digit
      first, at the start of the buffer ("0" for 0). */
  method WriteLowDigitsFirst(buffer: array<char>, n: nat, base: nat) returns (i: nat)
    requires ValidBase(base) && |Digits(n, base)| <= buffer.Length
    modifies buffer
    ensures i == |Digits(n, base)|
    ensures buffer[..i] == Reverse(Digits(n, base))
  {
    if n == 0 {
      buffer[0] := '0';
      assert buffer[..1] == Reverse(Digits(n, base));
      return 1;
    }
    LowDigitsFirstReversed(n, base);
    i := ConvertDigits(buffer, n, base);
  }

  /** The conversion loop of print_uint_base: `buffer[i++] = digits[n % base];
      n /= base;` while n > 0. */
  method ConvertDigits(buffer: array<char>, n: nat, base: nat) returns (i: nat)
    requires ValidBase(base) && |LowDigitsFirst(n, base)| <= buffer.Length
    modifies buffer
    ensures i == |LowDigitsFirst(n, base)|
    ensures buffer[..i] == LowDigitsFirst(n, base)
  {
    i := 0;
    var m: nat := n;
    while m > 0
      invariant i + |LowDigitsFirst(m, base)| == |LowDigitsFirst(n, base)| <= buffer.Length
      invariant buffer[..i] + LowDigitsFirst(m, base) == LowDigitsFirst(n, base)
      decreases m
    {
      DivShrinks(m, base);
      ghost var rest := LowDigitsFirst(m / base, base);
      assert LowDigitsFirst(m, base) == [DigitChar(m % base)] + rest;
      buffer[i] := DigitChar(m % base);
      assert buffer[..i + 1] == buffer[..i] + [DigitChar(m % base)];
      i := i + 1;
      m := m / base;
    }
  }

  /** The swap loop of print_uint_base: the first `length` slots reversed,
      the rest untouched. */
  method ReverseInPlace(buffer: array<char>, length: nat)
    requires length <= buffer.Length
    modifies buffer
    ensures buffer[..length] == Reverse(old(buffer[..length]))
    ensures buffer[length..] == old(buffer[length..])
  {
    ghost var original := buffer[..length];
    var start, end := 0, length - 1;
    while start < end
      invariant 0 <= start <= length && -1 <= end < length && start + end == length - 1
      invariant forall k :: 0 <= k < start ==> buffer[k] == original[length - 1 - k]
      invariant forall k :: end < k < length ==> buffer[k] == original[length - 1 - k]
      invariant forall k :: start <= k <= end ==> buffer[k] == original[k]
      invariant buffer[length..] == old(buffer[length..])
    {
      buffer[start], buffer[end] := buffer[end], buffer[start];
      start := start + 1;
      end := end - 1;
    }
    assert buffer[..length] == Reverse(original);
  }

  /** print_uint_base's buffer work for a valid base, over a 67-slot buffer:
      the text it hands to print_string. */
  method FormatUint(n: nat, base: nat, printPrefix: bool) returns (text: seq<char>)
    requires ValidBase(base) && n < U64Limit
    ensures text == UintText(n, base, printPrefix)
  {
    BufferSuffices(n, base, printPrefix);
    var buffer := new char[BufferSize];
    var i := WriteLowDigitsFirst(buffer, n, base);
    i := WriteReversedPrefix(buffer, i, base, printPrefix);
    ReversedUintText(n, base, printPrefix);
    buffer[i] := Nul;
    ReverseInPlace(buffer, i);
    text := buffer[..i];
    ReverseTwice(UintText(n, base, printPrefix));
  }

  /** The prefix step of print_uint_base: "x0" or "b0" after the digits,
      since the buffer is reversed afterwards. */
  method WriteReversedPrefix(buffer: array<char>, i: nat, base: nat, printPrefix: bool) returns (j: nat)
    requires i + |PrefixText(base, printPrefix)| <= buffer.Length
    modifies buffer
    ensures j == i + |PrefixText(base, printPrefix)|
    ensures buffer[..j] == old(buffer[..i]) + Reverse(PrefixText(base, printPrefix))
  {
    j := i;
    if printPrefix {
      if base == 16 {
        buffer[j] := 'x';
        buffer[j + 1] := '0';
        j := j + 2;
        assert Reverse("0x") == "x0";
      } else if base == 2 {
        buffer[j] := 'b';
        buffer[j + 1] := '0';
        j := j + 2;
        assert Reverse("0b") == "b0";
      }
    }
  }

  /** Reversing twice gives the text back. */
  lemma ReverseTwice(s: seq<char>)
    ensures Reverse(Reverse(s)) == s
  {
  }

  /** The reversed text: the digits least significant first, then the
      prefix backwards, as the buffer holds them before the swap loop. */
  lemma ReversedUintText(n: nat, base: nat, printPrefix: bool)
    requires ValidBase(base)
    ensures Reverse(UintText(n, base, printPrefix)) ==
            Reverse(Digits(n, base)) + Reverse(PrefixText(base, printPrefix))
  {
    ReverseAppend(PrefixText(base, printPrefix), Digits(n, base));
  }

  lemma ReverseAppend(a: seq<char>, b: seq<char>)
    ensures Reverse(a + b) == Reverse(b) + Reverse(a)
  {
    var r, t := Reverse(a + b), Reverse(b) + Reverse(a);
    forall k | 0 <= k < |r|
      ensures r[k] == t[k]
    {
      if k < |b| {
        assert t[k] == b[|b| - 1 - k];
      } else {
        assert t[k] == a[|a| - 1 - (k - |b|)];
      }
    }
  }

  method PrintUintBase(screen: Screen, n: nat, base: int, color: nat, printPrefix: bool)
    requires screen.Valid() && n < U64Limit
    modifies screen, screen.cells
    ensures screen.Valid()
    ensures !ValidBase(base) ==> Snapshot(screen) == PutString(old(Snapshot(screen)), InvalidBaseText, LightRed)
    ensures ValidBase(base) ==> Snapshot(screen) == PutString(old(Snapshot(screen)), UintText(n, base, printPrefix), color)
  {
    if base < 2 || base > 16 {
      CStringOfCText(InvalidBaseText);
      PrintString(screen, InvalidBaseText, LightRed);
      return;
    }
    var text := FormatUint(n, base, printPrefix);
    CStringOfCText(text);
    PrintString(screen, text, color);
  }

  /** The text print_int prints: a '-' for negatives, then the decimal digits
      of the magnitude. */
  function IntText(n: int): (s: seq<char>)
    ensures CText(s)
  {
    (if n < 0 then "-" else "") + Digits(if n < 0 then -n else n, 10)
  }

  /** The special LLONG_MIN string is the magnitude's digits. */
  lemma DigitsStep(n: nat, base: nat)
    requires ValidBase(base) && n >= base
    ensures Digits(n, base) == Digits(n / base, base) + [DigitChar(n % base)]
  {
  }

  /** The first seven decimal digits of 2^63. */
  lemma LLongMinTextHead()
    ensures Digits(9223372, 10) == "9223372"
  {
    assert DigitMap == ['0', '1', '2', '3', '4', '5', '6', '7', '8', '9', 'a', 'b', 'c', 'd', 'e', 'f'];
    assert Digits(9, 10) == "9";
    DigitsStep(92, 10);
    assert Digits(92, 10) == "92";
    DigitsStep(922, 10);
    assert Digits(922, 10) == "922";
    DigitsStep(9223, 10);
    assert Digits(9223, 10) == "9223";
    DigitsStep(92233, 10);
    assert Digits(92233, 10) == "92233";
    DigitsStep(922337, 10);
    assert Digits(922337, 10) == "922337";
    DigitsStep(9223372, 10);
    assert Digits(9223372, 10) == "9223372";
  }

  /** The first thirteen decimal digits of 2^63. */
  lemma LLongMinTextMiddle()
    ensures Digits(9223372036854, 10) == "9223372036854"
  {
    assert DigitMap == ['0', '1', '2', '3', '4', '5', '6', '7', '8', '9', 'a', 'b', 'c', 'd', 'e', 'f'];
    LLongMinTextHead();
    DigitsStep(92233720, 10);
    assert Digits(92233720, 10) == "92233720";
    DigitsStep(922337203, 10);
    assert Digits(922337203, 10) == "922337203";
    DigitsStep(9223372036, 10);
    assert Digits(9223372036, 10) == "9223372036";
    DigitsStep(92233720368, 10);
    assert Digits(92233720368, 10) == "92233720368";
    DigitsStep(922337203685, 10);
    assert Digits(922337203685, 10) == "922337203685";
    DigitsStep(9223372036854, 10);
    assert Digits(9223372036854, 10) == "9223372036854";
  }

  /** 2^63, the magnitude of LLONG_MIN, in decimal. */
  lemma LLongMinText(m: nat)
    requires m == -LLongMin
    ensures Digits(m, 10) == LLongMinMagnitudeText
  {
    assert DigitMap == ['0', '1', '2', '3', '4', '5', '6', '7', '8', '9', 'a', 'b', 'c', 'd', 'e', 'f'];
    LLongMinTextMiddle();
    DigitsStep(92233720368547, 10);
    assert Digits(92233720368547, 10) == "92233720368547";
    DigitsStep(922337203685477, 10);
    assert Digits(922337203685477, 10) == "922337203685477";
    DigitsStep(9223372036854775, 10);
    assert Digits(9223372036854775, 10) == "9223372036854775";
    DigitsStep(92233720368547758, 10);
    assert Digits(92233720368547758, 10) == "92233720368547758";
    DigitsStep(922337203685477580, 10);
    assert Digits(922337203685477580, 10) == "922337203685477580";
    DigitsStep(9223372036854775808, 10);
    assert Digits(9223372036854775808, 10) == "9223372036854775808";
  }

  method PrintInt(screen: Screen, n: int, color: nat)
    requires screen.Valid() && LLongMin <= n <= LLongMax
    modifies screen, screen.cells
    ensures screen.Valid()
    ensures Snapshot(screen) == PutString(old(Snapshot(screen)), IntText(n), color)
  {
    if n == 0 {
      PrintChar(screen, '0', false, color);
      assert IntText(n) == [] + ['0'];
    } else if n > 0 {
      PrintUintBase(screen, n, 10, color, false);
      assert UintText(n, 10, false) == Digits(n, 10) == IntText(n);
    } else {
      PrintNegative(screen, -n, color);
      assert IntText(n) == "-" + Digits(-n, 10);
    }
  }

  /** The negative case of print_int: '-', then the magnitude, with
      LLONG_MIN's magnitude printed from a fixed string. */
  method PrintNegative(screen: Screen, m: nat, color: nat)
    requires screen.Valid() && 0 < m <= -LLongMin
    modifies screen, screen.cells
    ensures screen.Valid()
    ensures Snapshot(screen) == PutString(old(Snapshot(screen)), "-" + Digits(m, 10), color)
  {
    ghost var start := Snapshot(screen);
    PrintChar(screen, '-', false, color);
    assert Snapshot(screen) == PutString(start, "-", color) by {
      assert "-" == [] + ['-'];
    }
    PutStringAppend(start, "-", Digits(m, 10), color);
    if m == -LLongMin {
      LLongMinText(m);
      CStringOfCText(LLongMinMagnitudeText);
      PrintString(screen, LLongMinMagnitudeText, color);
    } else {
      PrintUintBase(screen, m, 10, color, false);
      assert UintText(m, 10, false) == Digits(m, 10);
    }
  }

  method PrintHex(screen: Screen, n: nat, color: nat)
    requires screen.Valid() && n < U64Limit
    modifies screen, screen.cells
    ensures screen.Valid()
    ensures Snapshot(screen) == PutString(old(Snapshot(screen)), "0x" + Digits(n, 16), color)
  {
    PrintUintBase(screen, n, 16, color, true);
  }

  method PrintHex32(screen: Screen, n: nat, color: nat)
    requires screen.Valid() && n < 0x1_0000_0000
    modifies screen, screen.cells
    ensures screen.Valid()
    ensures Snapshot(screen) == PutString(old(Snapshot(screen)), "0x" + Digits(n, 16), color)
  {
    PrintUintBase(screen, n, 16, color, true);
  }

  // ---------------------------------------------------------------------
  // scancode_to_ascii and input

  /** KEY_LIMIT: the length of both scancode tables. */
  const KeyLimit := 59
  const EnterKey := 0x1C
  const BackspaceKey := 0x0E
  const ShiftLeftDown := 0x2A
  const ShiftLeftUp := 0xAA
  const ShiftRightDown := 0x36
  const ShiftRightUp := 0xB6
  /** The table entry of the backspace key: the character 0x0E. */
  const BackspaceChar: char := 14 as char

  /** scancode_ascii_normal (scancode set 1, no shift), eight entries per
      piece. */
  const NormalKeys: seq<char> :=
    ['\0', '\0', '1', '2', '3', '4', '5', '6'] +
    ['7', '8', '9', '0', '-', '=', BackspaceChar, '\t'] +
    ['q', 'w', 'e', 'r', 't', 'y', 'u', 'i'] +
    ['o', 'p', '[', ']', '\n', '\0', 'a', 's'] +
    ['d', 'f', 'g', 'h', 'j', 'k', 'l', ';'] +
    ['\'', '`', '\0', '\\', 'z', 'x', 'c', 'v'] +
    ['b', 'n', 'm', ',', '.', '/', '\0', '\0'] +
    ['\0', ' ', '\0']

  /** scancode_ascii_shifted, eight entries per piece. */
  const ShiftedKeys: seq<char> :=
    ['\0', '\0', '!', '@', '#', '$', '%', '^'] +
    ['&', '*', '(', ')', '_', '+', BackspaceChar, '\t'] +
    ['Q', 'W', 'E', 'R', 'T', 'Y', 'U', 'I'] +
    ['O', 'P', '{', '}', '\n', '\0', 'A', 'S'] +
    ['D', 'F', 'G', 'H', 'J', 'K', 'L', ':'] +
    ['"', '~', '\0', '|', 'Z', 'X', 'C', 'V'] +
    ['B', 'N', 'M', '<', '>', '?', '\0', '\0'] +
    ['\0', ' ', '\0']

  /** What the two tables promise about one scancode: both entries ASCII;
      shift changes which character a key gives, never whether it gives one,
      and turns exactly the lowercase letters into their capitals; only ENTER
      gives a newline and only BACKSPACE the backspace character. */
  predicate KeyFacts(code: nat)
    requires code < KeyLimit
  {
    var n, s := NormalKeys[code], ShiftedKeys[code];
    && Ascii(n) && Ascii(s)
    && (n == Nul <==> s == Nul)
    && ('a' <= n <= 'z' <==> 'A' <= s <= 'Z')
    && ('a' <= n <= 'z' ==> s as int == n as int - 32)
    && (n == '\n' <==> code == EnterKey) && (s == '\n' <==> code == EnterKey)
    && (n == BackspaceChar <==> code == BackspaceKey) && (s == BackspaceChar <==> code == BackspaceKey)
  }

  /** KeyFacts for every scancode from `from` on. */
  predicate KeyFactsFrom(from: nat)
    decreases KeyLimit - from
  {
    from >= KeyLimit || (KeyFacts(from) && KeyFactsFrom(from + 1))
  }

  lemma {:induction false} KeyFactsFromHolds(from: nat, code: nat)
    requires KeyFactsFrom(from) && from <= code < KeyLimit
    ensures KeyFacts(code)
    decreases code - from
  {
    if from < code {
      assert KeyFactsFrom(from + 1);
      KeyFactsFromHolds(from + 1, code);
    } else {
      assert code == from;
    }
  }

  // The table facts, checked ten entries at a time.

  lemma KeyFactsUpTo10()
    ensures KeyFacts(0) && KeyFacts(1) && KeyFacts(2) && KeyFacts(3) && KeyFacts(4)
            && KeyFacts(5) && KeyFacts(6) && KeyFacts(7) && KeyFacts(8) && KeyFacts(9)
  {
  }

  lemma KeyFactsUpTo20()
    ensures KeyFacts(10) && KeyFacts(11) && KeyFacts(12) && KeyFacts(13) && KeyFacts(14)
            && KeyFacts(15) && KeyFacts(16) && KeyFacts(17) && KeyFacts(18) && KeyFacts(19)
  {
  }

  lemma KeyFactsUpTo30()
    ensures KeyFacts(20) && KeyFacts(21) && KeyFacts(22) && KeyFacts(23) && KeyFacts(24)
            && KeyFacts(25) && KeyFacts(26) && KeyFacts(27) && KeyFacts(28) && KeyFacts(29)
  {
  }

  lemma KeyFactsUpTo40()
    ensures KeyFacts(30) && KeyFacts(31) && KeyFacts(32) && KeyFacts(33) && KeyFacts(34)
            && KeyFacts(35) && KeyFacts(36) && KeyFacts(37) && KeyFacts(38) && KeyFacts(39)
  {
  }

  lemma KeyFactsUpTo50()
    ensures KeyFacts(40) && KeyFacts(41) && KeyFacts(42) && KeyFacts(43) && KeyFacts(44)
            && KeyFacts(45) && KeyFacts(46) && KeyFacts(47) && KeyFacts(48) && KeyFacts(49)
  {
  }

  lemma KeyFactsUpTo59()
    ensures KeyFacts(50) && KeyFacts(51) && KeyFacts(52) && KeyFacts(53) && KeyFacts(54)
            && KeyFacts(55) && KeyFacts(56) && KeyFacts(57) && KeyFacts(58)
  {
  }

  lemma KeyFactsFrom50()
    ensures KeyFactsFrom(50)
  {
    KeyFactsUpTo59();
    assert KeyFactsFrom(58);
    assert KeyFactsFrom(57);
    assert KeyFactsFrom(56);
    assert KeyFactsFrom(55);
    assert KeyFactsFrom(54);
    assert KeyFactsFrom(53);
    assert KeyFactsFrom(52);
    assert KeyFactsFrom(51);
    assert KeyFactsFrom(50);
  }

  lemma KeyFactsFrom40()
    ensures KeyFactsFrom(40)
  {
    KeyFactsFrom50();
    KeyFactsUpTo50();
    assert KeyFactsFrom(49);
    assert KeyFactsFrom(48);
    assert KeyFactsFrom(47);
    assert KeyFactsFrom(46);
    assert KeyFactsFrom(45);
    assert KeyFactsFrom(44);
    assert KeyFactsFrom(43);
    assert KeyFactsFrom(42);
    assert KeyFactsFrom(41);
    assert KeyFactsFrom(40);
  }

  lemma KeyFactsFrom30()
    ensures KeyFactsFrom(30)
  {
    KeyFactsFrom40();
    KeyFactsUpTo40();
    assert KeyFactsFrom(39);
    assert KeyFactsFrom(38);
    assert KeyFactsFrom(37);
    assert KeyFactsFrom(36);
    assert KeyFactsFrom(35);
    assert KeyFactsFrom(34);
    assert KeyFactsFrom(33);
    assert KeyFactsFrom(32);
    assert KeyFactsFrom(31);
    assert KeyFactsFrom(30);
  }

  lemma KeyFactsFrom20()
    ensures KeyFactsFrom(20)
  {
    KeyFactsFrom30();
    KeyFactsUpTo30();
    assert KeyFactsFrom(29);
    assert KeyFactsFrom(28);
    assert KeyFactsFrom(27);
    assert KeyFactsFrom(26);
    assert KeyFactsFrom(25);
    assert KeyFactsFrom(24);
    assert KeyFactsFrom(23);
    assert KeyFactsFrom(22);
    assert KeyFactsFrom(21);
    assert KeyFactsFrom(20);
  }

  lemma KeyFactsFrom10()
    ensures KeyFactsFrom(10)
  {
    KeyFactsFrom20();
    KeyFactsUpTo20();
    assert KeyFactsFrom(19);
    assert KeyFactsFrom(18);
    assert KeyFactsFrom(17);
    assert KeyFactsFrom(16);
    assert KeyFactsFrom(15);
    assert KeyFactsFrom(14);
    assert KeyFactsFrom(13);
    assert KeyFactsFrom(12);
    assert KeyFactsFrom(11);
    assert KeyFactsFrom(10);
  }

  lemma KeyFactsFrom0()
    ensures KeyFactsFrom(0)
  {
    KeyFactsFrom10();
    KeyFactsUpTo10();
    assert KeyFactsFrom(9);
    assert KeyFactsFrom(8);
    assert KeyFactsFrom(7);
    assert KeyFactsFrom(6);
    assert KeyFactsFrom(5);
    assert KeyFactsFrom(4);
    assert KeyFactsFrom(3);
    assert KeyFactsFrom(2);
    assert KeyFactsFrom(1);
    assert KeyFactsFrom(0);
  }

  /** Every scancode in the tables has KeyFacts. */
  lemma KeyTable(code: nat)
    requires code < KeyLimit
    ensures KeyFacts(code)
  {
    KeyFactsFrom0();
    KeyFactsFromHolds(0, code);
  }

  /** The character of a scancode, NUL for codes past the tables and for keys
      without one. */
  function ScancodeToAscii(code: Byte, shift: bool): (c: char)
    ensures Ascii(c)
    ensures code >= KeyLimit ==> c == Nul
    ensures code < KeyLimit ==> c == (if shift then ShiftedKeys else NormalKeys)[code]
  {
    if code >= KeyLimit then Nul
    else
      KeyTable(code);
      if shift then ShiftedKeys[code] else NormalKeys[code]
  }

  /** Shift changes which character a key gives, never whether it gives one. */
  lemma ShiftKeepsPrintable(code: Byte)
    ensures ScancodeToAscii(code, false) == Nul <==> ScancodeToAscii(code, true) == Nul
  {
    if code < KeyLimit {
      KeyTable(code);
    }
  }

  /** Shift turns exactly the lowercase letters into their capitals. */
  lemma ShiftCapitalizes(code: Byte)
    ensures var c := ScancodeToAscii(code, false);
            'a' <= c <= 'z' <==> 'A' <= ScancodeToAscii(code, true) <= 'Z'
    ensures var c := ScancodeToAscii(code, false);
            'a' <= c <= 'z' ==> ScancodeToAscii(code, true) as int == c as int - 32
  {
    if code < KeyLimit {
      KeyTable(code);
    }
  }

  /** Only ENTER maps to a newline, and only BACKSPACE to the backspace character. */
  lemma SpecialKeysUnique(code: Byte, shift: bool)
    ensures ScancodeToAscii(code, shift) == '\n' <==> code == EnterKey
    ensures ScancodeToAscii(code, shift) == BackspaceChar <==> code == BackspaceKey
  {
    if code < KeyLimit {
      KeyTable(code);
    }
  }

  /** The state `input` keeps between keys: the typed line and the two shift flags. */
  datatype Editor = Editor(line: seq<char>, leftShift: bool, rightShift: bool)

  const Fresh := Editor([], false, false)

  /** What one key other than ENTER does to the line and the shift flags. */
  function Edit(e: Editor, code: Byte): (r: Editor)
    requires code != EnterKey
    ensures |r.line| <= |e.line| + 1
  {
    if code == ShiftLeftDown then e.(leftShift := true)
    else if code == ShiftLeftUp then e.(leftShift := false)
    else if code == ShiftRightDown then e.(rightShift := true)
    else if code == ShiftRightUp then e.(rightShift := false)
    else if code == BackspaceKey then
      (if e.line == [] then e else e.(line := e.line[..|e.line| - 1]))
    else if code >= 128 then e
    else
      var c := ScancodeToAscii(code, e.leftShift || e.rightShift);
      if c == Nul then e else e.(line := e.line + [c])
  }

  /** A key that types a character is undone by BACKSPACE. */
  lemma BackspaceUndoesKey(e: Editor, code: Byte)
    requires code !in {EnterKey, BackspaceKey, ShiftLeftDown, ShiftRightDown}
    requires code < 128 && ScancodeToAscii(code, e.leftShift || e.rightShift) != Nul
    ensures |Edit(e, code).line| == |e.line| + 1
    ensures Edit(Edit(e, code), BackspaceKey) == e
  {
    var after := Edit(e, code);
    assert after.line[..|after.line| - 1] == e.line;
  }

  /** Releases (bit 7 set) of keys other than the shifts change nothing. */
  lemma ReleasesIgnored(e: Editor, code: Byte)
    requires code >= 128 && code != ShiftLeftUp && code != ShiftRightUp
    ensures Edit(e, code) == e
  {
  }

  /** A line as `input` can leave it: ASCII, with no NUL, newline or
      backspace character. */
  predicate CleanLine(line: seq<char>)
  {
    forall k :: 0 <= k < |line| ==>
      Ascii(line[k]) && line[k] != Nul && line[k] != '\n' && line[k] != BackspaceChar
  }

  lemma EditKeepsClean(e: Editor, code: Byte)
    requires code != EnterKey && CleanLine(e.line)
    ensures CleanLine(Edit(e, code).line)
  {
    if code < 128 && code !in {ShiftLeftDown, ShiftRightDown, BackspaceKey} {
      SpecialKeysUnique(code, e.leftShift || e.rightShift);
    }
  }

  /** Keys up to ENTER, as `input` reads them. */
  predicate NoEnter(keys: seq<Byte>)
  {
    forall k :: 0 <= k < |keys| ==> keys[k] != EnterKey
  }

  /** The index of the first ENTER, or |keys| when there is none. */
  function FirstEnter(keys: seq<Byte>): (i: nat)
    ensures i <= |keys| && NoEnter(keys[..i])
    ensures i < |keys| ==> keys[i] == EnterKey
  {
    if keys == [] || keys[0] == EnterKey then 0
    else
      var rest := FirstEnter(keys[1..]);
      assert keys[..rest + 1] == [keys[0]] + keys[1..][..rest];
      1 + rest
  }

  /** Before the first ENTER, a key is ENTER exactly at that index. */
  lemma FirstEnterAt(keys: seq<Byte>, i: nat)
    requires i <= FirstEnter(keys) && i < |keys|
    ensures keys[i] == EnterKey <==> i == FirstEnter(keys)
  {
    if i < FirstEnter(keys) {
      assert keys[..FirstEnter(keys)][i] == keys[i];
    }
  }

  /** Every prefix up to the first ENTER is free of ENTER. */
  lemma NoEnterPrefix(keys: seq<Byte>, i: nat)
    requires i <= FirstEnter(keys)
    ensures NoEnter(keys[..i])
  {
    assert forall k :: 0 <= k < i ==> keys[..i][k] == keys[..FirstEnter(keys)][k];
  }

  /** The editor after the keys, one at a time, with unlimited room. */
  function Typed(e: Editor, keys: seq<Byte>): Editor
    requires NoEnter(keys)
  {
    if keys == [] then e else Edit(Typed(e, keys[..|keys| - 1]), keys[|keys| - 1])
  }

  /** The vector's capacity and the heap cursor: what decides whether
      push_back gets its memory. */
  datatype Storage = Storage(cap: nat, cursor: nat)

  /** One key with the vector's storage: a typed character needs a free slot,
      and a full vector first asks the heap for GrowCapacity(cap) slots; when
      the heap refuses, the character is dropped. */
  function Step(e: Editor, s: Storage, code: Byte, elemSize: nat): (Editor, Storage)
    requires code != EnterKey
  {
    var next := Edit(e, code);
    if |next.line| <= |e.line| || |e.line| < s.cap then (next, s)
    else
      var (cursor, block) := Bump(s.cursor, elemSize * GrowCapacity(s.cap));
      if block.Some? then (next, Storage(GrowCapacity(s.cap), cursor))
      else (e, Storage(s.cap, cursor))
  }

  /** The keys one at a time, with storage. */
  function Run(e: Editor, s: Storage, keys: seq<Byte>, elemSize: nat): (Editor, Storage)
    requires NoEnter(keys)
  {
    if keys == [] then (e, s)
    else
      var (before, storage) := Run(e, s, keys[..|keys| - 1], elemSize);
      Step(before, storage, keys[|keys| - 1], elemSize)
  }

  /** Run over one more key is one more Step. */
  lemma RunSnoc(e: Editor, s: Storage, keys: seq<Byte>, i: nat, elemSize: nat)
    requires i < |keys| && NoEnter(keys[..i + 1])
    ensures NoEnter(keys[..i])
    ensures var (before, storage) := Run(e, s, keys[..i], elemSize);
            Run(e, s, keys[..i + 1], elemSize) == Step(before, storage, keys[i], elemSize)
  {
    assert keys[..i + 1][..i] == keys[..i];
  }

  /** RunSnoc with the state before the key named. */
  lemma RunStep(e: Editor, s: Storage, keys: seq<Byte>, i: nat, elemSize: nat, before: Editor, storage: Storage)
    requires i < |keys| && NoEnter(keys[..i + 1]) && NoEnter(keys[..i])
    requires (before, storage) == Run(e, s, keys[..i], elemSize)
    ensures Run(e, s, keys[..i + 1], elemSize) == Step(before, storage, keys[i], elemSize)
  {
    RunSnoc(e, s, keys, i, elemSize);
  }

  /** Every line `input` builds is clean, and the vector always has room for it. */
  lemma {:induction false} RunInvariant(e: Editor, s: Storage, keys: seq<Byte>, elemSize: nat)
    requires NoEnter(keys) && CleanLine(e.line) && |e.line| <= s.cap
    ensures var (r, t) := Run(e, s, keys, elemSize);
            CleanLine(r.line) && |r.line| <= t.cap && s.cap <= t.cap && s.cursor <= t.cursor
    decreases |keys|
  {
    if keys != [] {
      var (before, storage) := Run(e, s, keys[..|keys| - 1], elemSize);
      RunInvariant(e, s, keys[..|keys| - 1], elemSize);
      StepInvariant(before, storage, keys[|keys| - 1], elemSize);
    }
  }

  /** One key keeps the line clean and within the vector's capacity, and
      storage only grows. */
  lemma StepInvariant(e: Editor, s: Storage, code: Byte, elemSize: nat)
    requires code != EnterKey && CleanLine(e.line) && |e.line| <= s.cap
    ensures var (r, t) := Step(e, s, code, elemSize);
            CleanLine(r.line) && |r.line| <= t.cap && s.cap <= t.cap && s.cursor <= t.cursor
  {
    EditKeepsClean(e, code);
  }

  /** While the vector has room for every key, storage never matters: the
      line is the one typed with unlimited room, and the heap is untouched. */
  lemma {:induction false} RunWithinCapacity(e: Editor, s: Storage, keys: seq<Byte>, elemSize: nat)
    requires NoEnter(keys) && |e.line| + |keys| <= s.cap
    ensures Run(e, s, keys, elemSize) == (Typed(e, keys), s)
    decreases |keys|
  {
    if keys != [] {
      RunWithinCapacity(e, s, keys[..|keys| - 1], elemSize);
      TypedLength(e, keys[..|keys| - 1]);
    }
  }

  /** Each key adds at most one character. */
  lemma {:induction false} TypedLength(e: Editor, keys: seq<Byte>)
    requires NoEnter(keys)
    ensures |Typed(e, keys).line| <= |e.line| + |keys|
    decreases |keys|
  {
    if keys != [] {
      TypedLength(e, keys[..|keys| - 1]);
    }
  }

  /** The body of input's loop for one key other than ENTER. */
  method ApplyKey(v: Vector<char>, heap: Heap, code: Byte, leftShift: bool, rightShift: bool)
    returns (left: bool, right: bool)
    requires v.Valid() && code != EnterKey
    modifies v, v.data, heap
    ensures v.Valid() && (v.data == old(v.data) || fresh(v.data))
    ensures var (e, s) := Step(Editor(old(v.Elements()), leftShift, rightShift),
                               Storage(old(v.cap), old(heap.cursor)), code, v.elemSize);
            v.Elements() == e.line && left == e.leftShift && right == e.rightShift
            && v.cap == s.cap && heap.cursor == s.cursor
  {
    left, right := leftShift, rightShift;
    if code == ShiftLeftDown {
      left := true;
    } else if code == ShiftLeftUp {
      left := false;
    } else if code == ShiftRightDown {
      right := true;
    } else if code == ShiftRightUp {
      right := false;
    } else if code == BackspaceKey {
      if !v.Empty() {
        v.PopBack();
      }
    } else if code < 128 {
      var c := ScancodeToAscii(code, leftShift || rightShift);
      if c != Nul {
        v.PushBack(c, heap);
      }
    }
  }

  /** One pass of input's loop for a key other than ENTER, with the line and
      storage it leads to. */
  method InputKey(v: Vector<char>, heap: Heap, keys: seq<Byte>, consumed: nat, leftShift: bool, rightShift: bool,
                  ghost storage0: Storage, ghost editor: Editor, ghost storage: Storage)
    returns (left: bool, right: bool, ghost editor': Editor, ghost storage': Storage)
    requires consumed < |keys| && NoEnter(keys[..consumed + 1]) && NoEnter(keys[..consumed])
    requires (editor, storage) == Run(Fresh, storage0, keys[..consumed], v.elemSize)
    requires v.Valid() && v.Elements() == editor.line && leftShift == editor.leftShift && rightShift == editor.rightShift
    requires v.cap == storage.cap && heap.cursor == storage.cursor
    modifies v, v.data, heap
    ensures (editor', storage') == Run(Fresh, storage0, keys[..consumed + 1], v.elemSize)
    ensures v.Valid() && (v.data == old(v.data) || fresh(v.data))
    ensures v.Elements() == editor'.line && left == editor'.leftShift && right == editor'.rightShift
    ensures v.cap == storage'.cap && heap.cursor == storage'.cursor
  {
    RunStep(Fresh, storage0, keys, consumed, v.elemSize, editor, storage);
    ghost var next := Step(editor, storage, keys[consumed], v.elemSize);
    left, right := ApplyKey(v, heap, keys[consumed], leftShift, rightShift);
    editor', storage' := next.0, next.1;
  }

  /** input(v): clears v, then reads keys until ENTER, tracking both shift
      keys, popping on BACKSPACE and appending the character of every other
      key press that has one. The keys are the scancodes scankey would return,
      in order; the method stops after ENTER or when they run out. */
  method Input(v: Vector<char>, keys: seq<Byte>, heap: Heap) returns (consumed: nat, entered: bool)
    requires v.Valid()
    modifies v, v.data, heap
    ensures v.Valid()
    ensures entered <==> FirstEnter(keys) < |keys|
    ensures consumed == if entered then FirstEnter(keys) + 1 else |keys|
    ensures var (e, s) := Run(Fresh, Storage(old(v.cap), old(heap.cursor)), keys[..FirstEnter(keys)], v.elemSize);
            v.Elements() == e.line && v.cap == s.cap && heap.cursor == s.cursor
  {
    var leftShift, rightShift := false, false;
    v.Clear();
    ghost var storage0 := Storage(old(v.cap), old(heap.cursor));
    ghost var editor, storage := Fresh, storage0;
    consumed := 0;
    entered := false;
    while consumed < |keys|
      invariant consumed <= FirstEnter(keys)
      invariant NoEnter(keys[..consumed])
      invariant (editor, storage) == Run(Fresh, storage0, keys[..consumed], v.elemSize)
      invariant v.Valid() && (v.data == old(v.data) || fresh(v.data))
      invariant v.Elements() == editor.line && leftShift == editor.leftShift && rightShift == editor.rightShift
      invariant v.cap == storage.cap && heap.cursor == storage.cursor
      decreases |keys| - consumed
    {
      var code := keys[consumed];
      FirstEnterAt(keys, consumed);
      if code == EnterKey {
        consumed := consumed + 1;
        entered := true;
        return;
      }
      NoEnterPrefix(keys, consumed + 1);
      leftShift, rightShift, editor, storage :=
        InputKey(v, heap, keys, consumed, leftShift, rightShift, storage0, editor, storage);
      consumed := consumed + 1;
    }
  }
}
