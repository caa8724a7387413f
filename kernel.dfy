/** The shell's text logic (src/kernel.cpp): comparing the typed line with
    command names, echoing part of it, parsing integers, evaluating `calc`
    and choosing the command a line runs. */
module Kernel {
  import opened Screens
  import opened Vectors
  import opened Io

  // ---------------------------------------------------------------------
  // streq_vec and strstarts_vec

  /** The characters of a C string literal: no NUL before its terminator. */
  predicate Literal(text: seq<char>)
  {
    forall k :: 0 <= k < |text| ==> text[k] != Nul
  }

  /** The strlen loop both helpers open with, over the literal and its NUL. */
  method LiteralLength(text: seq<char>) returns (n: nat)
    requires Literal(text)
    ensures n == |text|
  {
    var cstr := text + [Nul];
    n := 0;
    while cstr[n] != Nul
      invariant 0 <= n <= |text|
      decreases |text| - n
    {
      n := n + 1;
    }
  }

  /** streq_vec: the line equals the literal. */
  method StrEq(v: Vector<char>, text: seq<char>) returns (r: bool)
    requires v.Valid() && Literal(text)
    ensures r <==> v.Elements() == text
  {
    var n := LiteralLength(text);
    if v.Size() != n {
      return false;
    }
    var i := 0;
    while i < v.Size()
      invariant 0 <= i <= v.Size()
      invariant v.Elements()[..i] == text[..i]
    {
      if v.Get(i) != text[i] {
        return false;
      }
      i := i + 1;
    }
    assert v.Elements() == v.Elements()[..i];
    return true;
  }

  /** strstarts_vec: the literal is a prefix of the line. */
  method StrStarts(v: Vector<char>, prefix: seq<char>) returns (r: bool)
    requires v.Valid() && Literal(prefix)
    ensures r <==> prefix <= v.Elements()
  {
    var n := LiteralLength(prefix);
    if v.Size() < n {
      return false;
    }
    var i := 0;
    while i < n
      invariant 0 <= i <= n
      invariant v.Elements()[..i] == prefix[..i]
    {
      if v.Get(i) != prefix[i] {
        return false;
      }
      i := i + 1;
    }
    assert prefix == v.Elements()[..n];
    return true;
  }

  // ---------------------------------------------------------------------
  // print_vector_char_range

  /** MAX_ARG_LEN: the local buffer, one slot of it for the NUL. */
  const MaxArgLen := 256

  /** The characters print_vector_char_range copies out of the line: the tail
      from `start`, cut to 255 characters. */
  function ArgText(line: seq<char>, start: nat): (r: seq<char>)
    ensures r <= (if start <= |line| then line[start..] else [])
    ensures start < |line| ==> |r| == if |line| - start < MaxArgLen then |line| - start else MaxArgLen - 1
    ensures start >= |line| ==> r == []
  {
    if start >= |line| then []
    else
      var count := if |line| - start >= MaxArgLen then MaxArgLen - 1 else |line| - start;
      line[start..start + count]
  }

  /** A terminating NUL does not change what print_string prints. */
  lemma {:induction false} CStringTerminated(s: seq<char>)
    ensures CString(s + [Nul]) == CString(s)
    decreases |s|
  {
    if s != [] && s[0] != Nul {
      CStringTerminated(s[1..]);
      assert (s + [Nul])[1..] == s[1..] + [Nul];
    }
  }

  /** print_vector_char_range: nothing when start is past the line, else the
      characters ArgText picks, up to the first NUL among them. */
  method PrintVectorCharRange(screen: Screen, v: Vector<char>, start: nat, color: nat)
    requires screen.Valid() && v.Valid()
    requires forall k :: 0 <= k < |v.Elements()| ==> Ascii(v.Elements()[k])
    modifies screen, screen.cells
    ensures screen.Valid()
    ensures Snapshot(screen) == PutString(old(Snapshot(screen)), CString(ArgText(v.Elements(), start)), color)
  {
    ghost var line := v.Elements();
    ghost var text := ArgText(line, start);
    if start >= v.Size() {
      assert CString(text) == [];
      return;
    }
    var count := v.Size() - start;
    if count >= MaxArgLen {
      count := MaxArgLen - 1;
    }
    var buffer := CopyRange(v, start, count);
    CopiedArgument(line, start, count, buffer[..count + 1]);
    PrintString(screen, buffer[..count + 1], color);
  }

  /** The buffer print_vector_char_range fills holds ArgText and its NUL, so
      printing it prints ArgText up to its first NUL. */
  lemma CopiedArgument(line: seq<char>, start: nat, count: nat, printed: seq<char>)
    requires forall k :: 0 <= k < |line| ==> Ascii(line[k])
    requires start < |line|
    requires count == if |line| - start >= MaxArgLen then MaxArgLen - 1 else |line| - start
    requires printed == line[start..start + count] + [Nul]
    ensures forall k :: 0 <= k < |printed| ==> Ascii(printed[k])
    ensures CString(printed) == CString(ArgText(line, start))
  {
    assert printed == ArgText(line, start) + [Nul];
    CStringTerminated(ArgText(line, start));
  }

  /** The copy loop of print_vector_char_range: `count` characters from
      `start` into a fresh 256-slot buffer, then the NUL. */
  method CopyRange(v: Vector<char>, start: nat, count: nat) returns (buffer: array<char>)
    requires v.Valid() && start + count <= |v.Elements()| && count < MaxArgLen
    ensures fresh(buffer) && buffer.Length == MaxArgLen
    ensures buffer[..count + 1] == v.Elements()[start..start + count] + [Nul]
  {
    buffer := new char[MaxArgLen];
    var i := 0;
    while i < count
      invariant 0 <= i <= count
      invariant buffer[..i] == v.Elements()[start..start + i]
      modifies buffer
    {
      buffer[i] := v.Get(start + i);
      i := i + 1;
    }
    buffer[count] := Nul;
  }

  /** The echo command: the text after "echo ", then a newline. */
  method Echo(screen: Screen, v: Vector<char>, color: nat)
    requires screen.Valid() && v.Valid()
    requires forall k :: 0 <= k < |v.Elements()| ==> Ascii(v.Elements()[k])
    modifies screen, screen.cells
    ensures screen.Valid()
    ensures Snapshot(screen) == PutString(old(Snapshot(screen)), CString(ArgText(v.Elements(), 5)) + "\n", color)
  {
    ghost var start := Snapshot(screen);
    ghost var text := CString(ArgText(v.Elements(), 5));
    if v.Size() > 5 {
      PrintVectorCharRange(screen, v, 5, color);
    } else {
      assert text == [];
    }
    ghost var middle := Snapshot(screen);
    PrintChar(screen, '\n', false, color);
    NewlineAfter(start, text, middle, Snapshot(screen), color);
  }

  /** Printing a text and then a newline prints the text with the newline
      appended. */
  lemma NewlineAfter(start: Display, text: seq<char>, middle: Display, final: Display, color: nat)
    requires start.Wf() && forall k :: 0 <= k < |text| ==> Ascii(text[k])
    requires middle == PutString(start, text, color)
    requires final == PutChar(middle, '\n', false, color)
    ensures final == PutString(start, text + "\n", color)
  {
    assert "\n"[..0] == [];
    PutStringAppend(start, text, "\n", color);
  }

  /** "echo " with nothing after it prints just the newline. */
  lemma EchoAloneIsNewline(d: Display, color: nat)
    requires d.Wf()
    ensures PutString(d, CString(ArgText("echo ", 5)) + "\n", color) == NewlineOnly(d)
  {
    assert CString(ArgText("echo ", 5)) + "\n" == "\n";
    assert "\n"[..0] == [];
  }

  /** A newline alone: the cursor to the start of the next row, scrolling
      past the last one. */
  function NewlineOnly(d: Display): (r: Display)
    requires d.Wf()
    ensures r.Wf()
  {
    PutChar(d, '\n', false, 0)
  }

  // ---------------------------------------------------------------------
  // simple_str_to_long

  predicate IsDigit(c: char)
  {
    '0' <= c <= '9'
  }

  /** The first index from i on that is not a space. */
  function SkipSpaces(s: seq<char>, i: nat): (j: nat)
    ensures i <= j && (j == i || j <= |s|)
    ensures j < |s| ==> s[j] != ' '
    decreases |s| - i
  {
    if i < |s| && s[i] == ' ' then SkipSpaces(s, i + 1) else i
  }

  /** Everything SkipSpaces passes over is a space. */
  lemma {:induction false} SkippedAreSpaces(s: seq<char>, i: nat)
    ensures forall k :: i <= k < SkipSpaces(s, i) ==> s[k] == ' '
    decreases |s| - i
  {
    if i < |s| && s[i] == ' ' {
      SkippedAreSpaces(s, i + 1);
    }
  }

  /** The end of the run of decimal digits starting at i. */
  function DigitRunEnd(s: seq<char>, i: nat): (j: nat)
    ensures i <= j && (j == i || j <= |s|)
    ensures j < |s| ==> !IsDigit(s[j])
    decreases |s| - i
  {
    if i < |s| && IsDigit(s[i]) then DigitRunEnd(s, i + 1) else i
  }

  /** Everything DigitRunEnd passes over is a digit. */
  lemma {:induction false} RunIsDigits(s: seq<char>, i: nat)
    ensures forall k :: i <= k < DigitRunEnd(s, i) ==> IsDigit(s[k])
    decreases |s| - i
  {
    if i < |s| && IsDigit(s[i]) {
      RunIsDigits(s, i + 1);
    }
  }

  /** The value and the next index of simple_str_to_long from index i:
      spaces, at most one sign, then the longest run of digits. */
  function ParseLong(s: seq<char>, i: nat): (r: (int, nat))
    ensures i <= r.1 && (r.1 == i || r.1 <= |s|)
  {
    var j := SkipSpaces(s, i);
    var negative := j < |s| && s[j] == '-';
    var start := if j < |s| && (s[j] == '-' || s[j] == '+') then j + 1 else j;
    var end := DigitRunEnd(s, start);
    var magnitude := if start < end then ValueOf(s[start..end], 10) else 0;
    (if negative then -magnitude else magnitude, end)
  }

  /** ParseLong assembled from its pieces: where the spaces end, where the
      digits start and where they end. */
  lemma ParseLongPieces(s: seq<char>, i: nat, j: nat, start: nat, end: nat, magnitude: nat)
    requires j == SkipSpaces(s, i)
    requires start == if j < |s| && (s[j] == '-' || s[j] == '+') then j + 1 else j
    requires end == DigitRunEnd(s, start)
    requires magnitude == if start < end then ValueOf(s[start..end], 10) else 0
    ensures ParseLong(s, i) == (if j < |s| && s[j] == '-' then -(magnitude as int) else magnitude, end)
  {
  }

  /** SkipSpaces stops at the end of the run of spaces, wherever that is. */
  lemma {:induction false} SkipSpacesAt(s: seq<char>, i: nat, j: nat)
    requires i <= j && (j == i || j <= |s|)
    requires forall k :: i <= k < j ==> s[k] == ' '
    requires j < |s| ==> s[j] != ' '
    ensures SkipSpaces(s, i) == j
    decreases j - i
  {
    if i < j {
      SkipSpacesAt(s, i + 1, j);
    }
  }

  /** DigitRunEnd stops at the end of the run of digits, wherever that is. */
  lemma {:induction false} DigitRunEndAt(s: seq<char>, i: nat, j: nat)
    requires i <= j && (j == i || j <= |s|)
    requires forall k :: i <= k < j ==> IsDigit(s[k])
    requires j < |s| ==> !IsDigit(s[j])
    ensures DigitRunEnd(s, i) == j
    decreases j - i
  {
    if i < j {
      DigitRunEndAt(s, i + 1, j);
    }
  }

  /** What simple_str_to_long reads, described without running it: after the
      maximal run of spaces from i (ending at j), one optional sign, then the
      maximal run of digits [start, end); the value is that run's decimal
      value (0 when it is empty), negated after '-', and parsing stops at
      end. */
  lemma ParseLongCharacterized(s: seq<char>, i: nat, j: nat, start: nat, end: nat)
    requires i <= j && (j == i || j <= |s|)
    requires (forall k :: i <= k < j ==> s[k] == ' ') && (j < |s| ==> s[j] != ' ')
    requires start == if j < |s| && (s[j] == '-' || s[j] == '+') then j + 1 else j
    requires start <= end && (end == start || end <= |s|)
    requires (forall k :: start <= k < end ==> IsDigit(s[k])) && (end < |s| ==> !IsDigit(s[end]))
    ensures var magnitude := if start < end then ValueOf(s[start..end], 10) else 0;
            ParseLong(s, i) == (if j < |s| && s[j] == '-' then -magnitude else magnitude, end)
  {
    SkipSpacesAt(s, i, j);
    DigitRunEndAt(s, start, end);
  }

  /** simple_str_to_long consumes only spaces, a sign and digits, and
      without a digit its value is 0. */
  lemma ParseLongConsumes(s: seq<char>, i: nat)
    ensures var r := ParseLong(s, i);
            && (forall k :: i <= k < r.1 ==> s[k] == ' ' || s[k] == '+' || s[k] == '-' || IsDigit(s[k]))
            && ((forall k :: i <= k < r.1 ==> !IsDigit(s[k])) ==> r.0 == 0)
  {
    var j := SkipSpaces(s, i);
    var start := if j < |s| && (s[j] == '-' || s[j] == '+') then j + 1 else j;
    var end := DigitRunEnd(s, start);
    SkippedAreSpaces(s, i);
    RunIsDigits(s, start);
  }

  /** The space-skipping loop of simple_str_to_long and calc. */
  method SkipSpacesFrom(v: Vector<char>, from: nat) returns (index: nat)
    requires v.Valid()
    ensures index == SkipSpaces(v.Elements(), from)
  {
    index := from;
    while index < v.Size() && v.Get(index) == ' '
      invariant from <= index
      invariant SkipSpaces(v.Elements(), index) == SkipSpaces(v.Elements(), from)
      decreases v.Size() - index
    {
      index := index + 1;
    }
  }

  /** The digit loop of simple_str_to_long: `res = res * 10 + digit` over the
      run of digits from `start`. */
  method AccumulateDigits(v: Vector<char>, start: nat) returns (res: nat, index: nat)
    requires v.Valid()
    ensures index == DigitRunEnd(v.Elements(), start)
    ensures res == if start < index then ValueOf(v.Elements()[start..index], 10) else 0
  {
    ghost var s := v.Elements();
    res := 0;
    index := start;
    while index < v.Size() && '0' <= v.Get(index) <= '9'
      invariant start <= index && (index == start || index <= |s|)
      invariant DigitRunEnd(s, index) == DigitRunEnd(s, start)
      invariant res == if start < index then ValueOf(s[start..index], 10) else 0
      decreases v.Size() - index
    {
      assert s[start..index + 1][..index - start] == s[start..index];
      res := res * 10 + (v.Get(index) as int - '0' as int);
      index := index + 1;
    }
  }

  /** simple_str_to_long: `index` is passed by reference, so the method
      returns where parsing stopped. */
  method SimpleStrToLong(v: Vector<char>, from: nat) returns (value: int, index: nat)
    requires v.Valid()
    ensures (value, index) == ParseLong(v.Elements(), from)
  {
    ghost var s := v.Elements();
    var res: int := 0;
    var isNegative := false;
    var foundDigitOrSign := false;
    index := SkipSpacesFrom(v, from);
    assert v.Elements() == s;
    ghost var j := index;
    if index < v.Size() && v.Get(index) == '-' {
      isNegative := true;
      index := index + 1;
      foundDigitOrSign := true;
    } else if index < v.Size() && v.Get(index) == '+' {
      index := index + 1;
      foundDigitOrSign := true;
    }
    var start := index;
    assert start == if j < |s| && (s[j] == '-' || s[j] == '+') then j + 1 else j;
    assert isNegative == (j < |s| && s[j] == '-');
    res, index := AccumulateDigits(v, start);
    assert v.Elements() == s;
    var foundDigit := start < index;
    if !foundDigit && foundDigitOrSign && !isNegative {
      // a lone '+': parsing simply ends
    } else if !foundDigit && !foundDigitOrSign {
      ParseLongPieces(s, from, j, start, index, res);
      return 0, index;
    }
    value := if isNegative then -res else res;
    ParseLongPieces(s, from, j, start, index, res);
  }

  /** Base-10 digits are the characters '0' to '9'. */
  lemma {:induction false} DecimalDigits(n: nat)
    ensures forall k :: 0 <= k < |Digits(n, 10)| ==> IsDigit(Digits(n, 10)[k])
    decreases n
  {
    assert DigitMap[..10] == "0123456789";
    if n >= 10 {
      DecimalDigits(n / 10);
    }
    var d := if n < 10 then n else n % 10;
    assert DigitChar(d) == DigitMap[..10][d];
  }

  /** Where a number printed by print_int sits in a line, followed by
      something other than a digit, simple_str_to_long reads it back and
      stops right after it. */
  lemma ParseLongReadsIntText(s: seq<char>, i: nat, n: int)
    requires i + |IntText(n)| <= |s| && s[i..i + |IntText(n)|] == IntText(n)
    requires i + |IntText(n)| < |s| ==> !IsDigit(s[i + |IntText(n)|])
    ensures ParseLong(s, i) == (n, i + |IntText(n)|)
  {
    var text := IntText(n);
    IntTextShape(n);
    var end := i + |text|;
    if n < 0 {
      var digits := text[1..];
      assert s[i] == text[0];
      assert s[i + 1..end] == digits;
      ParseLongReadsNegativeRun(s, i, digits);
    } else {
      ParseLongReadsRun(s, i, text);
    }
  }

  /** The printed form of n: its digits, after a '-' when negative, and
      their value. */
  lemma IntTextShape(n: int)
    ensures n >= 0 ==> && |IntText(n)| >= 1
                       && (forall k :: 0 <= k < |IntText(n)| ==> IsDigit(IntText(n)[k]))
                       && ValueOf(IntText(n), 10) == n
    ensures n < 0 ==> && |IntText(n)| >= 2 && IntText(n)[0] == '-'
                      && (forall k :: 1 <= k < |IntText(n)| ==> IsDigit(IntText(n)[k]))
                      && ValueOf(IntText(n)[1..], 10) == -n
  {
    var m := if n < 0 then -n else n;
    DigitsRoundTrip(m, 10);
    DecimalDigits(m);
    if n < 0 {
      assert IntText(n)[1..] == Digits(m, 10);
    } else {
      assert IntText(n) == Digits(m, 10);
    }
  }

  /** ParseLong over a run of digits followed by a non-digit. */
  lemma ParseLongReadsRun(s: seq<char>, i: nat, digits: seq<char>)
    requires |digits| >= 1 && forall k :: 0 <= k < |digits| ==> IsDigit(digits[k])
    requires i + |digits| <= |s| && s[i..i + |digits|] == digits
    requires i + |digits| < |s| ==> !IsDigit(s[i + |digits|])
    ensures ParseLong(s, i) == (ValueOf(digits, 10), i + |digits|)
  {
    var end := i + |digits|;
    ReadsRun(s, i, digits);
    assert s[i] == digits[0];
    ParseLongOfRun(s, i, end);
    assert ValueOf(s[i..end], 10) == ValueOf(digits, 10);
  }

  /** ParseLong over '-' and a run of digits followed by a non-digit. */
  lemma ParseLongReadsNegativeRun(s: seq<char>, i: nat, digits: seq<char>)
    requires |digits| >= 1 && forall k :: 0 <= k < |digits| ==> IsDigit(digits[k])
    requires i + 1 + |digits| <= |s| && s[i] == '-' && s[i + 1..i + 1 + |digits|] == digits
    requires i + 1 + |digits| < |s| ==> !IsDigit(s[i + 1 + |digits|])
    ensures ParseLong(s, i) == (-(ValueOf(digits, 10) as int), i + 1 + |digits|)
  {
    var end := i + 1 + |digits|;
    ReadsRun(s, i + 1, digits);
    ParseLongOfNegativeRun(s, i, end);
    assert ValueOf(s[i + 1..end], 10) == ValueOf(digits, 10);
  }

  /** ParseLong at a digit reads the run of digits there. */
  lemma ParseLongOfRun(s: seq<char>, i: nat, end: nat)
    requires i < end == DigitRunEnd(s, i) && IsDigit(s[i])
    ensures ParseLong(s, i) == (ValueOf(s[i..end], 10), end)
  {
    assert SkipSpaces(s, i) == i;
  }

  /** ParseLong at a '-' reads the run of digits after it, negated. */
  lemma ParseLongOfNegativeRun(s: seq<char>, i: nat, end: nat)
    requires i < |s| && s[i] == '-' && i + 1 < end == DigitRunEnd(s, i + 1)
    ensures ParseLong(s, i) == (-(ValueOf(s[i + 1..end], 10) as int), end)
  {
    assert SkipSpaces(s, i) == i;
  }

  /** A string of digits in s, followed by a non-digit, is the whole run of
      digits there. */
  lemma ReadsRun(s: seq<char>, start: nat, digits: seq<char>)
    requires forall k :: 0 <= k < |digits| ==> IsDigit(digits[k])
    requires start + |digits| <= |s| && s[start..start + |digits|] == digits
    requires start + |digits| < |s| ==> !IsDigit(s[start + |digits|])
    ensures DigitRunEnd(s, start) == start + |digits|
  {
    forall k | start <= k < start + |digits|
      ensures IsDigit(s[k])
    {
      assert s[k] == digits[k - start];
    }
    DigitRunEndAt(s, start, start + |digits|);
  }

  // ---------------------------------------------------------------------
  // calc

  /** What a "calc " line does: the value print_int shows, or the error. */
  datatype CalcOutcome =
    | Value(n: int)
      /** "Error: Division by zero." */
    | DivisionByZero
      /** "Error: Invalid operator '<op>'. Use +, -, *, /." */
    | InvalidOperator(op: char)
      /** The line ends after the first number. */
    | MissingOperator
      /** Nothing after the operator, or something that does not start a number. */
    | MissingSecondNumber(op: char)

  /** The usage line is printed when the error leaves `op` at 0. */
  predicate PrintsUsage(o: CalcOutcome)
  {
    match o
    case MissingOperator => true
    case InvalidOperator(op) => op == Nul
    case MissingSecondNumber(op) => op == Nul
    case _ => false
  }

  function Abs(n: int): nat
  {
    if n < 0 then -n else n
  }

  /** C++ integer division: the quotient truncated toward zero. */
  function TruncDiv(a: int, b: int): int
    requires b != 0
  {
    var q := Abs(a) / Abs(b);
    if (a < 0) != (b < 0) then -q else q
  }

  /** The quotient rounds toward zero: the remainder is smaller than the
      divisor and has the dividend's sign. */
  lemma TruncDivRemainder(a: int, b: int)
    requires b != 0
    ensures var r := a - TruncDiv(a, b) * b;
            Abs(r) < Abs(b) && (r == 0 || (r < 0 <==> a < 0))
  {
    var q := Abs(a) / Abs(b);
    DivMod(Abs(a), Abs(b));
    TruncDivTimes(a, b, q);
  }

  /** The quotient's magnitude never overshoots: |q| * |b| <= |a|. */
  lemma TruncDivQuotient(a: int, b: int)
    requires b != 0
    ensures Abs(TruncDiv(a, b)) * Abs(b) <= Abs(a)
  {
    var q, r := Abs(a) / Abs(b), Abs(a) % Abs(b);
    DivMod(Abs(a), Abs(b));
    assert Abs(TruncDiv(a, b)) == q;
    assert q * Abs(b) == Abs(a) - r;
  }

  /** The product TruncDiv(a, b) * b has a's sign and magnitude q * |b|. */
  lemma TruncDivTimes(a: int, b: int, q: int)
    requires b != 0 && q == Abs(a) / Abs(b)
    ensures TruncDiv(a, b) * b == (if a < 0 then -(q * Abs(b)) else q * Abs(b))
  {
    var B := Abs(b);
    if b > 0 {
      assert B == b;
      if a < 0 {
        assert TruncDiv(a, b) == -q;
        assert -q * b == -(q * b);
      } else {
        assert TruncDiv(a, b) == q;
      }
    } else {
      assert B == -b;
      assert q * b == -(q * B);
      if a < 0 {
        assert TruncDiv(a, b) == q;
      } else {
        assert TruncDiv(a, b) == -q;
        assert -q * b == q * B;
      }
    }
  }

  /** The switch on the operator. */
  function Apply(op: char, a: int, b: int): (o: CalcOutcome)
    ensures o.Value? <==> op in "+-*" || (op == '/' && b != 0)
  {
    if op == '+' then Value(a + b)
    else if op == '-' then Value(a - b)
    else if op == '*' then Value(a * b)
    else if op == '/' then (if b == 0 then DivisionByZero else Value(TruncDiv(a, b)))
    else InvalidOperator(op)
  }

  /** Can this character start the second number? */
  predicate StartsNumber(c: char)
  {
    IsDigit(c) || c == '-' || c == '+'
  }

  /** What calc reads from a line: both numbers and the operator, or where
      reading stopped. */
  datatype CalcParse =
    | Operands(a: int, op: char, b: int)
    | NoOperator
    | NoSecondNumber(op: char)

  /** The reading part of calc: the first number from index 5, the operator
      as the next non-space character, then the second number, which must
      start with a digit or a sign. */
  function ParseCalc(line: seq<char>): CalcParse
  {
    var first := ParseLong(line, 5);
    ParseOperator(line, first.0, SkipSpaces(line, first.1))
  }

  /** Reading once the first number a is read and the operator is looked for
      at index j. */
  function ParseOperator(line: seq<char>, a: int, j: nat): CalcParse
  {
    if j >= |line| then NoOperator
    else ParseSecond(line, a, line[j], SkipSpaces(line, j + 1))
  }

  /** Reading once the operator op is read and the second number is looked
      for at index k. */
  function ParseSecond(line: seq<char>, a: int, op: char, k: nat): CalcParse
  {
    if k >= |line| || !StartsNumber(line[k]) then NoSecondNumber(op)
    else Operands(a, op, ParseLong(line, k).0)
  }

  /** The evaluating part of calc. */
  function Evaluate(p: CalcParse): CalcOutcome
  {
    match p
    case Operands(a, op, b) => Apply(op, a, b)
    case NoOperator => MissingOperator
    case NoSecondNumber(op) => MissingSecondNumber(op)
  }

  /** calc on the whole line. */
  function CalcSpec(line: seq<char>): CalcOutcome
  {
    Evaluate(ParseCalc(line))
  }

  /** The calc branch of kernel_main, with its `index`, `op` and `error`
      variables. */
  method Calc(v: Vector<char>) returns (outcome: CalcOutcome)
    requires v.Valid()
    ensures outcome == CalcSpec(v.Elements())
  {
    ghost var s := v.Elements();
    var index := 5;
    var num1 := 0;
    var num2 := 0;
    var op := Nul;
    var error := false;
    num1, index := SimpleStrToLong(v, index);
    ghost var afterFirst := index;
    index := SkipSpacesFrom(v, index);
    ghost var j := index;
    if index < v.Size() {
      op := v.Get(index);
      index := index + 1;
    } else {
      error := true;
      outcome := MissingOperator;
      CalcNoOperator(s, num1, afterFirst);
    }
    index := SkipSpacesFrom(v, index);
    if !error {
      CalcAfterOperator(s, num1, afterFirst, j, index);
    }
    if !error && index < v.Size() {
      var c := v.Get(index);
      if '0' <= c <= '9' || c == '-' || c == '+' {
        ghost var k := index;
        num2, index := SimpleStrToLong(v, index);
        CalcOperands(s, num1, op, k, num2, index);
      } else {
        error := true;
        outcome := MissingSecondNumber(op);
        CalcNoSecondNumber(s, num1, op, index);
      }
    } else if !error {
      error := true;
      outcome := MissingSecondNumber(op);
      CalcNoSecondNumber(s, num1, op, index);
    }
    if !error {
      outcome := Apply(op, num1, num2);
    }
  }

  /** ParseCalc once the first number is read. */
  lemma ParseCalcAfterFirst(line: seq<char>, a: int, i: nat)
    requires ParseLong(line, 5) == (a, i)
    ensures ParseCalc(line) == ParseOperator(line, a, SkipSpaces(line, i))
  {
  }

  /** On a line without NUL characters (every line input() returns), the
      usage line is printed exactly when the operator is missing: any
      operator that was read is not 0. */
  lemma UsageIffMissingOperator(line: seq<char>)
    requires forall k :: 0 <= k < |line| ==> line[k] != Nul
    ensures PrintsUsage(CalcSpec(line)) <==> CalcSpec(line) == MissingOperator
  {
    var first := ParseLong(line, 5);
    var j := SkipSpaces(line, first.1);
    if j < |line| {
      assert line[j] != Nul;
    }
  }

  /** The line ends after the first number: no operator. */
  lemma CalcNoOperator(s: seq<char>, a: int, i: nat)
    requires ParseLong(s, 5) == (a, i) && SkipSpaces(s, i) >= |s|
    ensures CalcSpec(s) == MissingOperator
  {
  }

  /** The operator is the first non-space character after the first number,
      and the second number is looked for past the spaces that follow it. */
  lemma CalcAfterOperator(s: seq<char>, a: int, i: nat, j: nat, k: nat)
    requires ParseLong(s, 5) == (a, i) && j == SkipSpaces(s, i) && j < |s|
    requires k == SkipSpaces(s, j + 1)
    ensures ParseCalc(s) == ParseSecond(s, a, s[j], k)
  {
  }

  /** Both numbers and the operator are read: calc evaluates them. */
  lemma CalcOperands(s: seq<char>, a: int, op: char, k: nat, b: int, e: nat)
    requires ParseCalc(s) == ParseSecond(s, a, op, k)
    requires k < |s| && StartsNumber(s[k]) && ParseLong(s, k) == (b, e)
    ensures CalcSpec(s) == Apply(op, a, b)
  {
  }

  /** Nothing that starts a number follows the operator. */
  lemma CalcNoSecondNumber(s: seq<char>, a: int, op: char, k: nat)
    requires ParseCalc(s) == ParseSecond(s, a, op, k)
    requires k >= |s| || !StartsNumber(s[k])
    ensures CalcSpec(s) == MissingSecondNumber(op)
  {
  }

  /** A calc line written the way print_int prints its numbers reads back
      as those numbers and that operator. */
  lemma ParseCalcReadsPrinted(a: int, op: char, b: int)
    requires op in "+-*/"
    ensures ParseCalc(PrintedCalc(a, op, b)) == Operands(a, op, b)
  {
    PrintedCalcFirst(a, op, b);
    ParseCalcAfterFirst(PrintedCalc(a, op, b), a, 5 + |IntText(a)|);
    PrintedCalcOperator(a, op, b);
    PrintedCalcSecond(a, op, b);
  }

  /** Such a line evaluates the operator on those numbers. */
  lemma CalcEvaluatesPrintedOperands(a: int, op: char, b: int)
    requires op in "+-*/"
    ensures CalcSpec(PrintedCalc(a, op, b)) == Apply(op, a, b)
  {
    ParseCalcReadsPrinted(a, op, b);
  }

  /** A calc line with both numbers as print_int prints them and the
      operator between single spaces. */
  function PrintedCalc(a: int, op: char, b: int): (line: seq<char>)
    ensures |line| == 8 + |IntText(a)| + |IntText(b)|
  {
    "calc " + IntText(a) + " " + [op] + " " + IntText(b)
  }

  /** In a printed calc line the first number reads back as a. */
  lemma PrintedCalcFirst(a: int, op: char, b: int)
    ensures ParseLong(PrintedCalc(a, op, b), 5) == (a, 5 + |IntText(a)|)
  {
    PrintedCalcFirstText(a, op, b);
    ParseLongReadsIntText(PrintedCalc(a, op, b), 5, a);
  }

  /** In a printed calc line the first number's text sits at index 5 and a
      space follows it. */
  lemma PrintedCalcFirstText(a: int, op: char, b: int)
    ensures var line, ta := PrintedCalc(a, op, b), IntText(a);
            line[5..5 + |ta|] == ta && line[5 + |ta|] == ' '
  {
    var ta, rest := IntText(a), " " + [op] + " " + IntText(b);
    assert PrintedCalc(a, op, b) == "calc " + ta + rest;
    MiddleSlice("calc ", ta, rest);
  }

  /** The middle piece of a three-piece sequence, cut out again. */
  lemma MiddleSlice<T>(p: seq<T>, x: seq<T>, q: seq<T>)
    ensures (p + x + q)[|p|..|p| + |x|] == x
    ensures |q| > 0 ==> (p + x + q)[|p| + |x|] == q[0]
  {
    assert (p + x + q)[|p|..|p| + |x|] == ((p + x) + q)[..|p| + |x|][|p|..];
  }

  /** In a printed calc line the operator is the first non-space character
      after the first number. */
  lemma PrintedCalcOperator(a: int, op: char, b: int)
    requires op in "+-*/"
    ensures var line, i := PrintedCalc(a, op, b), 5 + |IntText(a)|;
            SkipSpaces(line, i) == i + 1 && line[i + 1] == op
  {
    var line, i := PrintedCalc(a, op, b), 5 + |IntText(a)|;
    assert line[i] == ' ' && line[i + 1] == op;
  }

  /** In a printed calc line the second number starts after the spaces
      that follow the operator and reads back as b. */
  lemma PrintedCalcSecond(a: int, op: char, b: int)
    ensures var line, k := PrintedCalc(a, op, b), 8 + |IntText(a)|;
            && SkipSpaces(line, k - 1) == k
            && ParseSecond(line, a, op, k) == Operands(a, op, b)
  {
    var line, tb := PrintedCalc(a, op, b), IntText(b);
    var k := 8 + |IntText(a)|;
    assert line[k - 1] == ' ';
    assert line[k..k + |tb|] == tb;
    assert StartsNumber(line[k]) by {
      IntTextShape(b);
      assert line[k] == tb[0];
    }
    ParseLongReadsIntText(line, k, b);
  }

  // ---------------------------------------------------------------------
  // command dispatch

  /** The branch kernel_main takes for a line. */
  datatype Command =
    | Ignore
    | Help
    | ClearScreen
    | EchoLine
    | CalcLine(outcome: CalcOutcome)
    | Shutdown
    | Unknown

  /** The branch order of kernel_main's loop. */
  function Classify(line: seq<char>): Command
  {
    if line == [] then Ignore
    else if line == "help" then Help
    else if line == "cls" then ClearScreen
    else if "echo " <= line then EchoLine
    else if "calc " <= line then CalcLine(CalcSpec(line))
    else if line == "shutdown" then Shutdown
    else Unknown
  }

  /** Each command is chosen by exactly its own test, after the earlier ones
      fail. */
  lemma ClassifyCases(line: seq<char>)
    ensures Classify(line) == Ignore <==> line == []
    ensures Classify(line) == Help <==> line == "help"
    ensures Classify(line) == ClearScreen <==> line == "cls"
    ensures Classify(line) == EchoLine <==> "echo " <= line
    ensures Classify(line).CalcLine? <==> "calc " <= line
    ensures Classify(line) == Shutdown <==> line == "shutdown"
    ensures Classify(line) == Unknown <==>
              line != [] && line !in {"help", "cls", "shutdown"} && !("echo " <= line) && !("calc " <= line)
  {
    if "echo " <= line {
      assert line[..5] == "echo ";
      assert line != "help" && line != "cls" && line != "shutdown" by {
        assert "help"[0] != 'e' && "cls"[0] != 'e' && "shutdown"[0] != 'e';
      }
      assert !("calc " <= line) by {
        assert line[0] == 'e';
      }
    }
    if "calc " <= line {
      assert line[..5] == "calc ";
      assert line[1] == 'a';
    }
  }

  /** kernel_main's if-chain for one non-empty or empty line. */
  method Dispatch(v: Vector<char>) returns (command: Command)
    requires v.Valid()
    ensures command == Classify(v.Elements())
  {
    if v.Empty() {
      return Ignore;
    }
    var matched := StrEq(v, "help");
    if matched {
      return Help;
    }
    matched := StrEq(v, "cls");
    if matched {
      return ClearScreen;
    }
    matched := StrStarts(v, "echo ");
    if matched {
      return EchoLine;
    }
    matched := StrStarts(v, "calc ");
    if matched {
      var outcome := Calc(v);
      return CalcLine(outcome);
    }
    matched := StrEq(v, "shutdown");
    if matched {
      return Shutdown;
    }
    return Unknown;
  }
}
