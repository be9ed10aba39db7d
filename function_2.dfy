/** function_2.c: %%, %c, %s, %b and %d / %i. */
module Function2 {
  import opened Defs
  import opened Utils
  import opened Io
  import opened DigitRuns
  import opened WriteHandlers

  // ------------------------------------------------------------ print_percent

  /** print_percent: `write(1, "%%", 1)` writes the first byte of "%%". */
  method PrintPercent(types: VaList, buffer: array<char>, flags: bv8, width: int, precision: int,
                      size: int, sink: Sink) returns (r: int)
    modifies sink
    ensures sink.text == old(sink.text) + "%" && r == 1
  {
    r := sink.WriteText("%%", 1);
  }

  // --------------------------------------------------------------- print_char

  /** The byte `char c = va_arg(types, int)` keeps: the low eight bits of the
      int. */
  function LowByte(i: int): (c: char)
    ensures IsByte(c) && (c as int - i) % 256 == 0
  {
    (i % 256) as char
  }

  /** A value that already is a (signed or unsigned) char survives the
      conversion: as a byte it is the value, read as a signed char it is the
      value. */
  lemma LowByteKeepsChars(i: int)
    ensures 0 <= i < 256 ==> LowByte(i) as int == i
    ensures -128 <= i < 128 ==> SignedChar(LowByte(i)) == i
  {
  }

  /** print_char. */
  method PrintChar(types: VaList, buffer: array<char>, flags: bv8, width: int, precision: int,
                   size: int, sink: Sink) returns (r: int)
    requires IntAt(types.args, types.next) && buffer.Length == BUFF_SIZE && width <= BUFF_SIZE - 1
    modifies types, buffer, sink
    ensures types.next == old(types.next) + 1
    ensures var out := CharField(LowByte(types.args[old(types.next)].i), flags, width);
      sink.text == old(sink.text) + out && r == |out|
  {
    var arg := types.Next();
    var c := LowByte(arg.i);
    r := HandleWriteChar(c, buffer, flags, width, precision, size, sink);
  }

  /** %c emits `width` bytes or one, and the one that is not pad is the low
      byte of the argument. */
  lemma CharOut(i: int, flags: bv8, width: int)
    ensures var f := CharField(LowByte(i), flags, width);
      var at := if HasFlag(flags, F_MINUS) then 0 else |f| - 1;
      |f| == Max(width, 1) && (f[at] as int - i) % 256 == 0
  {
    CharFieldShape(LowByte(i), flags, width);
  }

  // ------------------------------------------------------------- print_string

  /** The characters print_string starts from: the argument's body; for null,
      "(null)", or six blanks when the precision is at least 6. */
  function StringSource(s: Option<seq<char>>, precision: int): seq<char>
    requires s.Some? ==> CString(s.value)
  {
    if s.Some? then Body(s.value)
    else if precision >= 6 then "      "
    else "(null)"
  }

  /** The part the precision keeps: its first `precision` characters when the
      precision is set and shorter than the string. */
  function Shown(src: seq<char>, precision: int): seq<char> {
    if 0 <= precision < |src| then src[..precision] else src
  }

  /** The bytes print_string emits. */
  function StringOut(s: Option<seq<char>>, flags: bv8, width: int, precision: int): seq<char>
    requires s.Some? ==> CString(s.value)
  {
    var shown := Shown(StringSource(s, precision), precision);
    if width > |shown| then
      if HasFlag(flags, F_MINUS) then shown + Rep(' ', width - |shown|)
      else Rep(' ', width - |shown|) + shown
    else shown
  }

  /** One more blank in a run of blanks. */
  lemma RepSnoc(c: char, n: int)
    requires n >= 0
    ensures Rep(c, n + 1) == Rep(c, n) + [c]
  {
  }

  /** print_string. */
  method PrintString(types: VaList, buffer: array<char>, flags: bv8, width: int, precision: int,
                     size: int, sink: Sink) returns (r: int)
    requires StrAt(types.args, types.next)
    modifies types, sink
    ensures types.next == old(types.next) + 1
    ensures var out := StringOut(types.args[old(types.next)].s, flags, width, precision);
      sink.text == old(sink.text) + out && r == |out|
  {
    var length := 0;
    var arg := types.Next();
    var str: seq<char>;
    if arg.s.None? {
      str := "(null)\0";
      if precision >= 6 {
        str := "      \0";
      }
    } else {
      str := arg.s.value;
    }
    ghost var src := StringSource(arg.s, precision);
    assert src == str[..|str| - 1] && CString(str);
    while str[length] != '\0'
      invariant 0 <= length < |str|
      decreases |str| - length
    {
      length := length + 1;
    }
    assert length == |src|;
    if precision >= 0 && precision < length {
      length := precision;
    }
    ghost var shown := Shown(src, precision);
    assert str[..length] == shown;
    if width > length {
      r := PadString(str, length, width, flags, sink);
      return;
    }
    r := sink.WriteText(str, length);
  }

  /** print_string's padded case: the string and `width - length` one-byte
      writes of a blank, in the order '-' asks for. */
  method PadString(str: seq<char>, length: int, width: int, flags: bv8, sink: Sink) returns (r: int)
    requires 0 <= length <= |str| && width > length
    modifies sink
    ensures var shown := str[..length];
      var out := if HasFlag(flags, F_MINUS) then shown + Rep(' ', width - length) else Rep(' ', width - length) + shown;
      sink.text == old(sink.text) + out && r == |out|
  {
    var w: int;
    if HasFlag(flags, F_MINUS) {
      w := sink.WriteText(str, length);
      w := WriteBlanks(width - length, sink);
    } else {
      w := WriteBlanks(width - length, sink);
      w := sink.WriteText(str, length);
    }
    r := width;
  }

  /** `for (i = count; i > 0; i--) write(1, " ", 1);` */
  method WriteBlanks(count: int, sink: Sink) returns (r: int)
    requires count >= 0
    modifies sink
    ensures sink.text == old(sink.text) + Rep(' ', count) && r == count
  {
    var i := count;
    while i > 0
      invariant 0 <= i <= count
      invariant sink.text == old(sink.text) + Rep(' ', count - i)
    {
      var w := sink.WriteText(" ", 1);
      RepSnoc(' ', count - i);
      i := i - 1;
    }
    r := count;
  }

  /** %s emits `width` bytes or the kept part of the string, whichever is
      longer; the kept part is a prefix of the string, no longer than a set
      precision and the whole string when none is set, and it sits at the
      front under '-' and at the back otherwise, with blanks elsewhere. */
  lemma StringOutShape(s: Option<seq<char>>, flags: bv8, width: int, precision: int)
    requires s.Some? ==> CString(s.value)
    ensures var src := StringSource(s, precision);
      var shown := Shown(src, precision);
      var out := StringOut(s, flags, width, precision);
      |out| == Max(width, |shown|) &&
      |shown| <= |src| && shown == src[..|shown|] &&
      (precision >= 0 ==> |shown| <= precision) && (precision < 0 ==> shown == src) &&
      (if HasFlag(flags, F_MINUS) then out[..|shown|] == shown && forall k :: |shown| <= k < |out| ==> out[k] == ' '
       else out[|out| - |shown|..] == shown && forall k :: 0 <= k < |out| - |shown| ==> out[k] == ' ')
  {
    var shown := Shown(StringSource(s, precision), precision);
    var out := StringOut(s, flags, width, precision);
    if width > |shown| && !HasFlag(flags, F_MINUS) {
      assert out == Rep(' ', width - |shown|) + shown;
    }
  }

  /** A null string prints as a prefix of "(null)" below precision 6, and as
      blanks only from precision 6 on. */
  lemma NullString(flags: bv8, width: int, precision: int)
    ensures var out := StringOut(None, flags, width, precision);
      var shown := Shown(StringSource(None, precision), precision);
      (precision < 6 ==> shown == "(null)"[..|shown|]) &&
      (precision >= 6 ==> forall k :: 0 <= k < |out| ==> out[k] == ' ')
  {
    var out := StringOut(None, flags, width, precision);
    var shown := Shown(StringSource(None, precision), precision);
    if precision >= 6 {
      assert shown == "      ";
      forall k | 0 <= k < |out|
        ensures out[k] == ' '
      {
        if width > |shown| && !HasFlag(flags, F_MINUS) {
          assert out == Rep(' ', width - 6) + shown;
        }
        if width > |shown| && HasFlag(flags, F_MINUS) {
          assert out == shown + Rep(' ', width - 6);
        }
      }
    }
  }

  // ------------------------------------------------------------- print_binary

  /** Division facts for the shift by one bit. */
  lemma DivUnique(n: nat, d: nat, x: nat, y: nat)
    requires d > 0 && y < d && n == x * d + y
    ensures n / d == x && n % d == y
  {
    var q := n / d;
    var r := n % d;
    assert (q - x) * d == y - r;
    if q > x {
      MulAtLeast(q - x, d);
    } else if q < x {
      MulAtLeast(x - q, d);
    }
  }

  lemma MulAtLeast(a: int, d: int)
    requires a >= 1 && d >= 0
    ensures a * d >= d
  {
    assert a * d == (a - 1) * d + d;
  }

  /** The bits above position k are the bits above k + 1, shifted, plus bit k. */
  lemma ShiftBit(n: nat, k: nat)
    ensures n / Pow2(k) == 2 * (n / Pow2(k + 1)) + n / Pow2(k) % 2
  {
    assert Pow2(k + 1) == 2 * Pow2(k);
    HalveQuotient(n, Pow2(k));
  }

  /** Dividing by twice the divisor halves the quotient. */
  lemma HalveQuotient(n: nat, p: nat)
    requires p > 0
    ensures n / p == 2 * (n / (2 * p)) + n / p % 2
  {
    var q := n / p;
    var r := n % p;
    var h := q / 2;
    var b := q % 2;
    var bp := if b == 0 then 0 else p;
    Regroup(q, p, h, b, bp, r);
    DivUnique(n, 2 * p, h, bp + r);
  }

  lemma Regroup(q: nat, p: nat, h: nat, b: nat, bp: nat, r: nat)
    requires q == 2 * h + b && (b == 0 || b == 1) && bp == b * p
    ensures q * p + r == h * (2 * p) + (bp + r)
  {
    calc {
      q * p + r;
      (2 * h + b) * p + r;
      h * (2 * p) + b * p + r;
    }
  }

  /** 2^31 is the first mask print_binary uses, and an unsigned int has no bit
      at or above 2^32. */
  lemma UIntBits(n: nat)
    requires n < UINT_LIMIT
    ensures Pow2(31) == 2147483648 && n / Pow2(32) == 0 && n / Pow2(31) < 2
  {
    Pow2Of32();
  }

  lemma Pow2Of32()
    ensures Pow2(31) == 2147483648 && Pow2(32) == UINT_LIMIT
  {
    assert Pow2(1) == 2 && Pow2(2) == 4 && Pow2(3) == 8 && Pow2(4) == 16;
    Pow2Add(4, 4);
    assert Pow2(8) == 0x100;
    Pow2Add(8, 8);
    assert Pow2(16) == 0x1_0000;
    Pow2Add(16, 15);
    assert Pow2(31) == 0x8000_0000;
  }

  /** print_binary's first loop: a[0] is n / 2^31 and, with the mask halved
      each time, a[i] is the bit of n worth 2^(31-i). */
  method BinaryBits(n: nat) returns (a: array<nat>)
    requires n < UINT_LIMIT
    ensures fresh(a) && a.Length == 32
    ensures forall k :: 0 <= k < 32 ==> a[k] == n / Pow2(31 - k) % 2
  {
    a := new nat[32];
    var m: nat := 2147483648;
    UIntBits(n);
    a[0] := n / m;
    assert a[0] == n / Pow2(31) % 2;
    var i := 1;
    while i < 32
      invariant 1 <= i <= 32 && m == Pow2(32 - i)
      invariant forall k :: 0 <= k < i ==> a[k] == n / Pow2(31 - k) % 2
    {
      ghost var half := Pow2(32 - (i + 1));
      assert m == 2 * half;
      m := m / 2;
      a[i] := (n / m) % 2;
      assert a[i] == n / Pow2(31 - i) % 2;
      i := i + 1;
    }
  }

  /** The number a string of bits, most significant first, stands for. */
  function BitsValue(bits: seq<nat>): nat {
    if bits == [] then 0 else 2 * BitsValue(bits[..|bits| - 1]) + bits[|bits| - 1]
  }

  /** The first i bits of the first loop's array form the number n / 2^(32-i);
      all 32 of them form n. */
  lemma {:induction false} BitsOfValue(n: nat, bits: seq<nat>, i: nat)
    requires n < UINT_LIMIT && |bits| == 32 && i <= 32
    requires forall k :: 0 <= k < 32 ==> bits[k] == n / Pow2(31 - k) % 2
    ensures BitsValue(bits[..i]) == n / Pow2(32 - i)
    decreases i
  {
    if i == 0 {
      UIntBits(n);
    } else {
      BitsOfValue(n, bits, i - 1);
      assert bits[..i][..i - 1] == bits[..i - 1];
      assert 32 - (i - 1) == (32 - i) + 1;
      ShiftBit(n, 32 - i);
    }
  }

  /** Appending one bit to a non-zero number appends its digit. */
  lemma BinaryDigitStep(q: nat, q': nat, bit: nat)
    requires q' == 2 * q + bit && bit < 2 && q' != 0
    ensures Digits(q', 2, false) == Digits(q, 2, false) + [('0' as int + bit) as char]
  {
    assert q' / 2 == q && q' % 2 == bit;
  }

  /** print_binary. */
  method PrintBinary(types: VaList, buffer: array<char>, flags: bv8, width: int, precision: int,
                     size: int, sink: Sink) returns (count: int)
    requires UIntAt(types.args, types.next)
    modifies types, sink
    ensures types.next == old(types.next) + 1
    ensures var out := Rendered(types.args[old(types.next)].u, 2, false);
      sink.text == old(sink.text) + out && count == |out|
  {
    var arg := types.Next();
    var n: nat := arg.u;
    var a := BinaryBits(n);
    BitsOfValue(n, a[..], 32);
    assert a[..][..32] == a[..];
    count := EmitBits(a, sink);
  }

  /** print_binary's second loop: `sum` stays zero through the leading zero
      bits, which are skipped; from the first one bit on, and for the last
      bit in any case, the bit is written as a digit. `lead` is the number
      the bits seen so far form. */
  method EmitBits(a: array<nat>, sink: Sink) returns (count: int)
    requires a.Length == 32 && forall k :: 0 <= k < 32 ==> a[k] < 2
    modifies sink
    ensures sink.text == old(sink.text) + Rendered(BitsValue(a[..]), 2, false)
    ensures count == |Rendered(BitsValue(a[..]), 2, false)|
  {
    var i := 0;
    var sum: nat := 0;
    count := 0;
    ghost var lead: nat := 0;
    while i < 32
      invariant 0 <= i <= 32 && lead == BitsValue(a[..i])
      invariant sum == 0 <==> lead == 0
      invariant sink.text == old(sink.text) + if i < 32 then Digits(lead, 2, false) else Rendered(lead, 2, false)
      invariant count == |sink.text| - |old(sink.text)|
    {
      assert a[..i + 1][..i] == a[..i];
      ghost var next := 2 * lead + a[i];
      sum := sum + a[i];
      if sum != 0 || i == 31 {
        var z := ('0' as int + a[i]) as char;
        var w := sink.WriteText([z], 1);
        count := count + 1;
        if next != 0 {
          BinaryDigitStep(lead, next, a[i]);
        }
      }
      lead := next;
      i := i + 1;
    }
    assert a[..i] == a[..];
  }

  /** %b prints binary digits only, reading back as the argument, with no
      leading zero unless the argument is zero. */
  lemma BinaryOut(n: nat)
    ensures var out := Rendered(n, 2, false);
      ValueOf(out, 2) == n && (forall k :: 0 <= k < |out| ==> out[k] == '0' || out[k] == '1') &&
      (out[0] == '0' <==> n == 0)
  {
    var out := Rendered(n, 2, false);
    RenderedValue(n, 2, false);
    DigitsChars(n, 2, false);
    forall k | 0 <= k < |out|
      ensures out[k] == '0' || out[k] == '1'
    {
      if n != 0 {
        assert HexDigitValue(out[k]) < 2;
      }
    }
  }

  // ---------------------------------------------------------------- print_int

  /** %b of an `unsigned int` emits between 1 and 32 digits. */
  lemma BinaryLength(n: nat)
    requires n < UINT_LIMIT
    ensures 1 <= |Rendered(n, 2, false)| <= 32
  {
    RenderedValue(n, 2, false);
    Pow2Of32();
    DigitsLength(n, 2, false, 32);
  }

  function Abs(v: int): nat {
    if v < 0 then -v else v
  }

  /** The run print_int stages: the decimal digits of the magnitude of the
      argument as the length modifier casts it. */
  function IntRun(n: int, size: int): seq<char>
    requires LONG_MIN <= n <= LONG_MAX
  {
    Rendered(Abs(ConvertSizeNumber(n, size)), 10, false)
  }

  /** The bytes print_int emits. */
  function IntOut(n: int, flags: bv8, width: int, precision: int, size: int): seq<char>
    requires LONG_MIN <= n <= LONG_MAX
  {
    NumberField(IntRun(n, size), if ConvertSizeNumber(n, size) < 0 then 1 else 0, flags, width, precision)
  }

  /** print_int: the digit staging is the shared StageDigits, and the
      magnitude `(unsigned long)((-1) * n)` of a negative number is its
      absolute value. */
  method PrintInt(types: VaList, buffer: array<char>, flags: bv8, width: int, precision: int,
                  size: int, sink: Sink) returns (r: int)
    requires LongAt(types.args, types.next) && ConvertSizeNumber(types.args[types.next].i, size) != LONG_MIN
    requires buffer.Length == BUFF_SIZE && width <= MAX_FIELD && precision <= MAX_FIELD
    modifies types, buffer, sink
    ensures types.next == old(types.next) + 1
    ensures var out := IntOut(types.args[old(types.next)].i, flags, width, precision, size);
      sink.text == old(sink.text) + out && r == |out|
  {
    var isNegative := 0;
    var arg := types.Next();
    var n := ConvertSizeNumber(arg.i, size);
    var num: nat := if n < 0 then -1 * n else n;
    if n < 0 {
      isNegative := 1;
    }
    assert arg == old(types.args[types.next]) && LONG_MIN < n <= LONG_MAX;
    assert num == Abs(n) < ULONG_LIMIT;
    var i := StageDigits(buffer, num, 10, false);
    i := i + 1;
    assert buffer[i..BUFF_SIZE - 1] == IntRun(arg.i, size);
    assert isNegative == if ConvertSizeNumber(arg.i, size) < 0 then 1 else 0;
    r := WriteNumber(isNegative, i, buffer, flags, width, precision, size, sink);
  }

  /** The staged run reads back, in base 10, as the magnitude of the cast
      argument, holds only decimal digits, and has no leading zero unless
      that is zero. */
  lemma IntRunValue(n: int, size: int)
    requires LONG_MIN <= n <= LONG_MAX
    ensures var run := IntRun(n, size);
      ValueOf(run, 10) == Abs(ConvertSizeNumber(n, size)) &&
      AllDigits(run) && (run[0] == '0' <==> ConvertSizeNumber(n, size) == 0)
  {
    var v := Abs(ConvertSizeNumber(n, size));
    var run := IntRun(n, size);
    RenderedValue(v, 10, false);
    DigitsChars(v, 10, false);
    forall k | 0 <= k < |run|
      ensures IsDigitChar(run[k])
    {
      assert HexDigitValue(run[k]) < 10;
    }
  }

  /** End to end, zero-padded and without a precision that cuts the pad:
      %d emits a '-' exactly for a negative cast argument (or the '+' or ' '
      the flags ask for otherwise), then digits that read back as its
      magnitude. */
  lemma IntZeroPaddedOutput(n: int, flags: bv8, width: int, precision: int, size: int)
    requires LONG_MIN <= n <= LONG_MAX
    requires HasFlag(flags, F_ZERO) && !HasFlag(flags, F_MINUS)
    requires !LoneZero(IntRun(n, size), precision) && !(0 < precision < |IntRun(n, size)|)
    ensures var v := ConvertSizeNumber(n, size);
      var out := IntOut(n, flags, width, precision, size);
      var ex := Extra(SignChar(if v < 0 then 1 else 0, flags));
      (v < 0 ==> ex == "-") && |out| >= |ex| && out[..|ex|] == ex &&
      ValueOf(out[|ex|..], 10) == Abs(v) && AllDigits(out[|ex|..])
  {
    var v := ConvertSizeNumber(n, size);
    var isNegative := if v < 0 then 1 else 0;
    var run := IntRun(n, size);
    var out := IntOut(n, flags, width, precision, size);
    assert out == NumberField(run, isNegative, flags, width, precision);
    var ex := Extra(SignChar(isNegative, flags));
    IntRunValue(n, size);
    NumberFieldZeroPadded(run, isNegative, flags, width, precision, 10);
    ZerosThenDigits(out[|ex|..], Rep('0', |out| - |ex| - |run|), run);
  }

  /** Leading zeros before a run of decimal digits leave only decimal
      digits. */
  lemma ZerosThenDigits(t: seq<char>, zeros: seq<char>, run: seq<char>)
    requires t == zeros + run && (forall k :: 0 <= k < |zeros| ==> zeros[k] == '0') && AllDigits(run)
    ensures AllDigits(t)
  {
  }

  predicate AllDigits(s: seq<char>) {
    forall k :: 0 <= k < |s| ==> IsDigitChar(s[k])
  }

  /** A negative cast argument always shows its '-': write_number emits
      exactly one '-' whatever the flags, width and precision, and none for a
      non-negative argument. */
  lemma IntMinusSign(n: int, flags: bv8, width: int, precision: int, size: int)
    requires LONG_MIN <= n <= LONG_MAX
    ensures var v := ConvertSizeNumber(n, size);
      var out := IntOut(n, flags, width, precision, size);
      multiset(out)['-'] == if v < 0 then 1 else 0
  {
    var v := ConvertSizeNumber(n, size);
    var run := IntRun(n, size);
    IntRunValue(n, size);
    assert '-' !in run by {
      assert forall k :: 0 <= k < |run| ==> run[k] != '-';
    }
    if !(LoneZero(run, precision) && width == 0) {
      NumberFieldMinus(run, if v < 0 then 1 else 0, flags, width, precision);
    }
  }
}
