/** function_0.c: the unsigned converters %o, %x, %X and %u. Each reads an
    `unsigned long`, casts it by the length modifier, stages its digits in the
    buffer tail and hands the run to write_unsgnd. */
module Function0 {
  import opened Defs
  import opened Utils
  import opened Io
  import opened DigitRuns
  import opened WriteHandlers

  /** The run print_octal stages: a leading '0' under '#' when the argument as
      passed is not zero, then the octal digits of the cast value. */
  function OctalRun(num: int, flags: bv8, size: int): seq<char>
    requires 0 <= num < ULONG_LIMIT
  {
    (if HasFlag(flags, F_HASH) && num != 0 then "0" else "") + Rendered(ConvertSizeUnsgnd(num, size), 8, false)
  }

  /** The run print_hexa stages: "0x" (or "0X") under '#' when the argument as
      passed is not zero, then the hex digits of the cast value. */
  function HexRun(num: int, flags: bv8, size: int, upper: bool): seq<char>
    requires 0 <= num < ULONG_LIMIT
  {
    (if HasFlag(flags, F_HASH) && num != 0 then HexPrefix(upper) else "") + Rendered(ConvertSizeUnsgnd(num, size), 16, upper)
  }

  function HexPrefix(upper: bool): seq<char> {
    if upper then "0X" else "0x"
  }

  /** The run print_unsigned stages: the decimal digits of the cast value. */
  function UnsignedRun(num: int, size: int): seq<char>
    requires 0 <= num < ULONG_LIMIT
  {
    Rendered(ConvertSizeUnsgnd(num, size), 10, false)
  }

  /** print_octal. */
  method PrintOctal(types: VaList, buffer: array<char>, flags: bv8, width: int, precision: int,
                    size: int, sink: Sink) returns (r: int)
    requires ULongAt(types.args, types.next) && buffer.Length == BUFF_SIZE
    requires width <= MAX_FIELD && precision <= MAX_FIELD
    modifies types, buffer, sink
    ensures types.next == old(types.next) + 1
    ensures var out := UnsgndField(OctalRun(types.args[old(types.next)].u, flags, size), flags, width, precision);
      sink.text == old(sink.text) + out && r == |out|
  {
    var arg := types.Next();
    var num := arg.u;
    var initNum := num;
    num := ConvertSizeUnsgnd(num, size);
    var i := StageDigits(buffer, num, 8, false);
    if HasFlag(flags, F_HASH) && initNum != 0 {
      ghost var before := buffer[..];
      buffer[i] := '0';
      PrependCell(before, buffer[..], i, BUFF_SIZE - 1, '0');
      i := i - 1;
    }
    i := i + 1;
    assert buffer[i..BUFF_SIZE - 1] == OctalRun(arg.u, flags, size);
    r := WriteUnsgnd(0, i, buffer, flags, width, precision, size, sink);
  }

  /** print_hexa: `mapTo` and `flagCh` are the digit table and prefix letter
      its two callers pass. */
  method PrintHexa(types: VaList, mapTo: seq<char>, buffer: array<char>, flags: bv8, flagCh: char,
                   width: int, precision: int, size: int, sink: Sink) returns (r: int)
    requires (mapTo == LOWER_HEX && flagCh == 'x') || (mapTo == UPPER_HEX && flagCh == 'X')
    requires ULongAt(types.args, types.next) && buffer.Length == BUFF_SIZE
    requires width <= MAX_FIELD && precision <= MAX_FIELD
    modifies types, buffer, sink
    ensures types.next == old(types.next) + 1
    ensures var out := UnsgndField(HexRun(types.args[old(types.next)].u, flags, size, flagCh == 'X'), flags, width, precision);
      sink.text == old(sink.text) + out && r == |out|
  {
    var upper := mapTo == UPPER_HEX;
    var arg := types.Next();
    var num := arg.u;
    var initNum := num;
    num := ConvertSizeUnsgnd(num, size);
    var i := StageDigits(buffer, num, 16, upper);
    if HasFlag(flags, F_HASH) && initNum != 0 {
      ghost var before := buffer[..];
      ghost var digits := buffer[i + 1..BUFF_SIZE - 1];
      buffer[i] := flagCh;
      PrependCell(before, buffer[..], i, BUFF_SIZE - 1, flagCh);
      i := i - 1;
      ghost var middle := buffer[..];
      buffer[i] := '0';
      PrependCell(middle, buffer[..], i, BUFF_SIZE - 1, '0');
      assert buffer[i..BUFF_SIZE - 1] == HexPrefix(upper) + digits;
      i := i - 1;
    }
    i := i + 1;
    assert buffer[i..BUFF_SIZE - 1] == HexRun(arg.u, flags, size, upper);
    r := WriteUnsgnd(0, i, buffer, flags, width, precision, size, sink);
  }

  /** print_hexadecimal: print_hexa with the lower-case table and 'x'. */
  method PrintHexadecimal(types: VaList, buffer: array<char>, flags: bv8, width: int, precision: int,
                          size: int, sink: Sink) returns (r: int)
    requires ULongAt(types.args, types.next) && buffer.Length == BUFF_SIZE
    requires width <= MAX_FIELD && precision <= MAX_FIELD
    modifies types, buffer, sink
    ensures types.next == old(types.next) + 1
    ensures var out := UnsgndField(HexRun(types.args[old(types.next)].u, flags, size, false), flags, width, precision);
      sink.text == old(sink.text) + out && r == |out|
  {
    r := PrintHexa(types, LOWER_HEX, buffer, flags, 'x', width, precision, size, sink);
  }

  /** print_hexa_upper: print_hexa with the upper-case table and 'X'. */
  method PrintHexaUpper(types: VaList, buffer: array<char>, flags: bv8, width: int, precision: int,
                        size: int, sink: Sink) returns (r: int)
    requires ULongAt(types.args, types.next) && buffer.Length == BUFF_SIZE
    requires width <= MAX_FIELD && precision <= MAX_FIELD
    modifies types, buffer, sink
    ensures types.next == old(types.next) + 1
    ensures var out := UnsgndField(HexRun(types.args[old(types.next)].u, flags, size, true), flags, width, precision);
      sink.text == old(sink.text) + out && r == |out|
  {
    r := PrintHexa(types, UPPER_HEX, buffer, flags, 'X', width, precision, size, sink);
  }

  /** print_unsigned. */
  method PrintUnsigned(types: VaList, buffer: array<char>, flags: bv8, width: int, precision: int,
                       size: int, sink: Sink) returns (r: int)
    requires ULongAt(types.args, types.next) && buffer.Length == BUFF_SIZE
    requires width <= MAX_FIELD && precision <= MAX_FIELD
    modifies types, buffer, sink
    ensures types.next == old(types.next) + 1
    ensures var out := UnsgndField(UnsignedRun(types.args[old(types.next)].u, size), flags, width, precision);
      sink.text == old(sink.text) + out && r == |out|
  {
    var arg := types.Next();
    var num := arg.u;
    num := ConvertSizeUnsgnd(num, size);
    var i := StageDigits(buffer, num, 10, false);
    i := i + 1;
    assert buffer[i..BUFF_SIZE - 1] == UnsignedRun(arg.u, size);
    r := WriteUnsgnd(0, i, buffer, flags, width, precision, size, sink);
  }

  /** Every character of a rendered run is a digit of its base. */
  lemma RenderedChars(n: nat, base: nat, upper: bool)
    requires 2 <= base <= 16
    ensures forall k :: 0 <= k < |Rendered(n, base, upper)| ==> HexDigitValue(Rendered(n, base, upper)[k]) < base
  {
    DigitsChars(n, base, upper);
  }

  /** The octal run reads back, in base 8, as the cast value; it holds only
      octal digits; and it starts with '0' exactly when '#' applied or the
      cast value is zero. */
  lemma OctalRunValue(num: int, flags: bv8, size: int)
    requires 0 <= num < ULONG_LIMIT
    ensures var run := OctalRun(num, flags, size);
      ValueOf(run, 8) == ConvertSizeUnsgnd(num, size) &&
      (forall k :: 0 <= k < |run| ==> HexDigitValue(run[k]) < 8) &&
      (run[0] == '0' <==> (HasFlag(flags, F_HASH) && num != 0) || ConvertSizeUnsgnd(num, size) == 0)
  {
    var v := ConvertSizeUnsgnd(num, size);
    var digits := Rendered(v, 8, false);
    RenderedValue(v, 8, false);
    RenderedChars(v, 8, false);
    if HasFlag(flags, F_HASH) && num != 0 {
      assert OctalRun(num, flags, size) == Rep('0', 1) + digits;
      ValueOfLeadingZeros(1, digits, 8);
    } else {
      assert OctalRun(num, flags, size) == digits;
    }
  }

  /** The hex run is the "0x" or "0X" prefix exactly when '#' applied to a
      non-zero argument, followed by hex digits that read back as the cast
      value, with no leading zero unless the value is zero. */
  lemma HexRunValue(num: int, flags: bv8, size: int, upper: bool)
    requires 0 <= num < ULONG_LIMIT
    ensures var p := if HasFlag(flags, F_HASH) && num != 0 then HexPrefix(upper) else "";
      var run := HexRun(num, flags, size, upper);
      |run| > |p| && run[..|p|] == p &&
      ValueOf(run[|p|..], 16) == ConvertSizeUnsgnd(num, size) &&
      (forall k :: |p| <= k < |run| ==> HexDigitValue(run[k]) < 16) &&
      (run[|p|] == '0' <==> ConvertSizeUnsgnd(num, size) == 0)
  {
    var v := ConvertSizeUnsgnd(num, size);
    var p := if HasFlag(flags, F_HASH) && num != 0 then HexPrefix(upper) else "";
    var run := HexRun(num, flags, size, upper);
    RenderedValue(v, 16, upper);
    RenderedChars(v, 16, upper);
    assert run[|p|..] == Rendered(v, 16, upper);
  }

  /** The unsigned run reads back, in base 10, as the cast value, holds only
      decimal digits, and has no leading zero unless the value is zero. */
  lemma UnsignedRunValue(num: int, size: int)
    requires 0 <= num < ULONG_LIMIT
    ensures var run := UnsignedRun(num, size);
      ValueOf(run, 10) == ConvertSizeUnsgnd(num, size) &&
      (forall k :: 0 <= k < |run| ==> IsDigitChar(run[k])) &&
      (run[0] == '0' <==> ConvertSizeUnsgnd(num, size) == 0)
  {
    var v := ConvertSizeUnsgnd(num, size);
    RenderedValue(v, 10, false);
    RenderedChars(v, 10, false);
    var run := UnsignedRun(num, size);
    forall k | 0 <= k < |run|
      ensures IsDigitChar(run[k])
    {
      assert HexDigitValue(run[k]) < 10;
    }
  }

  /** End to end: zero-padded octal output reads back, in base 8, as the cast
      value (a '#' prefix and the pad are both leading zeros). */
  lemma OctalZeroPaddedOutput(num: int, flags: bv8, size: int, width: int, prec: int)
    requires 0 <= num < ULONG_LIMIT
    requires HasFlag(flags, F_ZERO) && !HasFlag(flags, F_MINUS)
    requires !LoneZero(OctalRun(num, flags, size), prec)
    ensures ValueOf(UnsgndField(OctalRun(num, flags, size), flags, width, prec), 8) == ConvertSizeUnsgnd(num, size)
  {
    OctalRunValue(num, flags, size);
    UnsgndFieldZeroPadded(OctalRun(num, flags, size), flags, width, prec, 8);
  }
}
