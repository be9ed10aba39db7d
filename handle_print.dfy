/** handle_print_fucntion.c: the conversion table and the fallback for a
    character that is not in it. */
module Handler {
  import opened Defs
  import opened Io
  import opened Utils
  import opened DigitRuns
  import opened WriteHandlers
  import Function0
  import Function1
  import Function2

  /** The conversion characters of the table, in table order, closed by the
      sentinel entry. */
  const FMT_TABLE: seq<char> := "cs%idbuoxXpSrR\0"

  predicate IsConversion(c: char) {
    c == 'c' || c == 's' || c == '%' || c == 'i' || c == 'd' || c == 'b' || c == 'u' ||
    c == 'o' || c == 'x' || c == 'X' || c == 'p' || c == 'S' || c == 'r' || c == 'R'
  }

  /** The argument the converter of `c` reads has the C type it reads it as,
      and its field fits the scratch buffer; false for a character outside
      the table. */
  predicate ConvertOk(c: char, args: seq<Arg>, cur: nat, width: int, precision: int, size: int) {
    match c
    case 'c' => IntAt(args, cur) && width <= BUFF_SIZE - 1
    case 's' => StrAt(args, cur)
    case '%' => true
    case 'i' | 'd' =>
      LongAt(args, cur) && ConvertSizeNumber(args[cur].i, size) != LONG_MIN &&
      width <= MAX_FIELD && precision <= MAX_FIELD
    case 'b' => UIntAt(args, cur)
    case 'u' | 'o' | 'x' | 'X' => ULongAt(args, cur) && width <= MAX_FIELD && precision <= MAX_FIELD
    case 'p' => PtrAt(args, cur) && width <= MAX_FIELD
    case 'S' => Function1.EscapeArgFits(args, cur)
    case 'r' | 'R' => StrAt(args, cur)
    case _ => false
  }

  /** The bytes the converter of `c` writes. */
  function ConvertOut(c: char, args: seq<Arg>, cur: nat, flags: bv8, width: int, precision: int,
                      size: int): seq<char>
    requires ConvertOk(c, args, cur, width, precision, size)
  {
    match c
    case 'c' => CharField(Function2.LowByte(args[cur].i), flags, width)
    case 's' => Function2.StringOut(args[cur].s, flags, width, precision)
    case '%' => "%"
    case 'i' | 'd' => Function2.IntOut(args[cur].i, flags, width, precision, size)
    case 'b' => Rendered(args[cur].u, 2, false)
    case 'u' => UnsgndField(Function0.UnsignedRun(args[cur].u, size), flags, width, precision)
    case 'o' => UnsgndField(Function0.OctalRun(args[cur].u, flags, size), flags, width, precision)
    case 'x' => UnsgndField(Function0.HexRun(args[cur].u, flags, size, false), flags, width, precision)
    case 'X' => UnsgndField(Function0.HexRun(args[cur].u, flags, size, true), flags, width, precision)
    case 'p' => Function1.PointerOut(args[cur].addr, flags, width)
    case 'S' => Function1.NonPrintableOut(args[cur].s)
    case 'r' => Function1.Reverse(Function1.ReverseSource(args[cur].s))
    case _ => Function1.Rot13String(Function1.Rot13Source(args[cur].s))
  }

  /** The argument cursor after the converter of `c`: every converter but
      print_percent reads one argument. */
  function ConvertNext(c: char, cur: nat): nat {
    if c == '%' then cur else cur + 1
  }

  /** What handle_print does: the bytes written, the value returned, the index
      it leaves in `*ind`, and the argument cursor after it. */
  datatype Handled = Handled(out: seq<char>, ret: int, ind: int, cur: nat)

  /** The latest index at or before `j` holding a ' ' or a '%': where the
      rewind loop of the fallback stops. */
  function RewindStop(fmt: seq<char>, j: int): (k: int)
    requires 0 <= j < |fmt| && '%' in fmt[..j + 1]
    ensures 0 <= k <= j && (fmt[k] == ' ' || fmt[k] == '%') && '%' in fmt[..k + 1]
    ensures forall m :: k < m <= j ==> fmt[m] != ' ' && fmt[m] != '%'
    decreases j
  {
    if fmt[j] == ' ' || fmt[j] == '%' then j
    else
      PercentBefore(fmt, j);
      RewindStop(fmt, j - 1)
  }

  /** A '%' at or before `j`, but not at `j`, is before `j`. */
  lemma PercentBefore(fmt: seq<char>, j: int)
    requires 0 <= j < |fmt| && '%' in fmt[..j + 1] && fmt[j] != '%'
    ensures j > 0 && '%' in fmt[..j]
  {
    assert fmt[..j + 1] == fmt[..j] + [fmt[j]];
  }

  /** handle_print at the conversion character fmt[ind]. A table character
      runs its converter and returns that converter's count; NUL returns -1
      and writes nothing; any other character writes '%', then, after a
      ' ', a blank and the character (3); else, with a width, nothing more,
      rewinding `*ind` so that the directive is read again as text (1); else
      the character (2). None exactly when ConvertOk fails: the converter's
      argument is not of the type or range it reads, a width or precision is
      above the converter's buffer bound (MAX_FIELD for the numeric and
      pointer converters, BUFF_SIZE - 1 for %c), a %d or %i value is
      LONG_MIN, or a %S escape overruns the buffer. */
  function Handle(fmt: seq<char>, ind: int, args: seq<Arg>, cur: nat, flags: bv8, width: int,
                  precision: int, size: int): (r: Option<Handled>)
    requires CString(fmt) && 1 <= ind < |fmt| && '%' in fmt[..ind]
    ensures r.None? <==> IsConversion(fmt[ind]) && !ConvertOk(fmt[ind], args, cur, width, precision, size)
    ensures r.Some? && r.value.ret == -1 ==> fmt[ind] == '\0' && r.value.out == [] && r.value.cur == cur
    ensures r.Some? && r.value.ret != -1 ==>
      r.value.ret == |r.value.out| && 0 <= r.value.ind <= ind < |fmt| - 1 &&
      forall p :: 0 <= p < ind && fmt[p] == '%' ==> p <= r.value.ind
    ensures r.Some? && !IsConversion(fmt[ind]) && fmt[ind] != '\0' ==>
      |r.value.out| > 0 && r.value.out[0] == '%' && r.value.cur == cur
  {
    var c := fmt[ind];
    if IsConversion(c) then
      if ConvertOk(c, args, cur, width, precision, size) then
        var out := ConvertOut(c, args, cur, flags, width, precision, size);
        Some(Handled(out, |out|, ind, ConvertNext(c, cur)))
      else None
    else if c == '\0' then Some(Handled([], -1, ind, cur))
    else if fmt[ind - 1] == ' ' then Some(Handled(['%', ' ', c], 3, ind, cur))
    else if width != 0 then
      var k := RewindStop(fmt, ind - 1);
      Some(Handled("%", 1, if fmt[k] == ' ' then k - 1 else k, cur))
    else Some(Handled(['%', c], 2, ind, cur))
  }

  /** The table scan of handle_print: the index of the entry for `c`, or of
      the sentinel when there is none. */
  method TableIndex(c: char) returns (i: int)
    ensures 0 <= i <= 14
    ensures i < 14 ==> FMT_TABLE[i] == c
    ensures i == 14 <==> !IsConversion(c)
  {
    i := 0;
    while FMT_TABLE[i] != '\0'
      invariant 0 <= i <= 14
      invariant forall m :: 0 <= m < i ==> FMT_TABLE[m] != c
      decreases 14 - i
    {
      if c == FMT_TABLE[i] {
        InTable(c, i);
        return;
      }
      i := i + 1;
    }
    NotInTable(c, i);
  }

  /** The entries before the sentinel are the conversion characters. */
  lemma InTable(c: char, i: int)
    requires 0 <= i < 15 && FMT_TABLE[i] != '\0' && c == FMT_TABLE[i]
    ensures i < 14 && IsConversion(c)
  {
  }

  /** A character that matches no entry before the sentinel is not a
      conversion character. */
  lemma NotInTable(c: char, i: int)
    requires 0 <= i < 15 && FMT_TABLE[i] == '\0'
    requires forall m :: 0 <= m < i ==> FMT_TABLE[m] != c
    ensures i == 14 && !IsConversion(c)
  {
    assert i == 14;
    assert FMT_TABLE[0] != c && FMT_TABLE[1] != c && FMT_TABLE[2] != c && FMT_TABLE[3] != c;
    assert FMT_TABLE[4] != c && FMT_TABLE[5] != c && FMT_TABLE[6] != c && FMT_TABLE[7] != c;
    assert FMT_TABLE[8] != c && FMT_TABLE[9] != c && FMT_TABLE[10] != c && FMT_TABLE[11] != c;
    assert FMT_TABLE[12] != c && FMT_TABLE[13] != c;
  }

  /** The call through the matched entry's function pointer, for the
      converters that only write text. */
  method CallTextConverter(c: char, types: VaList, buffer: array<char>, flags: bv8, width: int,
                           precision: int, size: int, sink: Sink) returns (r: int)
    requires c == 'c' || c == 's' || c == '%' || c == 'p' || c == 'S' || c == 'r' || c == 'R'
    requires ConvertOk(c, types.args, types.next, width, precision, size) && buffer.Length == BUFF_SIZE
    modifies types, buffer, sink
    ensures var out := ConvertOut(c, types.args, old(types.next), flags, width, precision, size);
      sink.text == old(sink.text) + out && r == |out| && types.next == ConvertNext(c, old(types.next))
  {
    if c == 'c' {
      r := Function2.PrintChar(types, buffer, flags, width, precision, size, sink);
    } else if c == 's' {
      r := Function2.PrintString(types, buffer, flags, width, precision, size, sink);
    } else if c == '%' {
      r := Function2.PrintPercent(types, buffer, flags, width, precision, size, sink);
    } else if c == 'p' {
      r := Function1.PrintPointer(types, buffer, flags, width, precision, size, sink);
    } else if c == 'S' {
      r := Function1.PrintNonPrintable(types, buffer, flags, width, precision, size, sink);
    } else if c == 'r' {
      r := Function1.PrintReverse(types, buffer, flags, width, precision, size, sink);
    } else {
      r := Function1.PrintRot13String(types, buffer, flags, width, precision, size, sink);
    }
  }

  /** The call through the matched entry's function pointer, for the
      numeric converters. */
  method CallNumberConverter(c: char, types: VaList, buffer: array<char>, flags: bv8, width: int,
                             precision: int, size: int, sink: Sink) returns (r: int)
    requires c == 'i' || c == 'd' || c == 'b' || c == 'u' || c == 'o' || c == 'x' || c == 'X'
    requires ConvertOk(c, types.args, types.next, width, precision, size) && buffer.Length == BUFF_SIZE
    modifies types, buffer, sink
    ensures var out := ConvertOut(c, types.args, old(types.next), flags, width, precision, size);
      sink.text == old(sink.text) + out && r == |out| && types.next == ConvertNext(c, old(types.next))
  {
    if c == 'i' || c == 'd' {
      r := Function2.PrintInt(types, buffer, flags, width, precision, size, sink);
    } else if c == 'b' {
      r := Function2.PrintBinary(types, buffer, flags, width, precision, size, sink);
    } else if c == 'u' {
      r := Function0.PrintUnsigned(types, buffer, flags, width, precision, size, sink);
    } else if c == 'o' {
      r := Function0.PrintOctal(types, buffer, flags, width, precision, size, sink);
    } else if c == 'x' {
      r := Function0.PrintHexadecimal(types, buffer, flags, width, precision, size, sink);
    } else {
      r := Function0.PrintHexaUpper(types, buffer, flags, width, precision, size, sink);
    }
  }

  /** The rewind loop of the fallback: back from fmt[ind-1] to the latest ' '
      or '%', and one step further on a ' '. */
  method Rewind(fmt: seq<char>, ind: int) returns (ind': int)
    requires CString(fmt) && 1 <= ind < |fmt| && '%' in fmt[..ind]
    ensures var k := RewindStop(fmt, ind - 1);
      ind' == if fmt[k] == ' ' then k - 1 else k
  {
    ind' := ind - 1;
    while fmt[ind'] != ' ' && fmt[ind'] != '%'
      invariant 0 <= ind' <= ind - 1 && '%' in fmt[..ind' + 1]
      invariant RewindStop(fmt, ind') == RewindStop(fmt, ind - 1)
      decreases ind'
    {
      PercentBefore(fmt, ind');
      ind' := ind' - 1;
    }
    if fmt[ind'] == ' ' {
      PercentBefore(fmt, ind');
      ind' := ind' - 1;
    }
  }

  /** handle_print: `ind` is the index of the conversion character; returns
      the count and the new `*ind`. */
  method HandlePrint(fmt: seq<char>, ind: int, list: VaList, buffer: array<char>, flags: bv8,
                     width: int, precision: int, size: int, sink: Sink) returns (r: int, ind': int)
    requires CString(fmt) && 1 <= ind < |fmt| && '%' in fmt[..ind]
    requires Handle(fmt, ind, list.args, list.next, flags, width, precision, size).Some?
    requires buffer.Length == BUFF_SIZE
    modifies list, buffer, sink
    ensures var h := Handle(fmt, ind, list.args, old(list.next), flags, width, precision, size).value;
      sink.text == old(sink.text) + h.out && r == h.ret && ind' == h.ind && list.next == h.cur
  {
    ind' := ind;
    var i := TableIndex(fmt[ind]);
    if i < 14 {
      var c := FMT_TABLE[i];
      if c == 'i' || c == 'd' || c == 'b' || c == 'u' || c == 'o' || c == 'x' || c == 'X' {
        r := CallNumberConverter(c, list, buffer, flags, width, precision, size, sink);
      } else {
        r := CallTextConverter(c, list, buffer, flags, width, precision, size, sink);
      }
      return;
    }
    if fmt[ind] == '\0' {
      return -1, ind;
    }
    var unknowLen := 0;
    var n := sink.WriteText("%%", 1);
    unknowLen := unknowLen + n;
    if fmt[ind - 1] == ' ' {
      n := sink.WriteText(" ", 1);
      unknowLen := unknowLen + n;
    } else if width != 0 {
      ind' := Rewind(fmt, ind);
      return 1, ind';
    }
    n := sink.WriteText([fmt[ind]], 1);
    unknowLen := unknowLen + n;
    r := unknowLen;
  }

  /** The fallback's rewind lands on the '%' that opened the directive when
      no ' ' lies between it and the conversion character; the template loop
      then reads the directive again as text from the character after its
      '%', which the fallback has already written. */
  lemma RewindToPercent(fmt: seq<char>, pct: int, ind: int)
    requires 0 <= pct < ind < |fmt| && fmt[pct] == '%'
    requires forall m :: pct < m < ind ==> fmt[m] != ' ' && fmt[m] != '%'
    ensures RewindStop(fmt, ind - 1) == pct
  {
    assert fmt[..ind][pct] == '%';
  }
}
