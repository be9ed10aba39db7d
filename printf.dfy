/** _printf.c: the template loop. Literal bytes collect in the scratch buffer,
    which is flushed when full, before each directive and at the end; each
    directive is scanned (flags, width, precision, size) and handed to the
    dispatcher. */
module Printf {
  import opened Defs
  import opened Io
  import opened FlagScanner
  import opened WidthScanner
  import opened PrecisionScanner
  import opened SizeScanner
  import opened Handler
  import opened Utils

  /** A count added to a running total, where -1 (an error) absorbs it. */
  function AddCount(n: int, ret: int): int {
    if ret == -1 then -1 else n + ret
  }

  /** The values the scans of a directive read: flags, width, precision and
      size, the index of the conversion character after them, and the
      argument cursor. */
  datatype Parsed = Parsed(flags: bv8, width: int, precision: int, size: int, ind: int, cur: nat)

  /** The scans of the directive whose '%' is at fmt[i], in the order flags,
      width, precision, size. None when a '*' meets an argument that is not an
      `int` or a digit run overflows. */
  function Parse(fmt: seq<char>, i: int, args: seq<Arg>, cur: nat): (r: Option<Parsed>)
    requires CString(fmt) && 0 <= i < |fmt| && fmt[i] == '%'
    ensures r.Some? ==> i < r.value.ind < |fmt| && cur <= r.value.cur
  {
    var e := FlagRunEnd(fmt, i + 1);
    match WidthScan(fmt, e - 1, args, cur)
    case None => None
    case Some(w) =>
      match PrecisionScan(fmt, w.last, args, w.cur)
      case None => None
      case Some(p) =>
        var (size, last) := SizeScan(fmt, p.last);
        Some(Parsed(FlagsOf(fmt[i + 1..e]), w.value, p.value, size, last + 1, p.cur))
  }

  /** handle_print on the directive whose '%' is at fmt[i]. */
  function Directive(fmt: seq<char>, i: int, args: seq<Arg>, cur: nat): (r: Option<Handled>)
    requires CString(fmt) && 0 <= i < |fmt| && fmt[i] == '%'
    ensures r.Some? && r.value.ret != -1 ==>
      r.value.ret == |r.value.out| && i <= r.value.ind < |fmt| - 1
    ensures r.Some? && r.value.ret == -1 ==> r.value.out == []
  {
    match Parse(fmt, i, args, cur)
    case None => None
    case Some(d) =>
      assert fmt[..d.ind][i] == '%';
      Handle(fmt, d.ind, args, d.cur, d.flags, d.width, d.precision, d.size)
  }

  /** What the template loop does from fmt[i] on, with the argument cursor at
      `cur`: the bytes written and the value returned. A literal byte counts
      one; a directive counts what handle_print returns, and its -1 ends the
      call with -1. None when some directive reads an argument of the wrong
      type. */
  function Run(fmt: seq<char>, i: int, args: seq<Arg>, cur: nat): (r: Option<Printed>)
    requires CString(fmt) && 0 <= i < |fmt|
    ensures r.Some? ==> r.value.ret >= -1
    decreases |fmt| - i
  {
    if fmt[i] == '\0' then Some(Printed([], 0))
    else if fmt[i] != '%' then
      match Run(fmt, i + 1, args, cur)
      case None => None
      case Some(rest) => Some(Printed([fmt[i]] + rest.out, AddCount(1, rest.ret)))
    else
      match Directive(fmt, i, args, cur)
      case None => None
      case Some(h) =>
        if h.ret == -1 then Some(Printed(h.out, -1))
        else
          match Run(fmt, h.ind + 1, args, h.cur)
          case None => None
          case Some(rest) => Some(Printed(h.out + rest.out, AddCount(h.ret, rest.ret)))
  }

  /** _printf: a NULL template returns -1 and writes nothing. */
  function PrintfOut(format: Option<seq<char>>, args: seq<Arg>): Printed
    requires format.Some? ==> CString(format.value) && Run(format.value, 0, args, 0).Some?
  {
    if format.None? then Printed([], -1) else Run(format.value, 0, args, 0).value
  }

  /** print_buffer: writes the buffered bytes, if any, and empties the buffer. */
  method PrintBuffer(buffer: array<char>, buffInd: int, sink: Sink) returns (buffInd': int)
    requires 0 <= buffInd <= buffer.Length
    modifies sink
    ensures sink.text == old(sink.text) + buffer[..buffInd] && buffInd' == 0
  {
    if buffInd > 0 {
      var _ := sink.Write(buffer, 0, buffInd);
    }
    buffInd' := 0;
  }

  /** The directive steps of the template loop: flags, width, precision and
      size, then handle_print at the character after them. */
  method HandleDirective(fmt: seq<char>, i: int, list: VaList, buffer: array<char>, sink: Sink)
    returns (printed: int, i': int)
    requires CString(fmt) && 0 <= i < |fmt| && fmt[i] == '%'
    requires Directive(fmt, i, list.args, list.next).Some? && buffer.Length == BUFF_SIZE
    modifies list, buffer, sink
    ensures var h := Directive(fmt, i, list.args, old(list.next)).value;
      sink.text == old(sink.text) + h.out && printed == h.ret && i' == h.ind && list.next == h.cur
  {
    ghost var cur := list.next;
    var flags, width, precision, size, j := ScanDirective(fmt, i, list);
    assert fmt[..j][i] == '%';
    printed, i' := HandlePrint(fmt, j, list, buffer, flags, width, precision, size, sink);
  }

  /** The scans of the template loop, from the '%' at fmt[i]; `j` is the
      index of the conversion character. */
  method ScanDirective(fmt: seq<char>, i: int, list: VaList)
    returns (flags: bv8, width: int, precision: int, size: int, j: int)
    requires CString(fmt) && 0 <= i < |fmt| && fmt[i] == '%'
    requires Parse(fmt, i, list.args, list.next).Some?
    modifies list
    ensures Parse(fmt, i, list.args, old(list.next)) == Some(Parsed(flags, width, precision, size, j, list.next))
  {
    flags, j := GetFlags(fmt, i);
    width, j := GetWidth(fmt, j, list);
    precision, j := GetPrecision(fmt, j, list);
    size, j := GetSize(fmt, j);
    j := j + 1;
  }

  /** One step of the template loop on a literal byte. */
  lemma RunLiteral(fmt: seq<char>, i: int, args: seq<Arg>, cur: nat)
    requires CString(fmt) && 0 <= i < |fmt| && fmt[i] != '\0' && fmt[i] != '%'
    requires Run(fmt, i, args, cur).Some?
    ensures i + 1 < |fmt| && Run(fmt, i + 1, args, cur).Some?
    ensures var rest := Run(fmt, i + 1, args, cur).value;
      Run(fmt, i, args, cur).value == Printed([fmt[i]] + rest.out, AddCount(1, rest.ret))
  {
  }

  /** One step of the template loop on a directive. */
  lemma RunDirective(fmt: seq<char>, i: int, args: seq<Arg>, cur: nat)
    requires CString(fmt) && 0 <= i < |fmt| && fmt[i] == '%'
    requires Run(fmt, i, args, cur).Some?
    ensures Directive(fmt, i, args, cur).Some?
    ensures var h := Directive(fmt, i, args, cur).value;
      h.ret == -1 ==> Run(fmt, i, args, cur).value == Printed(h.out, -1)
    ensures var h := Directive(fmt, i, args, cur).value;
      h.ret != -1 ==> h.ret >= 0 && i <= h.ind < |fmt| - 1 && Run(fmt, h.ind + 1, args, h.cur).Some?
    ensures var h := Directive(fmt, i, args, cur).value;
      h.ret != -1 ==>
        Run(fmt, i, args, cur).value ==
        Printed(h.out + Run(fmt, h.ind + 1, args, h.cur).value.out,
                AddCount(h.ret, Run(fmt, h.ind + 1, args, h.cur).value.ret))
  {
  }

  /** A directive of the template loop, stated as the step of Run it takes:
      `written` is what it writes. */
  method DirectiveStep(fmt: seq<char>, i: int, list: VaList, buffer: array<char>, sink: Sink)
    returns (printed: int, i': int, ghost written: seq<char>)
    requires CString(fmt) && 0 <= i < |fmt| && fmt[i] == '%'
    requires Run(fmt, i, list.args, list.next).Some? && buffer.Length == BUFF_SIZE
    modifies list, buffer, sink
    ensures sink.text == old(sink.text) + written
    ensures printed == -1 ==> Run(fmt, i, list.args, old(list.next)).value == Printed(written, -1)
    ensures printed != -1 ==> printed >= 0 && i <= i' < |fmt| - 1 && Run(fmt, i' + 1, list.args, list.next).Some?
    ensures printed != -1 ==>
      Run(fmt, i, list.args, old(list.next)).value ==
      Printed(written + Run(fmt, i' + 1, list.args, list.next).value.out,
              AddCount(printed, Run(fmt, i' + 1, list.args, list.next).value.ret))
  {
    RunDirective(fmt, i, list.args, list.next);
    ghost var h := Directive(fmt, i, list.args, list.next).value;
    printed, i' := HandleDirective(fmt, i, list, buffer, sink);
    written := h.out;
  }

  /** A literal byte of the template loop: stored at the end of the buffered
      bytes, and the buffer written out when full. */
  method BufferByte(buffer: array<char>, buffInd: int, c: char, sink: Sink) returns (buffInd': int)
    requires 0 <= buffInd < buffer.Length == BUFF_SIZE
    modifies buffer, sink
    ensures 0 <= buffInd' < BUFF_SIZE
    ensures sink.text + buffer[..buffInd'] == old(sink.text) + old(buffer[..buffInd]) + [c]
  {
    ghost var before := buffer[..];
    buffer[buffInd] := c;
    AppendCell(before, buffer[..], buffInd, c);
    buffInd' := buffInd + 1;
    if buffInd' == BUFF_SIZE {
      buffInd' := PrintBuffer(buffer, buffInd', sink);
    }
  }

  /** Concatenation regroups. */
  lemma Regroup(a: seq<char>, b: seq<char>, c: seq<char>)
    ensures (a + b) + c == a + (b + c)
  {
  }

  /** Storing a byte at the end of the buffered bytes appends it to them. */
  lemma AppendCell(before: seq<char>, after: seq<char>, n: int, c: char)
    requires 0 <= n < |before| && after == before[n := c]
    ensures after[..n + 1] == before[..n] + [c]
  {
  }

  /** One pass of the template loop: a literal byte goes to the buffer, a
      directive flushes the buffer and is handled. Stated as the state of the
      loop before and after: `base + emitted` is everything written so far,
      buffered or not, and `rest` what the rest of the template produces.
      A failing directive gives -1 with all its output written. */
  method Step(fmt: seq<char>, i: int, list: VaList, buffer: array<char>, buffInd: int,
              printedChars: int, sink: Sink, ghost base: seq<char>, ghost total: Printed,
              ghost emitted: seq<char>, ghost rest: Printed)
    returns (i': int, buffInd': int, printedChars': int, ghost emitted': seq<char>, ghost rest': Printed)
    requires CString(fmt) && 0 <= i < |fmt| && fmt[i] != '\0'
    requires 0 <= buffInd < BUFF_SIZE && printedChars >= 0 && buffer.Length == BUFF_SIZE
    requires Run(fmt, i, list.args, list.next) == Some(rest)
    requires sink.text + buffer[..buffInd] == base + emitted
    requires total.out == emitted + rest.out && total.ret == AddCount(printedChars, rest.ret)
    modifies list, buffer, sink
    ensures printedChars' == -1 ==> sink.text == base + total.out && total.ret == -1
    ensures printedChars' != -1 ==> i < i' < |fmt| && 0 <= buffInd' < BUFF_SIZE && printedChars' >= 0
    ensures printedChars' != -1 ==> Run(fmt, i', list.args, list.next) == Some(rest')
    ensures printedChars' != -1 ==> sink.text + buffer[..buffInd'] == base + emitted'
    ensures printedChars' != -1 ==>
      total.out == emitted' + rest'.out && total.ret == AddCount(printedChars', rest'.ret)
  {
    if fmt[i] != '%' {
      RunLiteral(fmt, i, list.args, list.next);
      rest' := Run(fmt, i + 1, list.args, list.next).value;
      buffInd' := BufferByte(buffer, buffInd, fmt[i], sink);
      Regroup(emitted, [fmt[i]], rest'.out);
      emitted' := emitted + [fmt[i]];
      printedChars' := printedChars + 1;
      i' := i + 1;
      assert Run(fmt, i', list.args, list.next) == Some(rest');
    } else {
      buffInd' := PrintBuffer(buffer, buffInd, sink);
      var printed, j;
      ghost var written;
      printed, j, written := DirectiveStep(fmt, i, list, buffer, sink);
      Regroup(base, emitted, written);
      if printed == -1 {
        return i, buffInd', -1, emitted + written, rest;
      }
      rest' := Run(fmt, j + 1, list.args, list.next).value;
      Regroup(emitted, written, rest'.out);
      emitted' := emitted + written;
      printedChars' := printedChars + printed;
      i' := j + 1;
      assert Run(fmt, i', list.args, list.next) == Some(rest');
    }
  }

  /** _printf. `format` None is a NULL pointer. */
  method Printf(format: Option<seq<char>>, args: seq<Arg>, sink: Sink) returns (r: int)
    requires format.Some? ==> CString(format.value) && Run(format.value, 0, args, 0).Some?
    modifies sink
    ensures var p := PrintfOut(format, args);
      sink.text == old(sink.text) + p.out && r == p.ret
  {
    if format.None? {
      return -1;
    }
    var fmt := format.value;
    var printedChars := 0;
    var buffInd := 0;
    var list := new VaList(args);
    var buffer := new char[BUFF_SIZE];
    ghost var total := Run(fmt, 0, args, 0).value;
    ghost var emitted: seq<char> := [];
    ghost var rest := total;
    var i := 0;
    while fmt[i] != '\0'
      invariant 0 <= i < |fmt| && 0 <= buffInd < BUFF_SIZE && printedChars >= 0
      invariant list.args == args && buffer.Length == BUFF_SIZE
      invariant Run(fmt, i, args, list.next) == Some(rest)
      invariant sink.text + buffer[..buffInd] == old(sink.text) + emitted
      invariant total.out == emitted + rest.out
      invariant total.ret == AddCount(printedChars, rest.ret)
      decreases |fmt| - i
    {
      i, buffInd, printedChars, emitted, rest :=
        Step(fmt, i, list, buffer, buffInd, printedChars, sink, old(sink.text), total, emitted, rest);
      if printedChars == -1 {
        return -1;
      }
    }
    buffInd := PrintBuffer(buffer, buffInd, sink);
    r := printedChars;
  }

  // ------------------------------------------------------------------ lemmas

  /** Unless a directive fails, the value returned is the number of bytes
      written. */
  lemma {:induction false} RunCountsBytes(fmt: seq<char>, i: int, args: seq<Arg>, cur: nat)
    requires CString(fmt) && 0 <= i < |fmt| && Run(fmt, i, args, cur).Some?
    ensures var p := Run(fmt, i, args, cur).value;
      p.ret == -1 || p.ret == |p.out|
    decreases |fmt| - i
  {
    if fmt[i] == '\0' {
    } else if fmt[i] != '%' {
      RunCountsBytes(fmt, i + 1, args, cur);
    } else {
      var h := Directive(fmt, i, args, cur).value;
      if h.ret != -1 {
        RunCountsBytes(fmt, h.ind + 1, args, h.cur);
      }
    }
  }

  /** A template with no '%' is written byte for byte, and its length is
      returned. */
  lemma {:induction false} LiteralTemplate(fmt: seq<char>, i: int, args: seq<Arg>, cur: nat)
    requires CString(fmt) && 0 <= i < |fmt|
    requires forall k :: i <= k < |fmt| ==> fmt[k] != '%'
    ensures Run(fmt, i, args, cur) == Some(Printed(fmt[i..|fmt| - 1], |fmt| - 1 - i))
    decreases |fmt| - i
  {
    if fmt[i] != '\0' {
      LiteralTemplate(fmt, i + 1, args, cur);
      assert fmt[i..|fmt| - 1] == [fmt[i]] + fmt[i + 1..|fmt| - 1];
    } else {
      assert i == |fmt| - 1;
    }
  }

  /** A '%' that ends the template makes the call return -1, after the
      literal bytes before it have been written. */
  lemma {:induction false} TrailingPercent(fmt: seq<char>, i: int, args: seq<Arg>, cur: nat)
    requires CString(fmt) && 0 <= i <= |fmt| - 2 && fmt[|fmt| - 2] == '%'
    requires forall k :: i <= k < |fmt| - 2 ==> fmt[k] != '%'
    ensures Run(fmt, i, args, cur) == Some(Printed(fmt[i..|fmt| - 2], -1))
    decreases |fmt| - i
  {
    var n := |fmt|;
    if i == n - 2 {
      assert FlagRunEnd(fmt, n - 1) == n - 1;
      WidthAbsent(fmt, n - 2, args, cur);
      PrecisionAbsent(fmt, n - 2, args, cur);
      assert fmt[..n - 1][n - 2] == '%';
      assert Directive(fmt, i, args, cur) == Some(Handled([], -1, n - 1, cur));
    } else {
      TrailingPercent(fmt, i + 1, args, cur);
      assert fmt[i..n - 2] == [fmt[i]] + fmt[i + 1..n - 2];
    }
  }

  /** In "%*.*" the width argument is read before the precision argument,
      and the conversion reads the argument after both. */
  lemma StarsInOrder(fmt: seq<char>, i: int, args: seq<Arg>, cur: nat)
    requires CString(fmt) && 0 <= i && i + 4 < |fmt|
    requires fmt[i] == '%' && fmt[i + 1] == '*' && fmt[i + 2] == '.' && fmt[i + 3] == '*'
    requires IntAt(args, cur) && IntAt(args, cur + 1)
    ensures var (size, last) := SizeScan(fmt, i + 3);
      '%' in fmt[..last + 1] &&
      Directive(fmt, i, args, cur) ==
        Handle(fmt, last + 1, args, cur + 2, 0, args[cur].i, args[cur + 1].i, size)
  {
    assert FlagRunEnd(fmt, i + 1) == i + 1;
    assert fmt[i + 1..i + 1] == [];
    assert RunValue(fmt, i + 1, i + 1) == 0;
    WidthStar(fmt, i, args, cur, i + 1);
    PrecisionStar(fmt, i + 1, args, cur + 1);
    var (size, last) := SizeScan(fmt, i + 3);
    assert fmt[..last + 1][i] == '%';
  }
}
