/** write_handlers_functions.c: the padding assemblers. A converter stages its
    digit run in buffer[ind..BUFF_SIZE-1); these functions zero-extend it to the
    precision, choose the pad character, place the sign or prefix, and write
    the field. */
module WriteHandlers {
  import opened Defs
  import opened Utils
  import opened Io

  function Max(a: int, b: int): int {
    if a >= b then a else b
  }

  /** The run zero-extended on the left to `prec` digits (unchanged when it is
      already at least that long). */
  function ZeroExtended(run: seq<char>, prec: int): (z: seq<char>)
    ensures |z| == Max(prec, |run|)
  {
    Rep('0', prec - |run|) + run
  }

  /** The pad character of write_unsgnd and write_number. */
  function ZeroPad(flags: bv8): char {
    if HasFlag(flags, F_ZERO) && !HasFlag(flags, F_MINUS) then '0' else ' '
  }

  /** The bytes write_unsgnd emits for the staged run. */
  function UnsgndField(run: seq<char>, flags: bv8, width: int, prec: int): seq<char> {
    if prec == 0 && run == ['0'] then []
    else
      var digits := ZeroExtended(run, prec);
      if width > |digits| then
        if HasFlag(flags, F_MINUS) then digits + Rep(ZeroPad(flags), width - |digits|)
        else Rep(ZeroPad(flags), width - |digits|) + digits
      else digits
  }

  /** The slice of a staging buffer that starts at `lo`, split after its first cell. */
  lemma SliceCons(a: seq<char>, lo: int, hi: int)
    requires 0 <= lo < hi <= |a|
    ensures a[lo..hi] == [a[lo]] + a[lo + 1..hi]
  {
  }

  /** The zero-extension loop shared by write_unsgnd and write_num: it
      prepends '0' cells to the run in buffer[ind..BUFF_SIZE-1) until the run
      holds `prec` digits, and returns the new first cell. */
  method ZeroExtend(buffer: array<char>, ind: int, prec: int) returns (start: int)
    requires buffer.Length == BUFF_SIZE && BUFF_SIZE - 1 - MAX_FIELD <= ind <= BUFF_SIZE - 1
    requires prec <= MAX_FIELD
    modifies buffer
    ensures start == BUFF_SIZE - 1 - Max(prec, BUFF_SIZE - 1 - ind)
    ensures buffer[start..BUFF_SIZE - 1] == ZeroExtended(old(buffer[ind..BUFF_SIZE - 1]), prec)
    ensures buffer[..start] == old(buffer[..start]) && buffer[BUFF_SIZE - 1] == old(buffer[BUFF_SIZE - 1])
  {
    ghost var run := buffer[ind..BUFF_SIZE - 1];
    ghost var digits := run;
    var length := BUFF_SIZE - 1 - ind;
    start := ind;
    while prec > length
      invariant BUFF_SIZE - 1 - MAX_FIELD <= start <= ind && start + length == BUFF_SIZE - 1
      invariant length == |run| || length <= prec
      invariant digits == Rep('0', length - |run|) + run && buffer[start..BUFF_SIZE - 1] == digits
      invariant forall k :: 0 <= k < start ==> buffer[k] == old(buffer[k])
      invariant buffer[BUFF_SIZE - 1] == old(buffer[BUFF_SIZE - 1])
      decreases prec - length
    {
      ghost var before := buffer[..];
      start := start - 1;
      buffer[start] := '0';
      PrependCell(before, buffer[..], start, BUFF_SIZE - 1, '0');
      digits := ['0'] + digits;
      length := length + 1;
    }
  }

  /** The pad loop shared by write_unsgnd, write_num and write_pointer: `count`
      copies of `padd` from cell `from` on, closed by a '\0'; the cells from
      `keep` on are left alone. */
  method FillPad(buffer: array<char>, from: int, count: int, padd: char, keep: int) returns (i: int)
    requires 0 <= from && 0 <= count && from + count < keep < buffer.Length
    modifies buffer
    ensures i == from + count
    ensures buffer[from..i] == Rep(padd, count)
    ensures buffer[..from] == old(buffer[..from])
    ensures buffer[keep..buffer.Length - 1] == old(buffer[keep..buffer.Length - 1])
  {
    i := from;
    while i < from + count
      invariant from <= i <= from + count
      invariant buffer[from..i] == Rep(padd, i - from)
      invariant buffer[..from] == old(buffer[..from])
      invariant buffer[keep..buffer.Length - 1] == old(buffer[keep..buffer.Length - 1])
    {
      buffer[i] := padd;
      i := i + 1;
    }
    buffer[i] := '\0';
  }

  /** A window inside an unchanged prefix is unchanged. */
  lemma PrefixKept(before: seq<char>, after: seq<char>, j: int, lo: int, hi: int)
    requires 0 <= lo <= hi <= j <= |before| == |after| && before[..j] == after[..j]
    ensures before[lo..hi] == after[lo..hi]
  {
    assert before[lo..hi] == before[..j][lo..hi];
    assert after[lo..hi] == after[..j][lo..hi];
  }

  /** Two writes of buffer cells in a row, as in `write(..) + write(..)`; the
      left operand is taken to run first. */
  method WritePair(sink: Sink, buffer: array<char>, from1: int, n1: int, from2: int, n2: int)
    returns (r: int)
    requires 0 <= from1 && 0 <= n1 && from1 + n1 <= buffer.Length
    requires 0 <= from2 && 0 <= n2 && from2 + n2 <= buffer.Length
    modifies sink
    ensures sink.text == old(sink.text) + buffer[from1..from1 + n1] + buffer[from2..from2 + n2]
    ensures r == n1 + n2
  {
    var a := sink.Write(buffer, from1, n1);
    var b := sink.Write(buffer, from2, n2);
    r := a + b;
  }

  /** The tail of write_unsgnd once the run in buffer[start..BUFF_SIZE-1) is
      zero-extended: pad on the left, or on the right under '-', up to `width`. */
  method PadAndWrite(buffer: array<char>, start: int, flags: bv8, width: int, padd: char, sink: Sink)
    returns (r: int)
    requires buffer.Length == BUFF_SIZE && BUFF_SIZE - 1 - MAX_FIELD <= start <= BUFF_SIZE - 1
    requires width <= MAX_FIELD
    modifies buffer, sink
    ensures var digits := old(buffer[start..BUFF_SIZE - 1]);
      var pad := Rep(padd, width - |digits|);
      sink.text == old(sink.text) + (if HasFlag(flags, F_MINUS) then digits + pad else pad + digits)
    ensures r == |sink.text| - |old(sink.text)|
  {
    var length := BUFF_SIZE - 1 - start;
    ghost var digits := buffer[start..BUFF_SIZE - 1];
    if width > length {
      var i := FillPad(buffer, 0, width - length, padd, start);
      assert buffer[start..start + length] == digits;
      if HasFlag(flags, F_MINUS) {
        r := WritePair(sink, buffer, start, length, 0, i);
      } else {
        r := WritePair(sink, buffer, 0, i, start, length);
      }
    } else {
      assert buffer[start..start + length] == digits;
      r := sink.Write(buffer, start, length);
    }
  }

  /** write_unsgnd: `ind` is the first cell of the staged run, which ends just
      before the buffer's last cell. */
  method WriteUnsgnd(isNegative: int, ind: int, buffer: array<char>, flags: bv8, width: int,
                     precision: int, size: int, sink: Sink) returns (r: int)
    requires buffer.Length == BUFF_SIZE && BUFF_SIZE - 1 - MAX_FIELD <= ind <= BUFF_SIZE - 2
    requires width <= MAX_FIELD && precision <= MAX_FIELD
    modifies buffer, sink
    ensures sink.text == old(sink.text) + UnsgndField(old(buffer[ind..BUFF_SIZE - 1]), flags, width, precision)
    ensures r == |UnsgndField(old(buffer[ind..BUFF_SIZE - 1]), flags, width, precision)|
  {
    ghost var run := buffer[ind..BUFF_SIZE - 1];
    var length := BUFF_SIZE - ind - 1;
    var padd := ' ';
    if precision == 0 && ind == BUFF_SIZE - 2 && buffer[ind] == '0' {
      assert run == ['0'];
      return 0;
    }
    if precision > 0 && precision < length {
      padd := ' ';
    }
    var start := ZeroExtend(buffer, ind, precision);
    if HasFlag(flags, F_ZERO) && !HasFlag(flags, F_MINUS) {
      padd := '0';
    }
    ghost var digits := ZeroExtended(run, precision);
    ghost var pad := Rep(padd, width - |digits|);
    assert UnsgndField(run, flags, width, precision) == if HasFlag(flags, F_MINUS) then digits + pad else pad + digits;
    r := PadAndWrite(buffer, start, flags, width, padd, sink);
  }

  // ---------------------------------------------------------------- write_num

  /** The sign or blank that write_number places before the digits, or '\0'
      for none. */
  function SignChar(isNegative: int, flags: bv8): (c: char)
  {
    if isNegative != 0 then '-'
    else if HasFlag(flags, F_PLUS) then '+'
    else if HasFlag(flags, F_SPACE) then ' '
    else '\0'
  }

  /** The optional extra character as a string. */
  function Extra(extra: char): (ex: seq<char>)
  {
    if extra != '\0' then [extra] else []
  }

  /** How write_num lays out the extra character, the digits and the pad. */
  function SignedLayout(digits: seq<char>, flags: bv8, width: int, padd: char, extra: char): seq<char>
  {
    var ex := Extra(extra);
    var total := |ex| + |digits|;
    if width > total && HasFlag(flags, F_MINUS) && padd == ' ' then ex + digits + Rep(' ', width - total)
    else if width > total && !HasFlag(flags, F_MINUS) && padd == ' ' then Rep(' ', width - total) + ex + digits
    else if width > total && !HasFlag(flags, F_MINUS) && padd == '0' then ex + Rep('0', width - total) + digits
    else ex + digits
  }

  /** A lone "0" run with precision 0: the digit is suppressed. */
  predicate LoneZero(run: seq<char>, prec: int) {
    prec == 0 && run == ['0']
  }

  /** The bytes write_num emits for the staged run. */
  function NumField(run: seq<char>, flags: bv8, width: int, prec: int, padd: char, extra: char): seq<char>
  {
    if LoneZero(run, prec) && width == 0 then []
    else if LoneZero(run, prec) then SignedLayout([' '], flags, width, ' ', extra)
    else SignedLayout(ZeroExtended(run, prec), flags, width, if 0 < prec < |run| then ' ' else padd, extra)
  }

  /** The bytes write_number emits: write_num with the pad and extra character
      it chooses from the flags. */
  function NumberField(run: seq<char>, isNegative: int, flags: bv8, width: int, prec: int): seq<char>
  {
    NumField(run, flags, width, prec, ZeroPad(flags), SignChar(isNegative, flags))
  }

  /** `buffer[--ind] = extra_c` when there is an extra character. */
  method PutExtra(buffer: array<char>, start: int, end: int, extra: char) returns (j: int)
    requires 1 <= start <= end <= buffer.Length
    modifies buffer
    ensures j == start - |Extra(extra)|
    ensures buffer[j..end] == Extra(extra) + old(buffer[start..end])
    ensures buffer[..j] == old(buffer[..j])
  {
    j := start;
    if extra != '\0' {
      j := j - 1;
      buffer[j] := extra;
      assert buffer[j..end] == [extra] + buffer[start..end];
    }
  }

  /** The padded branch of write_num with the pad written after the digits or
      before the extra character: the extra character goes in front of the
      digits and the two pieces are written in the order `padFirst` says. */
  method SpacePadded(buffer: array<char>, start: int, i: int, extra: char, padFirst: bool, sink: Sink)
    returns (r: int)
    requires buffer.Length == BUFF_SIZE && 1 <= i < start - 1 && start <= BUFF_SIZE - 1
    modifies buffer, sink
    ensures var body := Extra(extra) + old(buffer[start..BUFF_SIZE - 1]);
      var pad := old(buffer[1..i]);
      sink.text == old(sink.text) + (if padFirst then pad + body else body + pad)
    ensures r == |sink.text| - |old(sink.text)|
  {
    ghost var before := buffer[..];
    var ind := PutExtra(buffer, start, BUFF_SIZE - 1, extra);
    PrefixKept(before, buffer[..], ind, 1, i);
    if padFirst {
      r := WritePair(sink, buffer, 1, i - 1, ind, BUFF_SIZE - 1 - ind);
    } else {
      r := WritePair(sink, buffer, ind, BUFF_SIZE - 1 - ind, 1, i - 1);
    }
  }

  /** The zero-padded branch of write_num: the extra character goes in cell 0,
      before the zeros, and the digits follow. */
  method ZeroPadded(buffer: array<char>, start: int, i: int, extra: char, sink: Sink) returns (r: int)
    requires buffer.Length == BUFF_SIZE && 1 <= i < start <= BUFF_SIZE - 1
    modifies buffer, sink
    ensures var zeros := old(buffer[1..i]);
      sink.text == old(sink.text) + (Extra(extra) + zeros + old(buffer[start..BUFF_SIZE - 1]))
    ensures r == |sink.text| - |old(sink.text)|
  {
    ghost var zeros := buffer[1..i];
    ghost var digits := buffer[start..BUFF_SIZE - 1];
    var paddStart := 1;
    if extra != '\0' {
      paddStart := paddStart - 1;
      buffer[paddStart] := extra;
      assert buffer[paddStart..i] == [extra] + zeros;
    }
    assert buffer[start..BUFF_SIZE - 1] == digits;
    r := WritePair(sink, buffer, paddStart, i - paddStart, start, BUFF_SIZE - 1 - start);
  }

  /** The unpadded end of write_num: extra character and digits in one write. */
  method ExtraAndDigits(buffer: array<char>, start: int, extra: char, sink: Sink) returns (r: int)
    requires buffer.Length == BUFF_SIZE && 1 <= start <= BUFF_SIZE - 1
    modifies buffer, sink
    ensures sink.text == old(sink.text) + (Extra(extra) + old(buffer[start..BUFF_SIZE - 1]))
    ensures r == |sink.text| - |old(sink.text)|
  {
    var ind := PutExtra(buffer, start, BUFF_SIZE - 1, extra);
    r := sink.Write(buffer, ind, BUFF_SIZE - 1 - ind);
  }

  /** The tail of write_num once the run in buffer[start..BUFF_SIZE-1) is
      zero-extended: count the extra character, pad, place the extra
      character and write. */
  method SignPadAndWrite(buffer: array<char>, start: int, flags: bv8, width: int, padd: char,
                         extra: char, sink: Sink) returns (r: int)
    requires buffer.Length == BUFF_SIZE && BUFF_SIZE - 1 - MAX_FIELD <= start <= BUFF_SIZE - 1
    requires width <= MAX_FIELD
    modifies buffer, sink
    ensures sink.text == old(sink.text) + SignedLayout(old(buffer[start..BUFF_SIZE - 1]), flags, width, padd, extra)
    ensures r == |sink.text| - |old(sink.text)|
  {
    ghost var digits := buffer[start..BUFF_SIZE - 1];
    ghost var field := SignedLayout(digits, flags, width, padd, extra);
    var length := BUFF_SIZE - 1 - start;
    if extra != '\0' {
      length := length + 1;
    }
    if width > length {
      var i := FillPad(buffer, 1, width - length, padd, start);
      if HasFlag(flags, F_MINUS) && padd == ' ' {
        assert field == Extra(extra) + digits + Rep(' ', width - length);
        r := SpacePadded(buffer, start, i, extra, false, sink);
        return;
      } else if !HasFlag(flags, F_MINUS) && padd == ' ' {
        assert field == Rep(' ', width - length) + (Extra(extra) + digits);
        r := SpacePadded(buffer, start, i, extra, true, sink);
        return;
      } else if !HasFlag(flags, F_MINUS) && padd == '0' {
        assert field == Extra(extra) + Rep('0', width - length) + digits;
        r := ZeroPadded(buffer, start, i, extra, sink);
        return;
      }
    }
    assert field == Extra(extra) + digits;
    r := ExtraAndDigits(buffer, start, extra, sink);
  }

  /** write_num: `length` is the length of the staged run, as its only caller
      passes it. */
  method WriteNum(ind: int, buffer: array<char>, flags: bv8, width: int, prec: int,
                  length: int, padd: char, extra: char, sink: Sink) returns (r: int)
    requires buffer.Length == BUFF_SIZE && BUFF_SIZE - 1 - MAX_FIELD <= ind <= BUFF_SIZE - 2
    requires length == BUFF_SIZE - 1 - ind
    requires width <= MAX_FIELD && prec <= MAX_FIELD
    modifies buffer, sink
    ensures sink.text == old(sink.text) + NumField(old(buffer[ind..BUFF_SIZE - 1]), flags, width, prec, padd, extra)
    ensures r == |NumField(old(buffer[ind..BUFF_SIZE - 1]), flags, width, prec, padd, extra)|
  {
    ghost var run := buffer[ind..BUFF_SIZE - 1];
    var pad := padd;
    if prec == 0 && ind == BUFF_SIZE - 2 && buffer[ind] == '0' && width == 0 {
      assert LoneZero(run, prec);
      return 0;
    }
    if prec == 0 && ind == BUFF_SIZE - 2 && buffer[ind] == '0' {
      assert LoneZero(run, prec);
      buffer[ind] := ' ';
      pad := ' ';
      assert buffer[ind..BUFF_SIZE - 1] == [' '];
    } else {
      assert !LoneZero(run, prec);
    }
    if prec > 0 && prec < length {
      pad := ' ';
    }
    ghost var body := buffer[ind..BUFF_SIZE - 1];
    assert NumField(run, flags, width, prec, padd, extra) == SignedLayout(ZeroExtended(body, prec), flags, width, pad, extra);
    var start := ZeroExtend(buffer, ind, prec);
    r := SignPadAndWrite(buffer, start, flags, width, pad, extra, sink);
  }

  /** write_number: the pad is '0' under '0' without '-', the extra character
      is '-' for a negative number, else '+' or ' ' by the flags. */
  method WriteNumber(isNegative: int, ind: int, buffer: array<char>, flags: bv8, width: int,
                     precision: int, size: int, sink: Sink) returns (r: int)
    requires buffer.Length == BUFF_SIZE && BUFF_SIZE - 1 - MAX_FIELD <= ind <= BUFF_SIZE - 2
    requires width <= MAX_FIELD && precision <= MAX_FIELD
    modifies buffer, sink
    ensures sink.text == old(sink.text) + NumberField(old(buffer[ind..BUFF_SIZE - 1]), isNegative, flags, width, precision)
    ensures r == |NumberField(old(buffer[ind..BUFF_SIZE - 1]), isNegative, flags, width, precision)|
  {
    var length := BUFF_SIZE - ind - 1;
    var padd := ' ';
    var extraCh := '\0';
    if HasFlag(flags, F_ZERO) && !HasFlag(flags, F_MINUS) {
      padd := '0';
    }
    if isNegative != 0 {
      extraCh := '-';
    } else if HasFlag(flags, F_PLUS) {
      extraCh := '+';
    } else if HasFlag(flags, F_SPACE) {
      extraCh := ' ';
    }
    r := WriteNum(ind, buffer, flags, width, precision, length, padd, extraCh, sink);
  }

  // -------------------------------------------------------- handle_write_char

  /** The bytes handle_write_char emits: the character, padded to `width` on
      the left, or on the right under '-', with '0' under the '0' flag and ' '
      otherwise. */
  function CharField(c: char, flags: bv8, width: int): seq<char>
  {
    var padd := if HasFlag(flags, F_ZERO) then '0' else ' ';
    if width > 1 then
      if HasFlag(flags, F_MINUS) then [c] + Rep(padd, width - 1) else Rep(padd, width - 1) + [c]
    else [c]
  }

  /** handle_write_char's pad loop: `count` copies of `padd` in the cells just
      before the last one, written from the right; cell 0 is left alone. */
  method PadBeforeLast(buffer: array<char>, count: int, padd: char) returns (i: int)
    requires buffer.Length == BUFF_SIZE && 0 <= count <= BUFF_SIZE - 2
    modifies buffer
    ensures i == count
    ensures buffer[BUFF_SIZE - 1 - count..BUFF_SIZE - 1] == Rep(padd, count)
    ensures buffer[0] == old(buffer[0])
  {
    i := 0;
    while i < count
      invariant 0 <= i <= count
      invariant buffer[BUFF_SIZE - 1 - i..BUFF_SIZE - 1] == Rep(padd, i)
      invariant buffer[0] == old(buffer[0])
    {
      buffer[BUFF_SIZE - i - 2] := padd;
      SliceCons(buffer[..], BUFF_SIZE - i - 2, BUFF_SIZE - 1);
      i := i + 1;
    }
  }

  /** handle_write_char's padded case: the pad goes in the cells just before
      the last one, and the character in cell 0 is written before or after
      it. */
  method PadChar(c: char, buffer: array<char>, flags: bv8, width: int, padd: char, sink: Sink) returns (r: int)
    requires buffer.Length == BUFF_SIZE && 1 < width <= BUFF_SIZE - 1 && buffer[0] == c
    requires padd == if HasFlag(flags, F_ZERO) then '0' else ' '
    modifies buffer, sink
    ensures sink.text == old(sink.text) + CharField(c, flags, width)
    ensures r == |CharField(c, flags, width)|
  {
    buffer[BUFF_SIZE - 1] := '\0';
    var i := PadBeforeLast(buffer, width - 1, padd);
    ghost var pad := Rep(padd, width - 1);
    assert buffer[0..1] == [c];
    assert buffer[BUFF_SIZE - i - 1..BUFF_SIZE - i - 1 + (width - 1)] == pad;
    if HasFlag(flags, F_MINUS) {
      assert CharField(c, flags, width) == [c] + pad;
      r := WritePair(sink, buffer, 0, 1, BUFF_SIZE - i - 1, width - 1);
    } else {
      assert CharField(c, flags, width) == pad + [c];
      r := WritePair(sink, buffer, BUFF_SIZE - i - 1, width - 1, 0, 1);
    }
  }

  /** handle_write_char: the character goes in cell 0 and the pad fills the
      cells just before the last one, from the right. */
  method HandleWriteChar(c: char, buffer: array<char>, flags: bv8, width: int, precision: int,
                         size: int, sink: Sink) returns (r: int)
    requires buffer.Length == BUFF_SIZE && width <= BUFF_SIZE - 1
    modifies buffer, sink
    ensures sink.text == old(sink.text) + CharField(c, flags, width)
    ensures r == |CharField(c, flags, width)|
  {
    var i := 0;
    var padd := ' ';
    if HasFlag(flags, F_ZERO) {
      padd := '0';
    }
    buffer[i] := c;
    i := i + 1;
    buffer[i] := '\0';
    if width > 1 {
      r := PadChar(c, buffer, flags, width, padd, sink);
      return;
    }
    assert buffer[0..1] == [c];
    r := sink.Write(buffer, 0, 1);
  }

  // ------------------------------------------------------------ write_pointer

  /** The bytes write_pointer emits for the hex digits `hex`: "0x" and the
      optional extra character in front, padded to `width`. */
  function PointerField(hex: seq<char>, flags: bv8, width: int, padd: char, extra: char): seq<char>
  {
    var ex := Extra(extra);
    var length := |ex| + 2 + |hex|;
    if width > length && HasFlag(flags, F_MINUS) && padd == ' ' then ex + "0x" + hex + Rep(' ', width - length)
    else if width > length && !HasFlag(flags, F_MINUS) && padd == ' ' then Rep(' ', width - length) + ex + "0x" + hex
    else if width > length && !HasFlag(flags, F_MINUS) && padd == '0' then ex + "0x" + Rep('0', width - length) + hex
    else ex + "0x" + hex
  }

  /** `buffer[--ind] = 'x'; buffer[--ind] = '0';` and the extra character
      before them. */
  method PutPrefix(buffer: array<char>, start: int, extra: char) returns (j: int)
    requires 3 <= start <= BUFF_SIZE - 1 == buffer.Length - 1
    modifies buffer
    ensures j == start - 2 - |Extra(extra)|
    ensures buffer[j..BUFF_SIZE - 1] == Extra(extra) + "0x" + old(buffer[start..BUFF_SIZE - 1])
    ensures buffer[..j] == old(buffer[..j])
  {
    ghost var hex := buffer[start..BUFF_SIZE - 1];
    buffer[start - 1] := 'x';
    buffer[start - 2] := '0';
    assert buffer[start - 2..BUFF_SIZE - 1] == "0x" + hex;
    j := PutExtra(buffer, start - 2, BUFF_SIZE - 1, extra);
  }

  /** The space-padded branches of write_pointer. */
  method PointerSpacePadded(buffer: array<char>, start: int, i: int, extra: char, padFirst: bool, sink: Sink)
    returns (r: int)
    requires buffer.Length == BUFF_SIZE && 3 <= i < start - 3 && start <= BUFF_SIZE - 1
    modifies buffer, sink
    ensures var body := Extra(extra) + "0x" + old(buffer[start..BUFF_SIZE - 1]);
      var pad := old(buffer[3..i]);
      sink.text == old(sink.text) + (if padFirst then pad + body else body + pad)
    ensures r == |sink.text| - |old(sink.text)|
  {
    ghost var before := buffer[..];
    var ind := PutPrefix(buffer, start, extra);
    PrefixKept(before, buffer[..], ind, 3, i);
    if padFirst {
      r := WritePair(sink, buffer, 3, i - 3, ind, BUFF_SIZE - 1 - ind);
    } else {
      r := WritePair(sink, buffer, ind, BUFF_SIZE - 1 - ind, 3, i - 3);
    }
  }

  /** Cells 0 to 2 of the zero-padded pointer field, read back as a string. */
  lemma PrefixCells(s: seq<char>, ps: int, i: int, extra: char, zeros: seq<char>)
    requires 3 <= i <= |s| && s[3..i] == zeros && s[1] == '0' && s[2] == 'x'
    requires ps == 1 - |Extra(extra)| && (extra != '\0' ==> s[0] == extra)
    ensures s[ps..i] == Extra(extra) + "0x" + zeros
  {
    assert s[1..i] == [s[1], s[2]] + s[3..i];
    if extra != '\0' {
      assert s[0..i] == [s[0]] + s[1..i];
    }
  }

  /** The zero-padded branch of write_pointer: the extra character, '0' and 'x'
      go in cells 0 to 2, in front of the zeros. */
  method PointerZeroPadded(buffer: array<char>, start: int, i: int, extra: char, paddStart: int, sink: Sink)
    returns (r: int)
    requires buffer.Length == BUFF_SIZE && 3 <= i < start <= BUFF_SIZE - 1 && paddStart == 1
    modifies buffer, sink
    ensures var zeros := old(buffer[3..i]);
      sink.text == old(sink.text) + (Extra(extra) + "0x" + zeros + old(buffer[start..BUFF_SIZE - 1]))
    ensures r == |sink.text| - |old(sink.text)|
  {
    ghost var zeros := buffer[3..i];
    ghost var hex := buffer[start..BUFF_SIZE - 1];
    var ps := paddStart;
    if extra != '\0' {
      ps := ps - 1;
      buffer[ps] := extra;
    }
    buffer[1] := '0';
    buffer[2] := 'x';
    PrefixCells(buffer[..], ps, i, extra, zeros);
    assert buffer[start..BUFF_SIZE - 1] == hex;
    r := WritePair(sink, buffer, ps, i - ps, start, BUFF_SIZE - 1 - start);
  }

  /** The unpadded end of write_pointer: prefix and digits in one write. */
  method PointerUnpadded(buffer: array<char>, ind: int, extra: char, sink: Sink) returns (r: int)
    requires buffer.Length == BUFF_SIZE && 3 <= ind <= BUFF_SIZE - 1
    modifies buffer, sink
    ensures sink.text == old(sink.text) + (Extra(extra) + "0x" + old(buffer[ind..BUFF_SIZE - 1]))
    ensures r == |sink.text| - |old(sink.text)|
  {
    var start := PutPrefix(buffer, ind, extra);
    r := sink.Write(buffer, start, BUFF_SIZE - start - 1);
  }

  /** write_pointer: the hex digits sit in buffer[ind..BUFF_SIZE-1), `length`
      counts them, "0x" and the extra character, and `paddStart` is 1 as its
      only caller passes it. */
  method WritePointer(buffer: array<char>, ind: int, length: int, width: int, flags: bv8,
                      padd: char, extra: char, paddStart: int, sink: Sink) returns (r: int)
    requires buffer.Length == BUFF_SIZE && BUFF_SIZE - 1 - 64 <= ind <= BUFF_SIZE - 1
    requires length == (BUFF_SIZE - 1 - ind) + 2 + |Extra(extra)| && paddStart == 1
    requires width <= MAX_FIELD
    modifies buffer, sink
    ensures sink.text == old(sink.text) + PointerField(old(buffer[ind..BUFF_SIZE - 1]), flags, width, padd, extra)
    ensures r == |PointerField(old(buffer[ind..BUFF_SIZE - 1]), flags, width, padd, extra)|
  {
    ghost var hex := buffer[ind..BUFF_SIZE - 1];
    ghost var field := PointerField(hex, flags, width, padd, extra);
    if width > length {
      var i := FillPad(buffer, 3, width - length, padd, ind);
      assert buffer[ind..BUFF_SIZE - 1] == hex;
      if HasFlag(flags, F_MINUS) && padd == ' ' {
        assert field == Extra(extra) + "0x" + hex + Rep(' ', width - length);
        r := PointerSpacePadded(buffer, ind, i, extra, false, sink);
        return;
      } else if !HasFlag(flags, F_MINUS) && padd == ' ' {
        assert field == Rep(' ', width - length) + Extra(extra) + "0x" + hex;
        r := PointerSpacePadded(buffer, ind, i, extra, true, sink);
        return;
      } else if !HasFlag(flags, F_MINUS) && padd == '0' {
        assert field == Extra(extra) + "0x" + Rep('0', width - length) + hex;
        r := PointerZeroPadded(buffer, ind, i, extra, paddStart, sink);
        return;
      }
    }
    assert field == Extra(extra) + "0x" + hex;
    r := PointerUnpadded(buffer, ind, extra, sink);
  }

  // ------------------------------------------------------------------ lemmas

  /** A run of '0' digits has value 0 in any base. */
  lemma {:induction false} ValueOfZeros(n: int, base: nat)
    ensures ValueOf(Rep('0', n), base) == 0
    decreases n
  {
    if n > 0 {
      assert Rep('0', n)[..n - 1] == Rep('0', n - 1);
      ValueOfZeros(n - 1, base);
    }
  }

  /** Leading '0' digits do not change a digit string's value. */
  lemma {:induction false} ValueOfLeadingZeros(n: int, s: seq<char>, base: nat)
    ensures ValueOf(Rep('0', n) + s, base) == ValueOf(s, base)
    decreases |s|
  {
    var t := Rep('0', n) + s;
    if s == [] {
      assert t == Rep('0', n);
      ValueOfZeros(n, base);
    } else {
      assert t[..|t| - 1] == Rep('0', n) + s[..|s| - 1];
      assert t[|t| - 1] == s[|s| - 1];
      ValueOfLeadingZeros(n, s[..|s| - 1], base);
    }
  }

  /** The zero-extension loop keeps the number: the extended run has the value
      of the staged run, and the run itself is its tail. */
  lemma ZeroExtendedValue(run: seq<char>, prec: int, base: nat)
    ensures ValueOf(ZeroExtended(run, prec), base) == ValueOf(run, base)
    ensures ZeroExtended(run, prec)[|ZeroExtended(run, prec)| - |run|..] == run
  {
    ValueOfLeadingZeros(prec - |run|, run, base);
    var z := ZeroExtended(run, prec);
    assert z[|z| - |run|..] == run;
  }

  /** write_unsgnd emits nothing for a lone "0" under precision 0, and
      otherwise a field of `width` bytes or the zero-extended run, whichever is
      longer. */
  lemma UnsgndFieldLength(run: seq<char>, flags: bv8, width: int, prec: int)
    ensures |UnsgndField(run, flags, width, prec)| ==
      if LoneZero(run, prec) then 0 else Max(width, Max(prec, |run|))
  {
  }

  /** Two runs of one character join into one. */
  lemma RepJoin(c: char, m: int, n: int)
    requires m >= 0 && n >= 0
    ensures Rep(c, m) + Rep(c, n) == Rep(c, m + n)
  {
  }

  /** Right-aligned, the unsigned field ends with the staged run. */
  lemma UnsgndFieldRightAligned(run: seq<char>, flags: bv8, width: int, prec: int)
    requires !LoneZero(run, prec) && !HasFlag(flags, F_MINUS)
    ensures var f := UnsgndField(run, flags, width, prec);
      |f| >= |run| && f[|f| - |run|..] == run
  {
    var z := ZeroExtended(run, prec);
    var f := UnsgndField(run, flags, width, prec);
    assert z[|z| - |run|..] == run;
    if width > |z| {
      assert f == Rep(ZeroPad(flags), width - |z|) + z;
      assert f[|f| - |run|..] == z[|z| - |run|..];
    }
  }

  /** Under '0' without '-', the unsigned field is the run with leading zeros:
      all digits, of the run's value. */
  lemma UnsgndFieldZeroPadded(run: seq<char>, flags: bv8, width: int, prec: int, base: nat)
    requires !LoneZero(run, prec) && !HasFlag(flags, F_MINUS) && HasFlag(flags, F_ZERO)
    ensures var f := UnsgndField(run, flags, width, prec);
      f == Rep('0', |f| - |run|) + run && ValueOf(f, base) == ValueOf(run, base)
  {
    var z := ZeroExtended(run, prec);
    var m := Max(prec - |run|, 0);
    assert z == Rep('0', m) + run;
    UnsgndZeroLayout(run, flags, width, prec);
    ZerosRun(UnsgndField(run, flags, width, prec), Max(width - |z|, 0), m, run, base);
  }

  /** The zero-padded layout of write_unsgnd, unfolded. */
  lemma UnsgndZeroLayout(run: seq<char>, flags: bv8, width: int, prec: int)
    requires !LoneZero(run, prec) && !HasFlag(flags, F_MINUS) && HasFlag(flags, F_ZERO)
    ensures var z := ZeroExtended(run, prec);
      UnsgndField(run, flags, width, prec) == Rep('0', Max(width - |z|, 0)) + z
  {
  }

  /** Two runs of leading zeros before a digit run join into one, and the
      string reads back as the run. */
  lemma ZerosRun(g: seq<char>, p: int, m: int, run: seq<char>, base: nat)
    requires p >= 0 && m >= 0 && g == Rep('0', p) + (Rep('0', m) + run)
    ensures g == Rep('0', |g| - |run|) + run && ValueOf(g, base) == ValueOf(run, base)
  {
    RepJoin('0', p, m);
    assert |g| - |run| == p + m;
    assert g == Rep('0', p + m) + run;
    ValueOfLeadingZeros(p + m, run, base);
  }

  /** Left-aligned under '-', the unsigned field is the zero-extended run
      followed by blanks. */
  lemma UnsgndFieldLeftAligned(run: seq<char>, flags: bv8, width: int, prec: int)
    requires !LoneZero(run, prec) && HasFlag(flags, F_MINUS)
    ensures var f := UnsgndField(run, flags, width, prec);
      var z := ZeroExtended(run, prec);
      |f| >= |z| && f[..|z|] == z && forall k :: |z| <= k < |f| ==> f[k] == ' '
  {
  }

  /** write_number's field is `width` bytes or the sign and zero-extended run,
      whichever is longer, except that a lone "0" under precision 0 and no
      width emits nothing: write_number never reaches write_num's unpadded
      fall-through with room left to pad. */
  lemma NumberFieldLength(run: seq<char>, isNegative: int, flags: bv8, width: int, prec: int)
    ensures |NumberField(run, isNegative, flags, width, prec)| ==
      if LoneZero(run, prec) && width == 0 then 0
      else Max(width, |Extra(SignChar(isNegative, flags))| + Max(prec, |run|))
  {
  }

  /** The zero-padded layout of write_number, unfolded. */
  lemma ZeroPaddedLayout(run: seq<char>, isNegative: int, flags: bv8, width: int, prec: int)
    requires !LoneZero(run, prec) && !HasFlag(flags, F_MINUS) && HasFlag(flags, F_ZERO)
    requires !(0 < prec < |run|)
    ensures var ex := Extra(SignChar(isNegative, flags));
      var z := ZeroExtended(run, prec);
      NumberField(run, isNegative, flags, width, prec) == ex + (Rep('0', Max(width - |ex| - |z|, 0)) + z)
  {
  }

  /** Under '0' without '-' and without a precision that shortens the pad,
      write_number emits the sign, then the run with leading zeros, of the
      run's value. */
  lemma NumberFieldZeroPadded(run: seq<char>, isNegative: int, flags: bv8, width: int, prec: int, base: nat)
    requires !LoneZero(run, prec) && !HasFlag(flags, F_MINUS) && HasFlag(flags, F_ZERO)
    requires !(0 < prec < |run|)
    ensures var f := NumberField(run, isNegative, flags, width, prec);
      var ex := Extra(SignChar(isNegative, flags));
      |f| >= |ex| + |run| && f[..|ex|] == ex &&
      f[|ex|..] == Rep('0', |f| - |ex| - |run|) + run && ValueOf(f[|ex|..], base) == ValueOf(run, base)
  {
    var ex := Extra(SignChar(isNegative, flags));
    var z := ZeroExtended(run, prec);
    var m := Max(prec - |run|, 0);
    assert z == Rep('0', m) + run;
    ZeroPaddedLayout(run, isNegative, flags, width, prec);
    SignZerosRun(NumberField(run, isNegative, flags, width, prec), ex, Max(width - |ex| - |z|, 0), m, run, base);
  }

  /** A head followed by two runs of leading zeros and a digit run: the zeros
      join, and the part after the head reads back as the run. */
  lemma SignZerosRun(f: seq<char>, ex: seq<char>, p: int, m: int, run: seq<char>, base: nat)
    requires p >= 0 && m >= 0 && f == ex + (Rep('0', p) + (Rep('0', m) + run))
    ensures |f| >= |ex| + |run| && f[..|ex|] == ex &&
      f[|ex|..] == Rep('0', |f| - |ex| - |run|) + run && ValueOf(f[|ex|..], base) == ValueOf(run, base)
  {
    assert f[|ex|..] == Rep('0', p) + (Rep('0', m) + run);
    ZerosRun(f[|ex|..], p, m, run, base);
  }

  /** Under '-', write_number emits the sign and the zero-extended run first,
      then blanks. */
  lemma NumberFieldLeftAligned(run: seq<char>, isNegative: int, flags: bv8, width: int, prec: int)
    requires !LoneZero(run, prec) && HasFlag(flags, F_MINUS)
    ensures var f := NumberField(run, isNegative, flags, width, prec);
      var body := Extra(SignChar(isNegative, flags)) + ZeroExtended(run, prec);
      |f| >= |body| && f[..|body|] == body && forall k :: |body| <= k < |f| ==> f[k] == ' '
  {
  }

  /** Without '-' and with a blank pad, write_number emits blanks, then the
      sign, then the zero-extended run. */
  lemma NumberFieldRightAligned(run: seq<char>, isNegative: int, flags: bv8, width: int, prec: int)
    requires !LoneZero(run, prec) && !HasFlag(flags, F_MINUS)
    requires !HasFlag(flags, F_ZERO) || 0 < prec < |run|
    ensures var f := NumberField(run, isNegative, flags, width, prec);
      var body := Extra(SignChar(isNegative, flags)) + ZeroExtended(run, prec);
      |f| >= |body| && f[|f| - |body|..] == body && forall k :: 0 <= k < |f| - |body| ==> f[k] == ' '
  {
    var body := Extra(SignChar(isNegative, flags)) + ZeroExtended(run, prec);
    var f := NumberField(run, isNegative, flags, width, prec);
    if width > |body| {
      assert f == Rep(' ', width - |body|) + body;
    }
  }

  /** No run of pad characters holds a '-'. */
  lemma RepHasNoMinus(c: char, n: int)
    requires c != '-'
    ensures multiset(Rep(c, n))['-'] == 0
  {
    assert '-' !in Rep(c, n);
  }

  /** The layout adds no '-' of its own: the only one it may hold is the
      extra character. */
  lemma SignedLayoutMinus(digits: seq<char>, flags: bv8, width: int, padd: char, extra: char)
    requires '-' !in digits && padd != '-'
    ensures multiset(SignedLayout(digits, flags, width, padd, extra))['-'] == if extra == '-' then 1 else 0
  {
    var ex := Extra(extra);
    var total := |ex| + |digits|;
    var f := SignedLayout(digits, flags, width, padd, extra);
    assert multiset(ex)['-'] == if extra == '-' then 1 else 0;
    assert multiset(digits)['-'] == 0;
    var blanks := Rep(' ', width - total);
    var zeros := Rep('0', width - total);
    RepHasNoMinus(' ', width - total);
    RepHasNoMinus('0', width - total);
    if width > total && HasFlag(flags, F_MINUS) && padd == ' ' {
      assert multiset(f) == multiset(ex) + multiset(digits) + multiset(blanks);
    } else if width > total && !HasFlag(flags, F_MINUS) && padd == ' ' {
      assert multiset(f) == multiset(blanks) + multiset(ex) + multiset(digits);
    } else if width > total && !HasFlag(flags, F_MINUS) && padd == '0' {
      assert multiset(f) == multiset(ex) + multiset(zeros) + multiset(digits);
    } else {
      assert multiset(f) == multiset(ex) + multiset(digits);
    }
  }

  /** write_number emits exactly one '-' for a negative number and none
      otherwise, unless a lone "0" under precision 0 and no width leaves the
      field empty. */
  lemma NumberFieldMinus(run: seq<char>, isNegative: int, flags: bv8, width: int, prec: int)
    requires '-' !in run && !(LoneZero(run, prec) && width == 0)
    ensures multiset(NumberField(run, isNegative, flags, width, prec))['-'] == if isNegative != 0 then 1 else 0
  {
    var extra := SignChar(isNegative, flags);
    if LoneZero(run, prec) {
      SignedLayoutMinus([' '], flags, width, ' ', extra);
    } else {
      var z := ZeroExtended(run, prec);
      RepHasNoMinus('0', prec - |run|);
      assert multiset(z) == multiset(Rep('0', prec - |run|)) + multiset(run);
      assert '-' !in z;
      SignedLayoutMinus(z, flags, width, if 0 < prec < |run| then ' ' else ZeroPad(flags), extra);
    }
  }

  /** A lone "0" under precision 0 loses its digit: write_number emits only
      blanks and the sign. */
  lemma NumberFieldLoneZero(isNegative: int, flags: bv8, width: int)
    ensures var f := NumberField(['0'], isNegative, flags, width, 0);
      forall k :: 0 <= k < |f| ==> f[k] == ' ' || f[k] == SignChar(isNegative, flags)
  {
  }

  /** handle_write_char emits `width` bytes, or one: the character at the
      front under '-' and at the back otherwise, and the pad everywhere else. */
  lemma CharFieldShape(c: char, flags: bv8, width: int)
    ensures var f := CharField(c, flags, width);
      var at := if HasFlag(flags, F_MINUS) then 0 else |f| - 1;
      var padd := if HasFlag(flags, F_ZERO) then '0' else ' ';
      |f| == Max(width, 1) && f[at] == c && forall k :: 0 <= k < |f| && k != at ==> f[k] == padd
  {
  }

  /** With a blank or '0' pad that is not combined with '-', as print_pointer
      chooses it, write_pointer emits `width` bytes or the extra character,
      "0x" and the digits, whichever is longer. */
  lemma PointerFieldLength(hex: seq<char>, flags: bv8, width: int, padd: char, extra: char)
    requires padd == ' ' || (padd == '0' && !HasFlag(flags, F_MINUS))
    ensures |PointerField(hex, flags, width, padd, extra)| == Max(width, |Extra(extra)| + 2 + |hex|)
  {
  }

  /** With a blank pad, the pointer field holds the extra character, "0x"
      and the digits at its front under '-' and at its back otherwise. */
  lemma PointerFieldBlank(hex: seq<char>, flags: bv8, width: int, extra: char)
    ensures var f := PointerField(hex, flags, width, ' ', extra);
      var body := Extra(extra) + "0x" + hex;
      |f| == Max(width, |body|) &&
      if HasFlag(flags, F_MINUS) then f[..|body|] == body else f[|f| - |body|..] == body
  {
    var f := PointerField(hex, flags, width, ' ', extra);
    var body := Extra(extra) + "0x" + hex;
    if width > |body| {
      if HasFlag(flags, F_MINUS) {
        assert f == body + Rep(' ', width - |body|);
      } else {
        assert f == Rep(' ', width - |body|) + body;
      }
    }
  }

  /** Zero-padded, the pointer field is the extra character and "0x" followed
      by the digits with leading zeros, of the digits' value. */
  lemma PointerFieldZeroPadded(hex: seq<char>, flags: bv8, width: int, extra: char)
    requires !HasFlag(flags, F_MINUS)
    ensures var f := PointerField(hex, flags, width, '0', extra);
      var head := Extra(extra) + "0x";
      |f| >= |head| + |hex| && f[..|head|] == head &&
      f[|head|..] == Rep('0', |f| - |head| - |hex|) + hex && ValueOf(f[|head|..], 16) == ValueOf(hex, 16)
  {
    var head := Extra(extra) + "0x";
    var f := PointerField(hex, flags, width, '0', extra);
    var p := Max(width - |head| - |hex|, 0);
    assert f == head + (Rep('0', p) + hex);
    assert f[|head|..] == Rep('0', p) + hex;
    ValueOfLeadingZeros(p, hex, 16);
  }
}
