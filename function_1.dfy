/** function_1.c: %S (a string with its non-printable bytes escaped), %p (an
    address in hex), %R (ROT13) and %r (reversed). */
module Function1 {
  import opened Defs
  import opened Utils
  import opened Io
  import opened DigitRuns
  import opened WriteHandlers

  // ------------------------------------------------------ print_non_printable

  /** What print_non_printable stores for one byte: the byte itself when it
      is printable, its `\xHH` escape otherwise. */
  function EscapeChar(c: char): seq<char>
    requires IsByte(c) && c as int != 128
  {
    if IsPrintable(c) == 1 then [c] else HexCode(c)
  }

  /** A string whose bytes can all be escaped: no byte 0x80, whose escape
      would index the digit map out of bounds. */
  predicate Escapable(s: seq<char>) {
    forall k :: 0 <= k < |s| ==> IsByte(s[k]) && s[k] as int != 128
  }

  /** The escaped form of `s`, built from the left as the loop builds it. */
  function Escaped(s: seq<char>): seq<char>
    requires Escapable(s)
  {
    if s == [] then [] else Escaped(s[..|s| - 1]) + EscapeChar(s[|s| - 1])
  }

  function NonPrintableCount(s: seq<char>): nat {
    if s == [] then 0
    else NonPrintableCount(s[..|s| - 1]) + (if IsPrintable(s[|s| - 1]) == 1 then 0 else 1)
  }

  /** One more byte of the string, one more piece of the escaped form. */
  lemma EscapedStep(s: seq<char>, i: int)
    requires Escapable(s) && 0 <= i < |s|
    ensures Escapable(s[..i]) && Escapable(s[..i + 1])
    ensures Escaped(s[..i + 1]) == Escaped(s[..i]) + EscapeChar(s[i])
    ensures |Escaped(s[..i + 1])| <= |Escaped(s)|
  {
    assert s[..i + 1][..i] == s[..i];
    EscapedPrefix(s, i + 1);
  }

  /** The escaped form of a prefix is no longer than that of the whole. */
  lemma {:induction false} EscapedPrefix(s: seq<char>, i: int)
    requires Escapable(s) && 0 <= i <= |s|
    ensures Escapable(s[..i]) && |Escaped(s[..i])| <= |Escaped(s)|
    decreases |s|
  {
    if i < |s| {
      assert s[..i] == s[..|s| - 1][..i];
      EscapedPrefix(s[..|s| - 1], i);
    } else {
      assert s[..i] == s;
    }
  }

  /** The escape of a string is one byte per printable byte and four per
      other byte. */
  lemma {:induction false} EscapedLength(s: seq<char>)
    requires Escapable(s)
    ensures |Escaped(s)| == |s| + 3 * NonPrintableCount(s)
    decreases |s|
  {
    if s != [] {
      EscapedLength(s[..|s| - 1]);
      if IsPrintable(s[|s| - 1]) != 1 {
        HexCodeValue(s[|s| - 1]);
      }
    }
  }

  predicate AllPrintable(s: seq<char>) {
    forall k :: 0 <= k < |s| ==> IsPrintable(s[k]) == 1
  }

  /** Everything print_non_printable emits is printable. */
  lemma {:induction false} EscapedPrintable(s: seq<char>)
    requires Escapable(s)
    ensures AllPrintable(Escaped(s))
    decreases |s|
  {
    if s != [] {
      var c := s[|s| - 1];
      EscapedPrintable(s[..|s| - 1]);
      if IsPrintable(c) != 1 {
        HexCodeValue(c);
      }
      PrintableJoin(Escaped(s[..|s| - 1]), EscapeChar(c));
    }
  }

  lemma PrintableJoin(a: seq<char>, b: seq<char>)
    requires AllPrintable(a) && AllPrintable(b)
    ensures AllPrintable(a + b)
  {
  }

  /** A string that is already printable is emitted unchanged. */
  lemma {:induction false} EscapedOfPrintable(s: seq<char>)
    requires Escapable(s) && AllPrintable(s)
    ensures Escaped(s) == s
    decreases |s|
  {
    if s != [] {
      EscapedOfPrintable(s[..|s| - 1]);
    }
  }

  /** The argument of %S: null, or a C string whose escaped form fits the
      buffer with its terminator. */
  predicate EscapeArgFits(args: seq<Arg>, cur: nat) {
    StrAt(args, cur) &&
    (args[cur].s.Some? ==> Escapable(Body(args[cur].s.value)) && |Escaped(Body(args[cur].s.value))| < BUFF_SIZE)
  }

  /** The bytes print_non_printable emits. */
  function NonPrintableOut(s: Option<seq<char>>): seq<char>
    requires s.Some? ==> CString(s.value) && Escapable(Body(s.value))
  {
    if s.None? then "(null)" else Escaped(Body(s.value))
  }

  /** A piece stored right after a kept prefix extends that prefix. */
  lemma StoredPiece(before: seq<char>, after: seq<char>, pos: int, piece: seq<char>)
    requires 0 <= pos && pos + |piece| <= |after| == |before|
    requires after[..pos] == before[..pos] && after[pos..pos + |piece|] == piece
    ensures after[..pos + |piece|] == before[..pos] + piece
  {
    assert after[..pos + |piece|] == after[..pos] + after[pos..pos + |piece|];
  }

  /** print_non_printable. */
  method PrintNonPrintable(types: VaList, buffer: array<char>, flags: bv8, width: int,
                           precision: int, size: int, sink: Sink) returns (r: int)
    requires EscapeArgFits(types.args, types.next) && buffer.Length == BUFF_SIZE
    modifies types, buffer, sink
    ensures types.next == old(types.next) + 1
    ensures var out := NonPrintableOut(types.args[old(types.next)].s);
      sink.text == old(sink.text) + out && r == |out|
  {
    var arg := types.Next();
    if arg.s.None? {
      r := sink.WriteText("(null)", 6);
      return;
    }
    var n := EscapeInto(arg.s.value, buffer);
    r := sink.Write(buffer, 0, n);
  }

  /** The loop of print_non_printable: stores the escaped string, then a
      terminator, at the start of the buffer and answers its length
      (`i + offset` in the source). */
  method EscapeInto(str: seq<char>, buffer: array<char>) returns (n: int)
    requires CString(str) && Escapable(Body(str)) && |Escaped(Body(str))| < buffer.Length
    modifies buffer
    ensures n == |Escaped(Body(str))| && buffer[..n] == Escaped(Body(str)) && buffer[n] == '\0'
  {
    var i := 0;
    var offset := 0;
    ghost var body := Body(str);
    while str[i] != '\0'
      invariant 0 <= i < |str| && Escapable(body[..i])
      invariant i + offset == |Escaped(body[..i])| < buffer.Length
      invariant buffer[..i + offset] == Escaped(body[..i])
      decreases |str| - i
    {
      EscapedStep(body, i);
      var o := EscapeOne(str[i], buffer, i + offset);
      offset := offset + o;
      i := i + 1;
    }
    assert body[..i] == body;
    buffer[i + offset] := '\0';
    n := i + offset;
  }

  /** One pass of that loop: the byte itself when printable (the offset
      grows by 0), else its escape (the offset grows by 3). */
  method EscapeOne(c: char, buffer: array<char>, pos: int) returns (o: int)
    requires IsByte(c) && c as int != 128
    requires 0 <= pos && pos + |EscapeChar(c)| <= buffer.Length
    modifies buffer
    ensures o + 1 == |EscapeChar(c)|
    ensures buffer[..pos + o + 1] == old(buffer[..pos]) + EscapeChar(c)
  {
    ghost var before := buffer[..];
    if IsPrintable(c) == 1 {
      buffer[pos] := c;
      o := 0;
      StoredPiece(before, buffer[..], pos, [c]);
    } else {
      o := AppendHexaCode(c, buffer, pos);
      StoredPiece(before, buffer[..], pos, HexCode(c));
    }
  }

  // ------------------------------------------------------------ print_pointer

  /** The extra character print_pointer chooses: '+' under '+', else ' ' under
      ' ', else none. */
  function PointerExtra(flags: bv8): char {
    if HasFlag(flags, F_PLUS) then '+' else if HasFlag(flags, F_SPACE) then ' ' else '\0'
  }

  /** The bytes print_pointer emits: "(nil)" for NULL, else the lower-case hex
      digits of the address laid out by write_pointer. */
  function PointerOut(addr: nat, flags: bv8, width: int): seq<char> {
    if addr == 0 then "(nil)"
    else PointerField(Digits(addr, 16, false), flags, width, ZeroPad(flags), PointerExtra(flags))
  }

  /** print_pointer: the address loop is the shared digit loop, and `length`
      counts the digits it stores on top of "0x". */
  method PrintPointer(types: VaList, buffer: array<char>, flags: bv8, width: int, precision: int,
                      size: int, sink: Sink) returns (r: int)
    requires PtrAt(types.args, types.next) && buffer.Length == BUFF_SIZE && width <= MAX_FIELD
    modifies types, buffer, sink
    ensures types.next == old(types.next) + 1
    ensures var out := PointerOut(types.args[old(types.next)].addr, flags, width);
      sink.text == old(sink.text) + out && r == |out|
  {
    var extraC := '\0';
    var padd := ' ';
    var ind := BUFF_SIZE - 2;
    var length := 2;
    var paddStart := 1;
    var arg := types.Next();
    if arg.addr == 0 {
      r := sink.WriteText("(nil)", 5);
      return;
    }
    buffer[BUFF_SIZE - 1] := '\0';
    var numAddrs: nat := arg.addr;
    var j := StoreDigits(buffer, numAddrs, 16, false, ind);
    length := length + (ind - j);
    ind := j;
    if HasFlag(flags, F_ZERO) && !HasFlag(flags, F_MINUS) {
      padd := '0';
    }
    if HasFlag(flags, F_PLUS) {
      extraC := '+';
      length := length + 1;
    } else if HasFlag(flags, F_SPACE) {
      extraC := ' ';
      length := length + 1;
    }
    ind := ind + 1;
    assert buffer[ind..BUFF_SIZE - 1] == Digits(arg.addr, 16, false);
    r := WritePointer(buffer, ind, length, width, flags, padd, extraC, paddStart, sink);
  }

  /** Zero-padded, a non-null pointer prints as the extra character, "0x",
      then hex digits with leading zeros that read back as the address. */
  lemma PointerZeroPaddedValue(addr: nat, flags: bv8, width: int)
    requires addr != 0 && HasFlag(flags, F_ZERO) && !HasFlag(flags, F_MINUS)
    ensures var out := PointerOut(addr, flags, width);
      var head := Extra(PointerExtra(flags)) + "0x";
      |out| >= |head| && out[..|head|] == head && ValueOf(out[|head|..], 16) == addr
  {
    PointerFieldZeroPadded(Digits(addr, 16, false), flags, width, PointerExtra(flags));
    DigitsValue(addr, 16, false);
  }

  /** A non-null pointer prints as `width` bytes or the extra character, "0x"
      and its digits, whichever is longer; with a blank pad the digits that
      close the "0x" read back as the address. */
  lemma PointerOutShape(addr: nat, flags: bv8, width: int)
    requires addr != 0
    ensures var hex := Digits(addr, 16, false);
      var out := PointerOut(addr, flags, width);
      var body := Extra(PointerExtra(flags)) + "0x" + hex;
      |out| == Max(width, |body|) && ValueOf(hex, 16) == addr &&
      (ZeroPad(flags) == ' ' ==>
        if HasFlag(flags, F_MINUS) then out[..|body|] == body else out[|out| - |body|..] == body)
  {
    var hex := Digits(addr, 16, false);
    PointerFieldLength(hex, flags, width, ZeroPad(flags), PointerExtra(flags));
    DigitsValue(addr, 16, false);
    if ZeroPad(flags) == ' ' {
      PointerFieldBlank(hex, flags, width, PointerExtra(flags));
    }
  }

  // -------------------------------------------------------- print_rot13string

  /** The two tables of print_rot13string, without their terminators,
      spelled as the halves of each alphabet: `out` is `in` with the halves
      of each alphabet swapped. */
  const UPPER_FIRST: seq<char> := "ABCDEFGHIJKLM"
  const UPPER_SECOND: seq<char> := "NOPQRSTUVWXYZ"
  const LOWER_FIRST: seq<char> := "abcdefghijklm"
  const LOWER_SECOND: seq<char> := "nopqrstuvwxyz"
  const ROT_IN: seq<char> := UPPER_FIRST + UPPER_SECOND + LOWER_FIRST + LOWER_SECOND
  const ROT_OUT: seq<char> := UPPER_SECOND + UPPER_FIRST + LOWER_SECOND + LOWER_FIRST

  /** ROT13 by arithmetic: letters move 13 places round their alphabet, other
      bytes stay. This is the reference the table lookup is proved against. */
  function Rot13(c: char): char {
    if 'A' <= c <= 'M' || 'a' <= c <= 'm' then (c as int + 13) as char
    else if 'N' <= c <= 'Z' || 'n' <= c <= 'z' then (c as int - 13) as char
    else c
  }

  function Rot13String(s: seq<char>): (t: seq<char>)
    ensures |t| == |s|
    ensures forall k :: 0 <= k < |s| ==> t[k] == Rot13(s[k])
  {
    seq(|s|, k requires 0 <= k < |s| => Rot13(s[k]))
  }

  predicate IsLetter(c: char) {
    'A' <= c <= 'Z' || 'a' <= c <= 'z'
  }

  lemma UpperHalves(j: int)
    requires 0 <= j < 13
    ensures |UPPER_FIRST| == |UPPER_SECOND| == 13
    ensures UPPER_FIRST[j] as int == 'A' as int + j && UPPER_SECOND[j] as int == 'N' as int + j
  {
  }

  lemma LowerHalves(j: int)
    requires 0 <= j < 13
    ensures |LOWER_FIRST| == |LOWER_SECOND| == 13
    ensures LOWER_FIRST[j] as int == 'a' as int + j && LOWER_SECOND[j] as int == 'n' as int + j
  {
  }

  /** ROT_IN lists the upper-case then the lower-case alphabet. */
  lemma RotInAt(j: int)
    requires 0 <= j < 52
    ensures |ROT_IN| == 52
    ensures ROT_IN[j] as int == if j < 26 then 'A' as int + j else 'a' as int + j - 26
  {
    var upper := UPPER_FIRST + UPPER_SECOND;
    var lower := LOWER_FIRST + LOWER_SECOND;
    if j < 26 {
      assert ROT_IN[j] == upper[j];
      if j < 13 {
        UpperHalves(j);
      } else {
        UpperHalves(j - 13);
      }
    } else {
      assert ROT_IN[j] == lower[j - 26];
      if j < 39 {
        LowerHalves(j - 26);
      } else {
        LowerHalves(j - 39);
      }
    }
  }

  /** ROT_OUT at index j is ROT_IN at index j moved 13 places round its
      alphabet. */
  lemma RotOutAt(j: int)
    requires 0 <= j < 52
    ensures |ROT_OUT| == 52
    ensures ROT_OUT[j] as int ==
      if j < 13 then 'N' as int + j
      else if j < 26 then 'A' as int + j - 13
      else if j < 39 then 'n' as int + j - 26
      else 'a' as int + j - 39
  {
    var upper := UPPER_SECOND + UPPER_FIRST;
    var lower := LOWER_SECOND + LOWER_FIRST;
    if j < 26 {
      assert ROT_OUT[j] == upper[j];
      if j < 13 {
        UpperHalves(j);
      } else {
        UpperHalves(j - 13);
      }
    } else {
      assert ROT_OUT[j] == lower[j - 26];
      if j < 39 {
        LowerHalves(j - 26);
      } else {
        LowerHalves(j - 39);
      }
    }
  }

  /** The tables agree with the arithmetic: ROT_IN holds only letters, and
      ROT_OUT holds the ROT13 image of the letter ROT_IN holds at the same
      index. */
  lemma RotTables(j: int)
    requires 0 <= j < |ROT_IN|
    ensures |ROT_OUT| == |ROT_IN| && IsLetter(ROT_IN[j]) && ROT_OUT[j] == Rot13(ROT_IN[j])
  {
    RotInAt(j);
    RotOutAt(j);
  }

  /** A byte the table search does not find is not a letter, so ROT13 keeps
      it. */
  lemma NotInTable(c: char)
    requires forall k :: 0 <= k < |ROT_IN| ==> ROT_IN[k] != c
    ensures !IsLetter(c) && Rot13(c) == c
  {
    var j := if c <= 'Z' then c as int - 'A' as int else c as int - 'a' as int + 26;
    if 0 <= j < 52 {
      RotInAt(j);
    }
  }

  /** Each letter is moved back by a second ROT13. */
  lemma Rot13Twice(c: char)
    ensures Rot13(Rot13(c)) == c
  {
  }

  /** ROT13 undoes itself. */
  lemma Rot13Involution(s: seq<char>)
    ensures Rot13String(Rot13String(s)) == s
  {
    forall k | 0 <= k < |s|
      ensures Rot13(Rot13(s[k])) == s[k]
    {
      Rot13Twice(s[k]);
    }
  }

  /** The string %R reads: the argument's body, or "(AHYY)" for null. */
  function Rot13Source(s: Option<seq<char>>): seq<char>
    requires s.Some? ==> CString(s.value)
  {
    if s.None? then "(AHYY)" else Body(s.value)
  }

  /** For a null string %R prints "(NULL)". */
  lemma Rot13OfNull()
    ensures Rot13String(Rot13Source(None)) == "(NULL)"
  {
  }

  /** The table search for one byte: the ROT13 image of the byte. */
  method RotLookup(c: char) returns (x: char)
    ensures x == Rot13(c)
  {
    var j := 0;
    while j < |ROT_IN|
      invariant 0 <= j <= |ROT_IN|
      invariant forall k :: 0 <= k < j ==> ROT_IN[k] != c
    {
      if ROT_IN[j] == c {
        RotTables(j);
        x := ROT_OUT[j];
        return;
      }
      j := j + 1;
    }
    NotInTable(c);
    x := c;
  }

  /** print_rot13string: one write per byte; the inner table search is
      RotLookup. */
  method PrintRot13String(types: VaList, buffer: array<char>, flags: bv8, width: int,
                          precision: int, size: int, sink: Sink) returns (count: int)
    requires StrAt(types.args, types.next)
    modifies types, sink
    ensures types.next == old(types.next) + 1
    ensures var out := Rot13String(Rot13Source(types.args[old(types.next)].s));
      sink.text == old(sink.text) + out && count == |out|
  {
    count := 0;
    var arg := types.Next();
    var str := if arg.s.None? then "(AHYY)\0" else arg.s.value;
    ghost var src := Rot13Source(arg.s);
    assert src == str[..|str| - 1];
    var i := 0;
    while str[i] != '\0'
      invariant 0 <= i < |str| && i <= |src|
      invariant sink.text == old(sink.text) + Rot13String(src[..i]) && count == i
      invariant types.next == old(types.next) + 1
      decreases |str| - i
    {
      var x := RotLookup(str[i]);
      var w := sink.WriteText([x], 1);
      assert Rot13String(src[..i + 1]) == Rot13String(src[..i]) + [x];
      count := count + 1;
      i := i + 1;
    }
    assert src[..i] == src;
  }

  // ------------------------------------------------------------ print_reverse

  function Reverse(s: seq<char>): (t: seq<char>)
    ensures |t| == |s|
    ensures forall k :: 0 <= k < |s| ==> t[k] == s[|s| - 1 - k]
  {
    seq(|s|, k requires 0 <= k < |s| => s[|s| - 1 - k])
  }

  /** Reversing twice gives the string back. */
  lemma ReverseInvolution(s: seq<char>)
    ensures Reverse(Reverse(s)) == s
  {
  }

  /** The string %r reads: the argument's body, or ")Null(" for null. */
  function ReverseSource(s: Option<seq<char>>): seq<char>
    requires s.Some? ==> CString(s.value)
  {
    if s.None? then ")Null(" else Body(s.value)
  }

  /** For a null string %r prints "(lluN)". */
  lemma ReverseOfNull()
    ensures Reverse(ReverseSource(None)) == "(lluN)"
  {
  }

  /** print_reverse: find the terminator, then write the bytes one by one
      from the last. */
  method PrintReverse(types: VaList, buffer: array<char>, flags: bv8, width: int,
                      precision: int, size: int, sink: Sink) returns (count: int)
    requires StrAt(types.args, types.next)
    modifies types, sink
    ensures types.next == old(types.next) + 1
    ensures var out := Reverse(ReverseSource(types.args[old(types.next)].s));
      sink.text == old(sink.text) + out && count == |out|
  {
    count := 0;
    var arg := types.Next();
    var str := if arg.s.None? then ")Null(\0" else arg.s.value;
    ghost var src := ReverseSource(arg.s);
    assert src == str[..|str| - 1];
    var i := 0;
    while str[i] != '\0'
      invariant 0 <= i < |str| && i <= |src|
      decreases |str| - i
    {
      i := i + 1;
    }
    assert i == |src|;
    i := i - 1;
    while i >= 0
      invariant -1 <= i < |src|
      invariant sink.text == old(sink.text) + Reverse(src)[..|src| - 1 - i] && count == |src| - 1 - i
      invariant types.next == old(types.next) + 1
    {
      var z := str[i];
      var w := sink.WriteText([z], 1);
      assert Reverse(src)[..|src| - i] == Reverse(src)[..|src| - 1 - i] + [z];
      count := count + 1;
      i := i - 1;
    }
  }
}
