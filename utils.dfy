/** utils.c: character classes, the length-modifier casts and the `\xHH` escape. */
module Utils {
  import opened Defs

  /** is_digit: 1 exactly for '0'..'9'. */
  function IsDigit(c: char): (r: int)
    ensures r == 0 || r == 1
    ensures r == 1 <==> IsDigitChar(c)
  {
    if c >= '0' && c <= '9' then 1 else 0
  }

  /** is_printable: 1 exactly for the printable ASCII codes, 32 to 126 inclusive. */
  function IsPrintable(c: char): (r: int)
    ensures r == 0 || r == 1
    ensures r == 1 <==> 32 <= c as int <= 126
  {
    if c as int >= 32 && c as int < 127 then 1 else 0
  }

  /** convert_size_number: the cast of a `long` to the type the length modifier
      names, with two's-complement wrap-around for `short` and `int`. */
  function ConvertSizeNumber(num: int, size: int): (r: int)
    requires LONG_MIN <= num <= LONG_MAX
    ensures size == S_LONG ==> r == num
    ensures size == S_SHORT ==> -0x8000 <= r < 0x8000 && (r - num) % 0x1_0000 == 0
    ensures size != S_LONG && size != S_SHORT ==> INT_MIN <= r <= INT_MAX && (r - num) % 0x1_0000_0000 == 0
  {
    if size == S_LONG then num
    else if size == S_SHORT then
      var m := num % 0x1_0000;
      if m < 0x8000 then m else m - 0x1_0000
    else
      var m := num % 0x1_0000_0000;
      if m < 0x8000_0000 then m else m - 0x1_0000_0000
  }

  /** convert_size_unsgnd: the cast of an `unsigned long` to the unsigned type
      the length modifier names, which keeps the low 16 or 32 bits. */
  function ConvertSizeUnsgnd(num: int, size: int): (r: int)
    requires 0 <= num < ULONG_LIMIT
    ensures size == S_LONG ==> r == num
    ensures size == S_SHORT ==> 0 <= r < 0x1_0000 && (num - r) % 0x1_0000 == 0
    ensures size != S_LONG && size != S_SHORT ==> 0 <= r < UINT_LIMIT && (num - r) % UINT_LIMIT == 0
  {
    if size == S_LONG then num
    else if size == S_SHORT then num % 0x1_0000
    else num % UINT_LIMIT
  }

  /** The bytes append_hexa_code stores for a byte: a backslash, 'x', then two
      upper-case hex digits of the absolute value of the byte read as a signed char. */
  function HexCode(c: char): seq<char>
    requires IsByte(c) && c as int != 128
  {
    var a := Magnitude(c);
    ['\\', 'x', UPPER_HEX[a / 16], UPPER_HEX[a % 16]]
  }

  /** The absolute value of a byte read as a signed char. */
  function Magnitude(c: char): (a: nat)
    requires IsByte(c)
    ensures a <= 128 && (a == 128 <==> c as int == 128)
    ensures a == SignedChar(c) || a == -SignedChar(c)
  {
    var v := SignedChar(c);
    if v < 0 then -v else v
  }

  /** append_hexa_code: stores the four-byte escape at buffer[i..i+4) and
      returns 3, one less than the bytes stored (the caller's own increment
      accounts for the fourth). */
  method AppendHexaCode(asciiCode: char, buffer: array<char>, i: int) returns (r: int)
    requires IsByte(asciiCode) && asciiCode as int != 128
    requires 0 <= i && i + 4 <= buffer.Length
    modifies buffer
    ensures r == 3
    ensures buffer[i..i + 4] == HexCode(asciiCode)
    ensures buffer[..i] == old(buffer[..i]) && buffer[i + 4..] == old(buffer[i + 4..])
  {
    var mapTo := UPPER_HEX;
    var code := SignedChar(asciiCode);
    if code < 0 {
      code := code * -1;
    }
    assert code == Magnitude(asciiCode) < 128;
    var j := i;
    buffer[j] := '\\';
    j := j + 1;
    buffer[j] := 'x';
    j := j + 1;
    buffer[j] := mapTo[code / 16];
    j := j + 1;
    buffer[j] := mapTo[code % 16];
    assert buffer[i..i + 4] == [buffer[i], buffer[i + 1], buffer[i + 2], buffer[i + 3]];
    r := 3;
  }

  predicate IsDigitChar(c: char) {
    '0' <= c <= '9'
  }

  /** The value of a hex digit of either case, and 16 for any other character. */
  function HexDigitValue(c: char): (d: nat)
    ensures d <= 16
  {
    if '0' <= c <= '9' then c as int - '0' as int
    else if 'a' <= c <= 'f' then c as int - 'a' as int + 10
    else if 'A' <= c <= 'F' then c as int - 'A' as int + 10
    else 16
  }

  /** The value of a digit string in `base`, most significant digit first
      (meaningful when every digit is below `base`). */
  function ValueOf(s: seq<char>, base: nat): nat
  {
    if s == [] then 0 else ValueOf(s[..|s| - 1], base) * base + HexDigitValue(s[|s| - 1])
  }

  /** The first index at or after `j` that does not hold a decimal digit. */
  function DigitRunEnd(fmt: seq<char>, j: nat): (e: nat)
    requires CString(fmt) && j < |fmt|
    ensures j <= e < |fmt| && !IsDigitChar(fmt[e])
    ensures forall k :: j <= k < e ==> IsDigitChar(fmt[k])
    decreases |fmt| - j
  {
    if IsDigitChar(fmt[j]) then DigitRunEnd(fmt, j + 1) else j
  }

  /** An upper-case hex digit: what append_hexa_code's map stores. */
  predicate IsUpperHexDigit(c: char) {
    '0' <= c <= '9' || 'A' <= c <= 'F'
  }

  /** The escape stores a backslash, 'x' and two upper-case hex digits whose
      value is the absolute value of the signed byte. */
  lemma HexCodeValue(c: char)
    requires IsByte(c) && c as int != 128
    ensures |HexCode(c)| == 4 && HexCode(c)[0] == '\\' && HexCode(c)[1] == 'x'
    ensures IsUpperHexDigit(HexCode(c)[2]) && IsUpperHexDigit(HexCode(c)[3])
    ensures HexDigitValue(HexCode(c)[2]) * 16 + HexDigitValue(HexCode(c)[3]) == Magnitude(c)
  {
    var a := Magnitude(c);
    var h := HexCode(c);
    assert h[2] == UPPER_HEX[a / 16] && h[3] == UPPER_HEX[a % 16];
    UpperDigitValue(a / 16);
    UpperDigitValue(a % 16);
  }

  /** Entry `d` of the upper-case digit map is an upper-case hex digit worth `d`. */
  lemma UpperDigitValue(d: nat)
    requires d < 16
    ensures IsUpperHexDigit(UPPER_HEX[d]) && HexDigitValue(UPPER_HEX[d]) == d
  {
  }

  /** Byte 0xFF is the signed char -1 and is escaped as `\x01`. */
  lemma HexCodeOfMinusOne()
    ensures HexCode(255 as char) == "\\x01"
  {
  }

  /** The value get_width and get_precision accumulate over fmt[j..c): ten
      times the value so far plus the next character minus '0'. */
  function RunValue(fmt: seq<char>, j: nat, c: nat): int
    requires j <= c <= |fmt|
    decreases c
  {
    if c == j then 0 else RunValue(fmt, j, c - 1) * 10 + (fmt[c - 1] as int - '0' as int)
  }

  /** Over a run of digits the accumulated value is never negative and never
      shrinks, so a running value is bounded by the value of the whole run. */
  lemma {:induction false} RunValueMono(fmt: seq<char>, j: nat, c: nat, d: nat)
    requires j <= c <= d <= |fmt|
    requires forall k :: j <= k < d ==> IsDigitChar(fmt[k])
    ensures 0 <= RunValue(fmt, j, c) <= RunValue(fmt, j, d)
    decreases d
  {
    if c < d {
      RunValueMono(fmt, j, c, d - 1);
    } else if j < c {
      RunValueMono(fmt, j, j, c - 1);
    }
  }

  /** Over a run of digits the accumulated value is the run read as a decimal
      number, most significant digit first. */
  lemma {:induction false} RunValueIsValueOf(fmt: seq<char>, j: nat, c: nat)
    requires j <= c <= |fmt|
    requires forall k :: j <= k < c ==> IsDigitChar(fmt[k])
    ensures RunValue(fmt, j, c) == ValueOf(fmt[j..c], 10)
    decreases c
  {
    if j < c {
      RunValueIsValueOf(fmt, j, c - 1);
      assert fmt[j..c][..c - 1 - j] == fmt[j..c - 1];
    }
  }

  /** Any index that ends a run of digits starting at `j` is the one DigitRunEnd finds. */
  lemma DigitRunEndAt(fmt: seq<char>, j: nat, e: nat)
    requires CString(fmt) && j <= e < |fmt| && !IsDigitChar(fmt[e])
    requires forall k :: j <= k < e ==> IsDigitChar(fmt[k])
    ensures DigitRunEnd(fmt, j) == e
  {
  }

}
