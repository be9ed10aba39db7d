/** The digit runs the numeric converters of function_0.c, function_1.c and
    function_2.c store right to left into the tail of the scratch buffer. */
module DigitRuns {
  import opened Defs
  import opened Utils

  /** The character of digit `d`: '0'..'9', then 'a'..'f' or 'A'..'F'. It is
      `d + '0'` for the octal and decimal converters and `map_to[d]` for the
      hexadecimal ones (see HexMaps). */
  function DigitChar(d: nat, upper: bool): (c: char)
    requires d < 16
  {
    if d < 10 then ('0' as int + d) as char
    else if upper then ('A' as int + d - 10) as char
    else ('a' as int + d - 10) as char
  }

  /** A digit character reads back as its digit, is a byte and is not NUL;
      it is a decimal digit exactly when the digit is below ten. */
  lemma DigitCharValue(d: nat, upper: bool)
    requires d < 16
    ensures HexDigitValue(DigitChar(d, upper)) == d
    ensures IsByte(DigitChar(d, upper)) && DigitChar(d, upper) != '\0'
    ensures d < 10 <==> IsDigitChar(DigitChar(d, upper))
  {
  }

  /** The digits of `n` in `base`, most significant first, as the
      `while (num > 0)` loops produce them; empty for 0. */
  function Digits(n: nat, base: nat, upper: bool): seq<char>
    requires 2 <= base <= 16
    decreases n
  {
    if n == 0 then [] else Digits(n / base, base, upper) + [DigitChar(n % base, upper)]
  }

  /** What a converter leaves in the buffer for `n`: "0" for zero (stored
      before the loop), the digits otherwise. */
  function Rendered(n: nat, base: nat, upper: bool): seq<char>
    requires 2 <= base <= 16
  {
    if n == 0 then "0" else Digits(n, base, upper)
  }

  function Pow2(k: nat): (p: nat)
    ensures p >= 1
  {
    if k == 0 then 1 else 2 * Pow2(k - 1)
  }

  /** The `map_to` tables of print_hexadecimal, print_hexa_upper and
      print_pointer hold, at each index, the digit character of that index. */
  lemma HexMaps(d: nat)
    requires d < 16
    ensures LOWER_HEX[d] == DigitChar(d, false) && UPPER_HEX[d] == DigitChar(d, true)
  {
  }

  /** Division by the base, as the loops use it. */
  lemma DivMod(n: nat, base: nat)
    requires 2 <= base
    ensures n == (n / base) * base + n % base && 0 <= n % base < base
    ensures n < base ==> n / base == 0 && n % base == n
    ensures n >= base ==> 1 <= n / base < n
  {
  }

  /** Dividing by a base of at least two at least halves a number. */
  lemma DivideBelow(n: nat, base: nat, p: nat)
    requires 2 <= base && n < 2 * p
    ensures n / base < p
  {
    DivMod(n, base);
    var q := n / base;
    if q >= p {
      MulGrows(q, p, base);
      assert false;
    }
  }

  lemma MulGrows(q: nat, p: nat, base: nat)
    requires q >= p && base >= 2
    ensures q * base >= 2 * p
  {
    assert q * base == p * base + (q - p) * base;
    assert p * base == 2 * p + p * (base - 2);
  }

  /** Reading the digits back in the same base gives the number (round trip). */
  lemma {:induction false} DigitsValue(n: nat, base: nat, upper: bool)
    requires 2 <= base <= 16
    ensures ValueOf(Digits(n, base, upper), base) == n
    decreases n
  {
    if n > 0 {
      var q, r := n / base, n % base;
      DivMod(n, base);
      DigitsValue(q, base, upper);
      DigitCharValue(r, upper);
      var s := Digits(n, base, upper);
      assert s == Digits(q, base, upper) + [DigitChar(r, upper)];
      assert s[..|s| - 1] == Digits(q, base, upper) && s[|s| - 1] == DigitChar(r, upper);
      assert ValueOf(s, base) == q * base + r;
    }
  }

  /** The rendered run reads back as the number, has no leading zero unless it
      is the single "0", and uses only digits below the base. */
  lemma RenderedValue(n: nat, base: nat, upper: bool)
    requires 2 <= base <= 16
    ensures ValueOf(Rendered(n, base, upper), base) == n
    ensures |Rendered(n, base, upper)| >= 1
    ensures Rendered(n, base, upper)[0] == '0' <==> n == 0
  {
    DigitsValue(n, base, upper);
    if n > 0 {
      DigitsLeading(n, base, upper);
    }
  }

  /** The first digit of a positive number is not zero. */
  lemma {:induction false} DigitsLeading(n: nat, base: nat, upper: bool)
    requires 2 <= base <= 16 && n > 0
    ensures |Digits(n, base, upper)| >= 1 && Digits(n, base, upper)[0] != '0'
    decreases n
  {
    var q, r := n / base, n % base;
    DivMod(n, base);
    var s := Digits(n, base, upper);
    assert s == Digits(q, base, upper) + [DigitChar(r, upper)];
    if q > 0 {
      DigitsLeading(q, base, upper);
      assert s[0] == Digits(q, base, upper)[0];
    } else {
      assert Digits(q, base, upper) == [];
      assert r == n;
      DigitCharValue(r, upper);
    }
  }

  /** Every digit is a digit of the base: the run contains no NUL and stays a byte string. */
  lemma {:induction false} DigitsChars(n: nat, base: nat, upper: bool)
    requires 2 <= base <= 16
    ensures forall k :: 0 <= k < |Digits(n, base, upper)| ==>
              HexDigitValue(Digits(n, base, upper)[k]) < base && Digits(n, base, upper)[k] != '\0'
    decreases n
  {
    if n > 0 {
      DivMod(n, base);
      DigitsChars(n / base, base, upper);
      DigitCharValue(n % base, upper);
    }
  }

  /** A number below 2^k has at most k digits in any base of at least two; so
      an `unsigned long` never needs more than 64 cells of the buffer. */
  lemma {:induction false} DigitsLength(n: nat, base: nat, upper: bool, k: nat)
    requires 2 <= base <= 16 && n < Pow2(k)
    ensures |Digits(n, base, upper)| <= k
    decreases k
  {
    if n > 0 {
      assert k > 0;
      DivideBelow(n, base, Pow2(k - 1));
      DigitsLength(n / base, base, upper, k - 1);
    }
  }

  /** 2^64 is the first `unsigned long` that does not exist. */
  lemma Pow2Of64()
    ensures Pow2(64) == ULONG_LIMIT
  {
    assert Pow2(1) == 2 && Pow2(2) == 4 && Pow2(3) == 8 && Pow2(4) == 16;
    Pow2Add(4, 4);
    assert Pow2(8) == 0x100;
    Pow2Add(8, 8);
    assert Pow2(16) == 0x1_0000;
    Pow2Add(16, 16);
    assert Pow2(32) == 0x1_0000_0000;
    Pow2Add(32, 32);
  }

  /** An `unsigned long` has at most 64 digits in any base of at least two. */
  lemma DigitsOfULong(n: nat, base: nat, upper: bool)
    requires 2 <= base <= 16 && n < ULONG_LIMIT
    ensures |Digits(n, base, upper)| <= 64
  {
    Pow2Of64();
    DigitsLength(n, base, upper, 64);
  }

  lemma {:induction false} Pow2Add(a: nat, b: nat)
    ensures Pow2(a + b) == Pow2(a) * Pow2(b)
    decreases a
  {
    if a > 0 {
      Pow2Add(a - 1, b);
    }
  }

  /** The `while (num > 0)` loop: stores the digits of `num` right to left,
      ending at `i`, and returns the index just before the first one. Cells
      outside the run are left as they were. */
  method StoreDigits(buffer: array<char>, num: nat, base: nat, upper: bool, i: int) returns (j: int)
    requires 2 <= base <= 16 && num < ULONG_LIMIT
    requires 64 <= i < buffer.Length
    modifies buffer
    ensures j == i - |Digits(num, base, upper)| && i - 64 <= j
    ensures buffer[j + 1..i + 1] == Digits(num, base, upper)
    ensures forall k :: 0 <= k < buffer.Length && !(j < k <= i) ==> buffer[k] == old(buffer[k])
  {
    DigitsOfULong(num, base, upper);
    j := i;
    var n: nat := num;
    ghost var tail: seq<char> := [];
    while n > 0
      invariant i - 64 <= j <= i
      invariant Digits(num, base, upper) == Digits(n, base, upper) + tail
      invariant |tail| == i - j && buffer[j + 1..i + 1] == tail
      invariant forall k :: 0 <= k < buffer.Length && !(j < k <= i) ==> buffer[k] == old(buffer[k])
      decreases |Digits(n, base, upper)|
    {
      StepDigits(n, base, upper, tail);
      var d := DigitChar(n % base, upper);
      buffer[j] := d;
      assert buffer[j..i + 1] == [d] + tail;
      tail := [d] + tail;
      n := n / base;
      j := j - 1;
    }
  }

  /** One iteration of the digit loop: the digit stored is below the base, and
      the digits of `n` are those of n / base followed by it. */
  lemma StepDigits(n: nat, base: nat, upper: bool, tail: seq<char>)
    requires 2 <= base <= 16 && n > 0
    ensures 0 <= n % base < base && 0 <= n / base
    ensures Digits(n, base, upper) + tail == Digits(n / base, base, upper) + ([DigitChar(n % base, upper)] + tail)
    ensures |Digits(n, base, upper)| == |Digits(n / base, base, upper)| + 1
  {
  }

  /** The staging common to the numeric converters: a '0' cell for zero, the
      terminator in the last cell, then the digit loop. Returns the index
      just before the first cell of the run. */
  method StageDigits(buffer: array<char>, num: nat, base: nat, upper: bool) returns (i: int)
    requires buffer.Length == BUFF_SIZE && 2 <= base <= 16 && num < ULONG_LIMIT
    modifies buffer
    ensures BUFF_SIZE - 2 - 64 <= i < BUFF_SIZE - 2
    ensures buffer[i + 1..BUFF_SIZE - 1] == Rendered(num, base, upper)
    ensures buffer[..i + 1] == old(buffer[..i + 1])
    ensures buffer[BUFF_SIZE - 1] == '\0'
  {
    i := BUFF_SIZE - 2;
    if num == 0 {
      buffer[i] := '0';
      i := i - 1;
    }
    buffer[BUFF_SIZE - 1] := '\0';
    ghost var before := buffer[..];
    i := StoreDigits(buffer, num, base, upper, i);
    if num == 0 {
      assert buffer[i + 1..BUFF_SIZE - 1] == [before[BUFF_SIZE - 2]];
    } else {
      RenderedValue(num, base, upper);
    }
  }
}
