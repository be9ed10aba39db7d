/** get_flags_funtion.c: the run of flag characters after a '%'. */
module FlagScanner {
  import opened Defs

  /** The flag characters and their bits, each table closed by a sentinel. */
  const FLAG_CHAR: seq<char> := ['-', '+', '0', '#', ' ', '\0']
  const FLAG_ARRAY: seq<bv8> := [F_MINUS, F_PLUS, F_ZERO, F_HASH, F_SPACE, 0]

  predicate IsFlagChar(c: char) {
    c == '-' || c == '+' || c == '0' || c == '#' || c == ' '
  }

  /** The bit a flag character sets, 0 for any other character. */
  function FlagBit(c: char): bv8 {
    if c == '-' then F_MINUS
    else if c == '+' then F_PLUS
    else if c == '0' then F_ZERO
    else if c == '#' then F_HASH
    else if c == ' ' then F_SPACE
    else 0
  }

  /** The bitwise OR of the bits of every character of `s`. */
  function FlagsOf(s: seq<char>): bv8 {
    if s == [] then 0 else FlagsOf(s[..|s| - 1]) | FlagBit(s[|s| - 1])
  }

  /** The first index at or after `j` that does not hold a flag character; the
      terminator is not a flag character, so the run never passes it. */
  function FlagRunEnd(fmt: seq<char>, j: nat): (e: nat)
    requires CString(fmt) && j < |fmt|
    ensures j <= e < |fmt| && !IsFlagChar(fmt[e])
    ensures forall k :: j <= k < e ==> IsFlagChar(fmt[k])
    decreases |fmt| - j
  {
    if IsFlagChar(fmt[j]) then FlagRunEnd(fmt, j + 1) else j
  }

  /** get_flags: `i` is the index of the '%'. Returns the OR of the flag bits
      of the maximal flag run starting at i+1, and the index of its last
      character (i itself when there is no flag). */
  method GetFlags(format: seq<char>, i: int) returns (flags: bv8, i': int)
    requires CString(format) && 0 <= i && i + 1 < |format|
    ensures i <= i' && i' + 1 == FlagRunEnd(format, i + 1)
    ensures flags == FlagsOf(format[i + 1..i' + 1])
  {
    flags := 0;
    var currentI := i + 1;
    while format[currentI] != '\0'
      invariant i + 1 <= currentI < |format|
      invariant forall k :: i + 1 <= k < currentI ==> IsFlagChar(format[k])
      invariant flags == FlagsOf(format[i + 1..currentI])
      decreases |format| - currentI
    {
      var c := format[currentI];
      var j := FlagIndex(c);
      if FLAG_CHAR[j] == '\0' {
        break;
      }
      AddFlag(format, i + 1, currentI, flags, j);
      flags := flags | FLAG_ARRAY[j];
      currentI := currentI + 1;
    }
    FlagRunEndUnique(format, i + 1, currentI);
    i' := currentI - 1;
  }

  /** The inner loop of get_flags: the index of the table entry equal to `c`,
      or of the sentinel when there is none. */
  method FlagIndex(c: char) returns (j: int)
    ensures 0 <= j <= 5
    ensures j < 5 ==> FLAG_CHAR[j] == c
    ensures j == 5 <==> !IsFlagChar(c)
  {
    j := 0;
    while FLAG_CHAR[j] != '\0'
      invariant 0 <= j <= 5
      invariant forall m :: 0 <= m < j ==> FLAG_CHAR[m] != c
      decreases 5 - j
    {
      if c == FLAG_CHAR[j] {
        break;
      }
      j := j + 1;
    }
    if FLAG_CHAR[j] == '\0' {
      NotInTable(c, j);
    } else {
      InTable(c, j);
    }
  }

  /** Any index that ends a run of flag characters starting at `j` is the one
      FlagRunEnd finds. */
  lemma FlagRunEndUnique(fmt: seq<char>, j: nat, e: nat)
    requires CString(fmt) && j <= e < |fmt| && !IsFlagChar(fmt[e])
    requires forall k :: j <= k < e ==> IsFlagChar(fmt[k])
    ensures FlagRunEnd(fmt, j) == e
  {
  }

  /** OR-ing in the bit of the table entry that matched fmt[k] extends the
      mask of fmt[j..k) to the mask of fmt[j..k]. */
  lemma AddFlag(fmt: seq<char>, j: nat, k: nat, flags: bv8, t: int)
    requires j <= k < |fmt| && flags == FlagsOf(fmt[j..k])
    requires 0 <= t < 6 && FLAG_CHAR[t] != '\0' && fmt[k] == FLAG_CHAR[t]
    ensures IsFlagChar(fmt[k]) && flags | FLAG_ARRAY[t] == FlagsOf(fmt[j..k + 1])
  {
    InTable(fmt[k], t);
    var s := fmt[j..k + 1];
    assert s[..|s| - 1] == fmt[j..k] && s[|s| - 1] == fmt[k];
  }

  /** A table entry before the sentinel is a flag character with its bit. */
  lemma InTable(c: char, j: int)
    requires 0 <= j < 6 && FLAG_CHAR[j] != '\0' && c == FLAG_CHAR[j]
    ensures IsFlagChar(c) && FLAG_ARRAY[j] == FlagBit(c)
  {
  }

  /** A character that matches no table entry is not a flag character. */
  lemma NotInTable(c: char, j: int)
    requires 0 <= j < 6 && FLAG_CHAR[j] == '\0'
    requires forall m :: 0 <= m < j ==> FLAG_CHAR[m] != c
    ensures !IsFlagChar(c)
  {
    assert j == 5;
    assert FLAG_CHAR[0] != c && FLAG_CHAR[1] != c && FLAG_CHAR[2] != c && FLAG_CHAR[3] != c && FLAG_CHAR[4] != c;
  }

  /** Exactly the bits of the flag characters present are set, and no bit
      outside the five flag bits; so order and repetition do not matter. */
  lemma {:induction false} FlagsOfBits(s: seq<char>)
    ensures FlagsOf(s) & !0x1F == 0
    ensures HasFlag(FlagsOf(s), F_MINUS) <==> '-' in s
    ensures HasFlag(FlagsOf(s), F_PLUS) <==> '+' in s
    ensures HasFlag(FlagsOf(s), F_ZERO) <==> '0' in s
    ensures HasFlag(FlagsOf(s), F_HASH) <==> '#' in s
    ensures HasFlag(FlagsOf(s), F_SPACE) <==> ' ' in s
  {
    if s != [] {
      var p := s[..|s| - 1];
      FlagsOfBits(p);
      assert s == p + [s[|s| - 1]];
      forall c | c in s ensures c in p || c == s[|s| - 1] {
      }
    }
  }

  /** Two runs with the same flag characters, in any order and with any
      repetition, give the same bitmask. */
  lemma FlagsOfSameChars(s: seq<char>, t: seq<char>)
    requires forall c :: IsFlagChar(c) ==> (c in s <==> c in t)
    ensures FlagsOf(s) == FlagsOf(t)
  {
    FlagsOfBits(s);
    FlagsOfBits(t);
    assert IsFlagChar('-') && IsFlagChar('+') && IsFlagChar('0') && IsFlagChar('#') && IsFlagChar(' ');
    var x, y := FlagsOf(s), FlagsOf(t);
    assert x & 1 == y & 1 && x & 2 == y & 2 && x & 4 == y & 4 && x & 8 == y & 8 && x & 16 == y & 16;
  }
}
