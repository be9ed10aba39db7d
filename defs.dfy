/** The roles of the constants and types that the engine's header declares.
    The header itself is not part of this model: only the abstract roles of its
    flag bits, size codes and buffer capacity matter, so they are fixed here. */
module Defs {

  /** Capacity of the scratch buffer shared by the template driver and the converters. */
  const BUFF_SIZE: int := 1024

  /** Flag bits, one distinct bit each. */
  const F_MINUS: bv8 := 1
  const F_PLUS: bv8 := 2
  const F_ZERO: bv8 := 4
  const F_HASH: bv8 := 8
  const F_SPACE: bv8 := 16

  /** Length-modifier codes, distinct and non-zero (0 means "no modifier"). */
  const S_LONG: int := 2
  const S_SHORT: int := 1

  /** Ranges of the C integer types on an LP64 target. */
  const INT_MIN: int := -0x8000_0000
  const INT_MAX: int := 0x7FFF_FFFF
  const LONG_MIN: int := -0x8000_0000_0000_0000
  const LONG_MAX: int := 0x7FFF_FFFF_FFFF_FFFF
  const UINT_LIMIT: int := 0x1_0000_0000
  const ULONG_LIMIT: int := 0x1_0000_0000_0000_0000

  /** A conservative bound on the width and precision of the numeric and
      pointer converters, which stage their padded field in the scratch buffer:
      up to it every such field stays inside the buffer, and far enough above
      it the field overruns the buffer. */
  const MAX_FIELD: int := 500

  /** The digit tables the converters index with a digit's value. */
  const LOWER_HEX: seq<char> := "0123456789abcdef"
  const UPPER_HEX: seq<char> := "0123456789ABCDEF"

  predicate HasFlag(flags: bv8, f: bv8) {
    flags & f != 0
  }

  datatype Option<T> = None | Some(value: T)

  /** One variadic argument, tagged by the C type the caller passed: a signed
      integer (`int` or `long`, also what %c reads), an unsigned one, a string
      (Str(None) is a null `char *`) or a pointer (Ptr(0) is NULL). */
  datatype Arg =
    | Int(i: int)
    | UInt(u: int)
    | Str(s: Option<seq<char>>)
    | Ptr(addr: int)

  /** The argument at `cur` has the type the converter reads with va_arg:
      reading any other type is undefined behaviour in C, so the model
      demands the right one. */
  predicate ULongAt(args: seq<Arg>, cur: nat) {
    cur < |args| && args[cur].UInt? && 0 <= args[cur].u < ULONG_LIMIT
  }

  predicate UIntAt(args: seq<Arg>, cur: nat) {
    cur < |args| && args[cur].UInt? && 0 <= args[cur].u < UINT_LIMIT
  }

  predicate IntAt(args: seq<Arg>, cur: nat) {
    cur < |args| && args[cur].Int? && INT_MIN <= args[cur].i <= INT_MAX
  }

  predicate LongAt(args: seq<Arg>, cur: nat) {
    cur < |args| && args[cur].Int? && LONG_MIN <= args[cur].i <= LONG_MAX
  }

  predicate StrAt(args: seq<Arg>, cur: nat) {
    cur < |args| && args[cur].Str? && (args[cur].s.Some? ==> CString(args[cur].s.value))
  }

  predicate PtrAt(args: seq<Arg>, cur: nat) {
    cur < |args| && args[cur].Ptr? && 0 <= args[cur].addr < ULONG_LIMIT
  }

  predicate IsByte(c: char) {
    c as int < 256
  }

  /** A C string: bytes up to and including exactly one terminating NUL, at the end. */
  predicate CString(s: seq<char>) {
    |s| > 0 && s[|s| - 1] == '\0' &&
    forall k :: 0 <= k < |s| - 1 ==> s[k] != '\0' && IsByte(s[k])
  }

  /** The characters of a C string before its terminator. */
  function Body(s: seq<char>): (b: seq<char>)
    requires CString(s)
    ensures |b| == |s| - 1 && '\0' !in b
  {
    s[..|s| - 1]
  }

  /** The value of a byte read as a C `char`, which is signed on the target. */
  function SignedChar(c: char): (v: int)
    requires IsByte(c)
    ensures -128 <= v < 128
    ensures v == c as int || v == c as int - 256
  {
    if c as int < 128 then c as int else c as int - 256
  }

  /** `n` copies of `c`; empty when `n` is not positive. */
  function Rep(c: char, n: int): (r: seq<char>)
    ensures |r| == (if n > 0 then n else 0)
    ensures forall k :: 0 <= k < |r| ==> r[k] == c
  {
    seq(if n > 0 then n else 0, _ => c)
  }

  /** The bytes a call appends to the output, and the value it returns. */
  datatype Printed = Printed(out: seq<char>, ret: int)

  /** Result of scanning one part of a directive: the value read, the index of
      the last template character consumed, and the argument cursor after it. */
  datatype Scan = Scan(value: int, last: int, cur: nat)

  /** Storing one cell just before a run extends the run by that cell. */
  lemma PrependCell(before: seq<char>, after: seq<char>, i: int, hi: int, c: char)
    requires 0 <= i < hi <= |before| && after == before[i := c]
    ensures after[i..hi] == [c] + before[i + 1..hi]
    ensures after[..i] == before[..i]
  {
  }
}
