/** get_width_funtion.c: the minimum field width, from a digit run or '*'. */
module WidthScanner {
  import opened Defs
  import opened Utils
  import opened Io

  /** What get_width reads after index `i`: a run of digits gives its decimal
      value; a '*' (after the digits, if any) takes the next argument, an `int`,
      instead. None when the digits overflow an `int` or the argument is not an
      `int`, both undefined behaviour in C. */
  function WidthScan(fmt: seq<char>, i: int, args: seq<Arg>, cur: nat): (r: Option<Scan>)
    requires CString(fmt) && 0 <= i && i + 1 < |fmt|
    ensures r.Some? ==> i <= r.value.last && r.value.last + 1 < |fmt|
  {
    var e := DigitRunEnd(fmt, i + 1);
    var digits := RunValue(fmt, i + 1, e);
    if digits > INT_MAX then None
    else if fmt[e] == '*' then
      if cur < |args| && args[cur].Int? && INT_MIN <= args[cur].i <= INT_MAX
      then Some(Scan(args[cur].i, e, cur + 1))
      else None
    else Some(Scan(digits, e - 1, cur))
  }

  /** get_width: `i` is the index of the last character consumed so far. */
  method GetWidth(format: seq<char>, i: int, list: VaList) returns (width: int, i': int)
    requires CString(format) && 0 <= i && i + 1 < |format|
    requires WidthScan(format, i, list.args, list.next).Some?
    modifies list
    ensures WidthScan(format, i, list.args, old(list.next)) == Some(Scan(width, i', list.next))
  {
    ghost var e := DigitRunEnd(format, i + 1);
    ghost var first := list.next;
    width := 0;
    var currentI := i + 1;
    while format[currentI] != '\0'
      invariant i + 1 <= currentI <= e
      invariant width == RunValue(format, i + 1, currentI) <= INT_MAX
      invariant list.next == first
      decreases |format| - currentI
    {
      if IsDigit(format[currentI]) == 1 {
        RunValueMono(format, i + 1, currentI + 1, e);
        width := width * 10;
        width := width + (format[currentI] as int - '0' as int);
      } else if format[currentI] == '*' {
        assert currentI == e;
        currentI := currentI + 1;
        var a := list.Next();
        width := a.i;
        assert WidthScan(format, i, list.args, old(list.next)) == Some(Scan(width, currentI - 1, list.next));
        break;
      } else {
        assert currentI == e;
        assert WidthScan(format, i, list.args, list.next) == Some(Scan(width, currentI - 1, list.next));
        break;
      }
      currentI := currentI + 1;
    }
    i' := currentI - 1;
  }

  /** With neither a digit nor '*' after `i`: width 0, nothing consumed. */
  lemma WidthAbsent(fmt: seq<char>, i: int, args: seq<Arg>, cur: nat)
    requires CString(fmt) && 0 <= i && i + 1 < |fmt|
    requires !IsDigitChar(fmt[i + 1]) && fmt[i + 1] != '*'
    ensures WidthScan(fmt, i, args, cur) == Some(Scan(0, i, cur))
  {
  }

  /** A '*' after a (possibly empty) digit run takes exactly one `int`
      argument as the width, replacing the digits' value, and consumes the '*'. */
  lemma WidthStar(fmt: seq<char>, i: int, args: seq<Arg>, cur: nat, e: int)
    requires CString(fmt) && 0 <= i && i + 1 < |fmt|
    requires i + 1 <= e < |fmt| && fmt[e] == '*'
    requires forall k :: i + 1 <= k < e ==> IsDigitChar(fmt[k])
    requires RunValue(fmt, i + 1, e) <= INT_MAX
    requires cur < |args| && args[cur].Int? && INT_MIN <= args[cur].i <= INT_MAX
    ensures WidthScan(fmt, i, args, cur) == Some(Scan(args[cur].i, e, cur + 1))
  {
    DigitRunEndAt(fmt, i + 1, e);
  }

  /** A digit run not followed by '*' gives its decimal value, and the last
      digit is the last character consumed. */
  lemma WidthDigits(fmt: seq<char>, i: int, args: seq<Arg>, cur: nat, e: int)
    requires CString(fmt) && 0 <= i && i + 1 < |fmt|
    requires i + 1 <= e < |fmt| && !IsDigitChar(fmt[e]) && fmt[e] != '*'
    requires forall k :: i + 1 <= k < e ==> IsDigitChar(fmt[k])
    requires RunValue(fmt, i + 1, e) <= INT_MAX
    ensures WidthScan(fmt, i, args, cur) == Some(Scan(RunValue(fmt, i + 1, e), e - 1, cur))
  {
    DigitRunEndAt(fmt, i + 1, e);
  }
}
