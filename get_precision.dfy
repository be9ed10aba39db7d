/** get_precision_funtion.c: the precision, from '.' followed by digits or '*'. */
module PrecisionScanner {
  import opened Defs
  import opened Utils
  import opened Io

  /** What get_precision reads after index `i`: -1 ("absent") unless a '.'
      follows; after the '.', a run of digits gives its decimal value (0 for an
      empty run) and a '*' takes the next argument, an `int`, instead. None
      when the digits overflow an `int` or the argument is not an `int`. */
  function PrecisionScan(fmt: seq<char>, i: int, args: seq<Arg>, cur: nat): (r: Option<Scan>)
    requires CString(fmt) && 0 <= i && i + 1 < |fmt|
    ensures r.Some? ==> i <= r.value.last && r.value.last + 1 < |fmt|
  {
    if fmt[i + 1] != '.' then Some(Scan(-1, i, cur))
    else
      var e := DigitRunEnd(fmt, i + 2);
      var digits := RunValue(fmt, i + 2, e);
      if digits > INT_MAX then None
      else if fmt[e] == '*' then
        if cur < |args| && args[cur].Int? && INT_MIN <= args[cur].i <= INT_MAX
        then Some(Scan(args[cur].i, e, cur + 1))
        else None
      else Some(Scan(digits, e - 1, cur))
  }

  /** get_precision: `i` is the index of the last character consumed so far. */
  method GetPrecision(format: seq<char>, i: int, list: VaList) returns (precision: int, i': int)
    requires CString(format) && 0 <= i && i + 1 < |format|
    requires PrecisionScan(format, i, list.args, list.next).Some?
    modifies list
    ensures PrecisionScan(format, i, list.args, old(list.next)) == Some(Scan(precision, i', list.next))
  {
    var currentI := i + 1;
    precision := -1;
    if format[currentI] != '.' {
      return precision, i;
    }
    precision := 0;
    ghost var e := DigitRunEnd(format, i + 2);
    currentI := currentI + 1;
    while format[currentI] != '\0'
      invariant i + 2 <= currentI <= e
      invariant precision == RunValue(format, i + 2, currentI) <= INT_MAX
      invariant list.next == old(list.next)
      decreases |format| - currentI
    {
      if IsDigit(format[currentI]) == 1 {
        RunValueMono(format, i + 2, currentI + 1, e);
        precision := precision * 10;
        precision := precision + (format[currentI] as int - '0' as int);
      } else if format[currentI] == '*' {
        assert currentI == e;
        currentI := currentI + 1;
        var a := list.Next();
        precision := a.i;
        break;
      } else {
        assert currentI == e;
        break;
      }
      currentI := currentI + 1;
    }
    i' := currentI - 1;
  }

  /** Without a '.' after `i`: precision -1, nothing consumed. */
  lemma PrecisionAbsent(fmt: seq<char>, i: int, args: seq<Arg>, cur: nat)
    requires CString(fmt) && 0 <= i && i + 1 < |fmt| && fmt[i + 1] != '.'
    ensures PrecisionScan(fmt, i, args, cur) == Some(Scan(-1, i, cur))
  {
  }

  /** A '.' followed by neither a digit nor '*' gives precision 0, which is
      not "absent"; the '.' is the last character consumed. */
  lemma PrecisionDotOnly(fmt: seq<char>, i: int, args: seq<Arg>, cur: nat)
    requires CString(fmt) && 0 <= i && i + 1 < |fmt| && fmt[i + 1] == '.'
    requires !IsDigitChar(fmt[i + 2]) && fmt[i + 2] != '*'
    ensures PrecisionScan(fmt, i, args, cur) == Some(Scan(0, i + 1, cur))
  {
    assert fmt[i + 2..i + 2] == [];
  }

  /** ".*" takes exactly one `int` argument as the precision and consumes the '*'. */
  lemma PrecisionStar(fmt: seq<char>, i: int, args: seq<Arg>, cur: nat)
    requires CString(fmt) && 0 <= i && i + 2 < |fmt| && fmt[i + 1] == '.' && fmt[i + 2] == '*'
    requires cur < |args| && args[cur].Int? && INT_MIN <= args[cur].i <= INT_MAX
    ensures PrecisionScan(fmt, i, args, cur) == Some(Scan(args[cur].i, i + 2, cur + 1))
  {
    assert fmt[i + 2..i + 2] == [];
  }

  /** A '.' and a digit run not followed by '*' give the run's decimal value,
      and the last digit is the last character consumed. */
  lemma PrecisionDigits(fmt: seq<char>, i: int, args: seq<Arg>, cur: nat, e: int)
    requires CString(fmt) && 0 <= i && i + 1 < |fmt| && fmt[i + 1] == '.'
    requires i + 2 <= e < |fmt| && !IsDigitChar(fmt[e]) && fmt[e] != '*'
    requires forall k :: i + 2 <= k < e ==> IsDigitChar(fmt[k])
    requires RunValue(fmt, i + 2, e) <= INT_MAX
    ensures PrecisionScan(fmt, i, args, cur) == Some(Scan(RunValue(fmt, i + 2, e), e - 1, cur))
  {
    DigitRunEndAt(fmt, i + 2, e);
  }
}
