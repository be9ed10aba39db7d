/** get_size_funtion.c: the optional 'l' or 'h' length modifier. */
module SizeScanner {
  import opened Defs

  /** What get_size reads after index `i`: the size code and the index of the
      last character consumed. At most one modifier character is consumed. */
  function SizeScan(fmt: seq<char>, i: int): (r: (int, int))
    requires CString(fmt) && 0 <= i && i + 1 < |fmt|
    ensures fmt[i + 1] == 'l' ==> r == (S_LONG, i + 1)
    ensures fmt[i + 1] == 'h' ==> r == (S_SHORT, i + 1)
    ensures fmt[i + 1] != 'l' && fmt[i + 1] != 'h' ==> r == (0, i)
    ensures r.1 + 1 < |fmt|
  {
    if fmt[i + 1] == 'l' then (S_LONG, i + 1)
    else if fmt[i + 1] == 'h' then (S_SHORT, i + 1)
    else (0, i)
  }

  /** get_size: `i` is the index of the last character consumed so far. */
  method GetSize(format: seq<char>, i: int) returns (size: int, i': int)
    requires CString(format) && 0 <= i && i + 1 < |format|
    ensures (size, i') == SizeScan(format, i)
  {
    var currentI := i + 1;
    size := 0;
    if format[currentI] == 'l' {
      size := S_LONG;
    } else if format[currentI] == 'h' {
      size := S_SHORT;
    }
    if size == 0 {
      i' := currentI - 1;
    } else {
      i' := currentI;
    }
  }

  /** In "ll" only the first 'l' is a modifier: the second is left in place,
      where the dispatcher will take it as the conversion character. */
  lemma SizeConsumesOne(fmt: seq<char>, i: int)
    requires CString(fmt) && 0 <= i && i + 2 < |fmt| && fmt[i + 1] == 'l' && fmt[i + 2] == 'l'
    ensures SizeScan(fmt, i).1 + 1 == i + 2 && fmt[SizeScan(fmt, i).1 + 1] == 'l'
  {
  }
}
