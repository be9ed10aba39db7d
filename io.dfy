/** The process boundary: the output stream written by write(2) and the
    variadic argument list read by va_arg. */
module Io {
  import opened Defs

  /** Standard output. `write(1, p, n)` appends p[0..n) and returns n; partial
      writes and write errors are not modelled. */
  class Sink {
    var text: seq<char>

    constructor ()
      ensures text == []
    {
      text := [];
    }

    /** write(1, &p[from], n) for a staging buffer `p`. */
    method Write(p: array<char>, from: int, n: int) returns (r: int)
      requires 0 <= from && 0 <= n && from + n <= p.Length
      modifies this
      ensures text == old(text) + p[from..from + n]
      ensures r == n
    {
      text := text + p[from..from + n];
      r := n;
    }

    /** write(1, s, n) for a constant string or a single character. */
    method WriteText(s: seq<char>, n: int) returns (r: int)
      requires 0 <= n <= |s|
      modifies this
      ensures text == old(text) + s[..n]
      ensures r == n
    {
      text := text + s[..n];
      r := n;
    }
  }

  /** A va_list: the caller's arguments and a cursor that only advances. */
  class VaList {
    const args: seq<Arg>
    var next: nat

    constructor (args: seq<Arg>)
      ensures this.args == args && next == 0
    {
      this.args := args;
      next := 0;
    }

    /** va_arg: the argument under the cursor; the cursor moves past it. */
    method Next() returns (a: Arg)
      requires next < |args|
      modifies this
      ensures a == args[old(next)]
      ensures next == old(next) + 1
    {
      a := args[next];
      next := next + 1;
    }
  }
}
