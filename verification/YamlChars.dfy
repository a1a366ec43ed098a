/** Character classes of libyaml (yaml_private.h), on Unicode code points. */
module YamlChars {

  const TAB := 0x09
  const LF := 0x0A
  const CR := 0x0D
  const SPACE := 0x20
  const DOUBLE_QUOTE := 0x22
  const SINGLE_QUOTE := 0x27
  const BACKSLASH := 0x5C
  const NEL := 0x85
  const LS := 0x2028
  const PS := 0x2029

  predicate IsScalarValue(c: int)
  {
    0 <= c <= 0x10FFFF && !(0xD800 <= c <= 0xDFFF)
  }

  predicate IsBlank(c: int)
  {
    c == SPACE || c == TAB
  }

  predicate IsBreak(c: int)
  {
    c == CR || c == LF || c == NEL || c == LS || c == PS
  }

  predicate IsBlankZ(c: int)
  {
    IsBlank(c) || IsBreak(c) || c == 0
  }

  /** What the emitter writes unescaped; characters beyond the basic plane are not among them. */
  predicate IsPrintable(c: int)
  {
    || c == LF
    || 0x20 <= c <= 0x7E
    || 0xA0 <= c <= 0xD7FF
    || (0xE000 <= c <= 0xFFFD && c != 0xFEFF)
  }

  predicate IsAscii(c: int)
  {
    c <= 0x7F
  }
}

/** Scanning a quoted scalar (yaml_parser_scan_flow_scalar). */
module YamlScanQuoted {
  import opened YamlChars

  datatype Scan = Bad | Scanned(value: seq<int>, next: nat)

  /** The character at an index; the reader puts NUL after the last one. */
  function At(inp: seq<int>, i: nat): int
  {
    if i < |inp| then inp[i] else 0
  }

  /** A document indicator, `---` or `...`, that only counts at column zero. */
  predicate DocumentIndicator(inp: seq<int>, i: nat)
  {
    && ((At(inp, i) == 0x2D && At(inp, i + 1) == 0x2D && At(inp, i + 2) == 0x2D)
        || (At(inp, i) == 0x2E && At(inp, i + 1) == 0x2E && At(inp, i + 2) == 0x2E))
    && IsBlankZ(At(inp, i + 3))
  }

  /** The index after the line break at `i`; CR LF is one break. */
  function AfterBreak(inp: seq<int>, i: nat): nat
  {
    if At(inp, i) == CR && At(inp, i + 1) == LF then i + 2 else i + 1
  }

  /** How a line break reads: all but LS and PS become LF. */
  function Line(c: int): int
  {
    if c == LS || c == PS then c else LF
  }

  predicate IsHex(c: int)
  {
    0x30 <= c <= 0x39 || 0x41 <= c <= 0x46 || 0x61 <= c <= 0x66
  }

  function AsHex(c: int): int
  {
    if 0x41 <= c <= 0x46 then c - 0x41 + 10 else if 0x61 <= c <= 0x66 then c - 0x61 + 10 else c - 0x30
  }

  /** The value of `n` hexadecimal digits read after `value`, or -1. */
  function HexValue(inp: seq<int>, i: nat, n: nat, value: nat): int
    decreases n
  {
    if n == 0 then value
    else if !IsHex(At(inp, i)) then -1
    else HexValue(inp, i + 1, n - 1, value * 16 + AsHex(At(inp, i)))
  }

  /** The character an escape letter stands for, or -1. */
  function SimpleEscape(e: int): int
  {
    if e == 0x30 then 0                              // 0
    else if e == 0x61 then 7                         // a
    else if e == 0x62 then 8                         // b
    else if e == 0x74 || e == TAB then 9             // t
    else if e == 0x6E then 10                        // n
    else if e == 0x76 then 11                        // v
    else if e == 0x66 then 12                        // f
    else if e == 0x72 then 13                        // r
    else if e == 0x65 then 0x1B                      // e
    else if e == SPACE || e == DOUBLE_QUOTE || e == 0x2F || e == BACKSLASH then e
    else if e == 0x4E then NEL                       // N
    else if e == 0x5F then 0xA0                      // _
    else if e == 0x4C then LS                        // L
    else if e == 0x50 then PS                        // P
    else -1
  }

  function EscapeLength(e: int): nat
  {
    if e == 0x78 then 2 else if e == 0x75 then 4 else if e == 0x55 then 8 else 0
  }

  /** The character written by the escape sequence at `i`, or -1, and the length of the sequence. */
  function Unescape(inp: seq<int>, i: nat): (int, nat)
  {
    var e := At(inp, i + 1);
    var n := EscapeLength(e);
    if n == 0 then (SimpleEscape(e), 2)
    else
      var value := HexValue(inp, i + 2, n, 0);
      (if IsScalarValue(value) then value else -1, 2 + n)
  }

  function Quote(single: bool): int
  {
    if single then SINGLE_QUOTE else DOUBLE_QUOTE
  }

  /** What a run of blanks and line breaks contributes. */
  function Joined(ws: seq<int>, lb: seq<int>, tb: seq<int>, leading: bool): seq<int>
  {
    if !leading then ws
    else if lb != [] && lb[0] == LF then (if tb == [] then [SPACE] else tb)
    else lb + tb
  }

  /** One turn of the outer loop. */
  function ScanTop(single: bool, inp: seq<int>, i: nat, column: nat, acc: seq<int>): Scan
    requires i <= |inp|
    decreases |inp| - i, 3, 0
  {
    if column == 0 && DocumentIndicator(inp, i) then Bad
    else if At(inp, i) == 0 then Bad
    else ScanWord(single, inp, i, column, acc)
  }

  /** The loop over non-blank characters. */
  function ScanWord(single: bool, inp: seq<int>, i: nat, column: nat, acc: seq<int>): Scan
    requires i <= |inp|
    decreases |inp| - i, 2, 0
  {
    var c := At(inp, i);
    if c == 0 then Bad  // the outer loop comes round to its check for the end of the stream
    else if IsBlankZ(c) then ScanBlanks(single, inp, i, i, column, acc, [], [], [], false)
    else if single && c == SINGLE_QUOTE && At(inp, i + 1) == SINGLE_QUOTE then
      ScanWord(single, inp, i + 2, column + 2, acc + [SINGLE_QUOTE])
    else if c == Quote(single) then Scanned(acc, i + 1)
    else if !single && c == BACKSLASH && IsBreak(At(inp, i + 1)) then
      var j := AfterBreak(inp, i + 1);
      if At(inp, j) == Quote(single) then Scanned(acc, j + 1)
      else ScanBlanks(single, inp, i, j, 0, acc, [], [], [], true)
    else if !single && c == BACKSLASH then
      var (value, n) := Unescape(inp, i);
      if value < 0 || i + n > |inp| then Bad else ScanWord(single, inp, i + n, column + n, acc + [value])
    else ScanWord(single, inp, i + 1, column + 1, acc + [c])
  }

  /** The loop over blanks and line breaks that follows the word begun at `from`. */
  function ScanBlanks(single: bool, inp: seq<int>, from: nat, i: nat, column: nat, acc: seq<int>,
                      ws: seq<int>, lb: seq<int>, tb: seq<int>, leading: bool): Scan
    requires from <= i <= |inp|
    requires from < i || IsBlank(At(inp, i)) || IsBreak(At(inp, i))
    decreases |inp| - from, 1, |inp| - i
  {
    var c := At(inp, i);
    if IsBlank(c) then
      ScanBlanks(single, inp, from, i + 1, column + 1, acc, if leading then ws else ws + [c], lb, tb, leading)
    else if IsBreak(c) then
      var j := AfterBreak(inp, i);
      if !leading then ScanBlanks(single, inp, from, j, 0, acc, [], lb + [Line(c)], tb, true)
      else ScanBlanks(single, inp, from, j, 0, acc, ws, lb, tb + [Line(c)], true)
    else ScanTop(single, inp, i, column, acc + Joined(ws, lb, tb, leading))
  }

  /** Scans the quoted scalar whose opening quote is at index 0, in the given column. */
  function ScanQuoted(single: bool, inp: seq<int>, column: nat): Scan
    requires inp != []
  {
    ScanTop(single, inp, 1, column + 1, [])
  }
}
