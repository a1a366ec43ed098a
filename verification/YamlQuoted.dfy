/** Writing quoted scalars (emitter.c) and reading them back. */
module YamlEmitQuoted {
  import opened YamlChars

  /** What stays fixed while one scalar is written. */
  datatype Style = Style(indent: nat, width: int, unicode: bool, lineBreak: seq<int>, allowBreaks: bool)

  /** The part of the emitter that the writers update. */
  datatype Pen = Pen(column: nat, whitespace: bool, indention: bool)

  predicate IsLineBreak(b: seq<int>)
  {
    b == [CR] || b == [LF] || b == [CR, LF]
  }

  function Spaces(n: nat): (r: seq<int>)
    ensures |r| == n && forall i :: 0 <= i < n ==> r[i] == SPACE
  {
    seq(n, i => SPACE)
  }

  /** Whether yaml_emitter_write_indent begins a new line. */
  predicate BreaksLine(st: Style, pen: Pen)
  {
    !pen.indention || pen.column > st.indent || (pen.column == st.indent && !pen.whitespace)
  }

  function IndentText(st: Style, pen: Pen): seq<int>
  {
    if BreaksLine(st, pen) then st.lineBreak + Spaces(st.indent)
    else Spaces(if pen.column < st.indent then st.indent - pen.column else 0)
  }

  function IndentPen(st: Style, pen: Pen): Pen
  {
    Pen(if BreaksLine(st, pen) || pen.column < st.indent then st.indent else pen.column, true, true)
  }

  // Double-quoted.

  predicate MustEscape(st: Style, c: int)
  {
    !IsPrintable(c) || (!st.unicode && !IsAscii(c)) || c == 0xFEFF || IsBreak(c) || c == DOUBLE_QUOTE || c == BACKSLASH
  }

  function HexDigit(d: int): int
  {
    if d < 10 then 0x30 + d else 0x41 - 10 + d
  }

  /** `value >> 4`, counted off in steps of 16. */
  function Upper(value: nat): (h: nat)
    ensures 16 * h <= value < 16 * h + 16
  {
    if value < 16 then 0 else 1 + Upper(value - 16)
  }

  /** `value & 0x0F`. */
  function Nibble(value: nat): (d: nat)
    ensures d < 16 && value == 16 * Upper(value) + d
  {
    value - 16 * Upper(value)
  }

  /** `value >> 4 * k`. */
  function Shifted(value: nat, k: nat): nat
  {
    if k == 0 then value else Upper(Shifted(value, k - 1))
  }

  /** The `n` lowest hexadecimal digits of `value`, most significant first. */
  function HexDigits(value: nat, n: nat): (r: seq<int>)
    ensures |r| == n
  {
    seq(n, k requires 0 <= k < n => HexDigit(Nibble(Shifted(value, n - 1 - k))))
  }

  lemma {:induction false} ShiftedLater(value: nat, k: nat)
    ensures Shifted(Upper(value), k) == Shifted(value, k + 1)
  {
    if k > 0 {
      ShiftedLater(value, k - 1);
    }
  }

  lemma LastDigit(value: nat, n: nat)
    requires n > 0
    ensures HexDigits(value, n) == HexDigits(Upper(value), n - 1) + [HexDigit(Nibble(value))]
  {
    var r := HexDigits(Upper(value), n - 1) + [HexDigit(Nibble(value))];
    forall k | 0 <= k < n ensures HexDigits(value, n)[k] == r[k] {
      if k < n - 1 {
        ShiftedLater(value, n - 2 - k);
        assert Shifted(Upper(value), n - 2 - k) == Shifted(value, n - 1 - k);
        assert r[k] == HexDigits(Upper(value), n - 1)[k] == HexDigit(Nibble(Shifted(Upper(value), n - 2 - k)));
      } else {
        assert Shifted(value, n - 1 - k) == value;
      }
    }
  }

  /** The letter of a two-character escape, or -1. */
  function ShortEscape(c: nat): int
  {
    if c == 0x00 then 0x30
    else if c == 0x07 then 0x61
    else if c == 0x08 then 0x62
    else if c == 0x09 then 0x74
    else if c == 0x0A then 0x6E
    else if c == 0x0B then 0x76
    else if c == 0x0C then 0x66
    else if c == 0x0D then 0x72
    else if c == 0x1B then 0x65
    else if c == 0x22 then DOUBLE_QUOTE
    else if c == 0x5C then BACKSLASH
    else if c == 0x85 then 0x4E
    else if c == 0xA0 then 0x5F
    else if c == 0x2028 then 0x4C
    else if c == 0x2029 then 0x50
    else -1
  }

  function EscapeWidth(c: nat): nat
  {
    if c <= 0xFF then 2 else if c <= 0xFFFF then 4 else 8
  }

  function EscapeText(c: nat): seq<int>
  {
    if ShortEscape(c) >= 0 then [BACKSLASH, ShortEscape(c)]
    else [BACKSLASH, if c <= 0xFF then 0x78 else if c <= 0xFFFF then 0x75 else 0x55] + HexDigits(c, EscapeWidth(c))
  }

  predicate FoldsDouble(st: Style, s: seq<int>, i: nat, pen: Pen, spaces: bool)
  {
    st.allowBreaks && !spaces && pen.column > st.width && i != 0 && i + 1 < |s|
  }

  /** What is written for `s[i..]` and the closing quote. */
  function DoubleText(st: Style, s: seq<nat>, i: nat, pen: Pen, spaces: bool): seq<int>
    requires i <= |s|
    decreases |s| - i
  {
    if i == |s| then [DOUBLE_QUOTE]
    else if MustEscape(st, s[i]) then
      EscapeText(s[i]) + DoubleText(st, s, i + 1, pen.(column := pen.column + |EscapeText(s[i])|), false)
    else if s[i] == SPACE && FoldsDouble(st, s, i, pen, spaces) then
      var pen' := IndentPen(st, pen);
      if s[i + 1] == SPACE then
        IndentText(st, pen) + [BACKSLASH] + DoubleText(st, s, i + 1, pen'.(column := pen'.column + 1), true)
      else
        IndentText(st, pen) + DoubleText(st, s, i + 1, pen', true)
    else
      [s[i]] + DoubleText(st, s, i + 1, pen.(column := pen.column + 1), s[i] == SPACE)
  }

  // Single-quoted.

  predicate FoldsSingle(st: Style, s: seq<int>, i: nat, pen: Pen, spaces: bool)
  {
    st.allowBreaks && !spaces && pen.column > st.width && i != 0 && i + 1 < |s| && s[i + 1] != SPACE
  }

  /** A line break of the value; the first LF of a run is doubled. */
  function BreakText(st: Style, c: int, breaks: bool): seq<int>
  {
    if c == LF then (if breaks then st.lineBreak else st.lineBreak + st.lineBreak) else [c]
  }

  /** The condition under which the analysis allows the single-quoted style. */
  ghost predicate SingleAllowed(unicode: bool, s: seq<nat>)
  {
    && (forall i :: 0 <= i < |s| ==> IsPrintable(s[i]) && (unicode || IsAscii(s[i])))
    && (forall i :: 0 <= i < |s| - 1 ==> !(IsBreak(s[i]) && s[i + 1] == SPACE) && !(s[i] == SPACE && IsBreak(s[i + 1])))
  }

  function SingleText(st: Style, s: seq<nat>, i: nat, pen: Pen, spaces: bool, breaks: bool): seq<int>
    requires i <= |s|
    decreases |s| - i
  {
    if i == |s| then (if breaks then IndentText(st, pen) else []) + [SINGLE_QUOTE]
    else if s[i] == SPACE then
      if FoldsSingle(st, s, i, pen, spaces) then
        IndentText(st, pen) + SingleText(st, s, i + 1, IndentPen(st, pen), true, breaks)
      else
        [SPACE] + SingleText(st, s, i + 1, pen.(column := pen.column + 1), true, breaks)
    else if IsBreak(s[i]) then
      BreakText(st, s[i], breaks) + SingleText(st, s, i + 1, pen.(column := 0, indention := true), spaces, true)
    else
      var pen1 := if breaks then IndentPen(st, pen) else pen;
      var quoted := if s[i] == SINGLE_QUOTE then [SINGLE_QUOTE, SINGLE_QUOTE] else [s[i]];
      (if breaks then IndentText(st, pen) else []) + quoted
        + SingleText(st, s, i + 1, pen1.(column := pen1.column + |quoted|, indention := false), false, false)
  }
}

/** Round trips of the two quoted styles. */
module YamlQuotedRoundTrip {
  import opened YamlChars
  import opened YamlScanQuoted
  import opened YamlEmitQuoted

  // Escapes.

  function Power16(n: nat): (p: nat)
    ensures p > 0
  {
    if n == 0 then 1 else 16 * Power16(n - 1)
  }

  lemma {:induction false} HexSnoc(inp: seq<int>, i: nat, n: nat, value: nat)
    requires n > 0 && HexValue(inp, i, n - 1, value) >= 0 && IsHex(At(inp, i + n - 1))
    ensures HexValue(inp, i, n, value) == HexValue(inp, i, n - 1, value) * 16 + AsHex(At(inp, i + n - 1))
    decreases n
  {
    if n > 1 {
      HexSnoc(inp, i + 1, n - 1, value * 16 + AsHex(At(inp, i)));
    }
  }

  lemma UpperPart(digits: seq<int>, upper: seq<int>, last: int)
    requires digits == upper + [last]
    ensures digits[..|upper|] == upper && digits[|upper|] == last
  {
  }

  lemma {:induction false} HexRoundTrip(inp: seq<int>, i: nat, value: nat, n: nat)
    requires i + n <= |inp| && inp[i..i + n] == HexDigits(value, n) && value < Power16(n)
    ensures HexValue(inp, i, n, 0) == value
    decreases n
  {
    if n > 0 {
      LastDigit(value, n);
      var upper, last := HexDigits(Upper(value), n - 1), HexDigit(Nibble(value));
      UpperPart(inp[i..i + n], upper, last);
      assert inp[i..i + (n - 1)] == inp[i..i + n][..n - 1];
      HexRoundTrip(inp, i, Upper(value), n - 1);
      assert At(inp, i + n - 1) == inp[i..i + n][n - 1];
      HexSnoc(inp, i, n, 0);
    }
  }

  lemma FitsWidth(c: nat)
    requires c <= 0x10FFFF
    ensures c < Power16(EscapeWidth(c))
  {
    assert Power16(2) == 0x100;
    assert Power16(3) == 16 * Power16(2);
    assert Power16(4) == 16 * Power16(3);
    assert Power16(5) == 16 * Power16(4);
    assert Power16(6) == 16 * Power16(5);
    assert Power16(7) == 16 * Power16(6);
    assert Power16(8) == 16 * Power16(7);
  }

  lemma HexEscape(inp: seq<int>, i: nat, c: nat, n: nat)
    requires n > 0 && EscapeLength(At(inp, i + 1)) == n && IsScalarValue(c)
    requires HexValue(inp, i + 2, n, 0) == c
    ensures Unescape(inp, i) == (c, 2 + n)
  {
  }

  lemma ShortEscapeRoundTrip(c: nat)
    requires ShortEscape(c) >= 0
    ensures EscapeLength(ShortEscape(c)) == 0 && SimpleEscape(ShortEscape(c)) == c && !IsBreak(ShortEscape(c))
  {
  }

  /** Reading an escape sequence gives the character it was written for. */
  lemma EscapeRoundTrip(inp: seq<int>, i: nat, c: nat)
    requires IsScalarValue(c) && i + |EscapeText(c)| <= |inp| && inp[i..i + |EscapeText(c)|] == EscapeText(c)
    ensures At(inp, i) == BACKSLASH && !IsBreak(At(inp, i + 1)) && Unescape(inp, i) == (c, |EscapeText(c)|)
  {
    var text := EscapeText(c);
    assert At(inp, i) == inp[i..i + |text|][0] && At(inp, i + 1) == inp[i..i + |text|][1];
    if ShortEscape(c) >= 0 {
      ShortEscapeRoundTrip(c);
    } else {
      var n := EscapeWidth(c);
      FitsWidth(c);
      assert inp[i + 2..i + 2 + n] == inp[i..i + |text|][2..] == HexDigits(c, n);
      HexRoundTrip(inp, i + 2, c, n);
      HexEscape(inp, i, c, n);
    }
  }

  // Pieces of text.

  /** `text` stands in `inp` at index `p`. */
  ghost predicate Has(inp: seq<int>, p: nat, text: seq<int>)
  {
    p + |text| <= |inp| && forall k {:trigger text[k]} :: 0 <= k < |text| ==> inp[p + k] == text[k]
  }

  lemma HasSplit(inp: seq<int>, p: nat, a: seq<int>, b: seq<int>)
    requires Has(inp, p, a + b)
    ensures Has(inp, p, a) && Has(inp, p + |a|, b)
  {
    var text := a + b;
    forall k {:trigger a[k]} | 0 <= k < |a| ensures inp[p + k] == a[k] {
      assert text[k] == a[k];
    }
    forall k {:trigger b[k]} | 0 <= k < |b| ensures inp[p + |a| + k] == b[k] {
      assert text[|a| + k] == b[k];
    }
  }

  lemma HasAt(inp: seq<int>, p: nat, text: seq<int>, k: nat)
    requires Has(inp, p, text) && k < |text|
    ensures At(inp, p + k) == text[k]
  {
    assert text[k] == inp[p + k];
  }

  // Blanks and line breaks.

  lemma {:induction false} SkipSpaces(single: bool, inp: seq<int>, from: nat, p: nat, n: nat, column: nat,
                                      acc: seq<int>, ws: seq<int>, lb: seq<int>, tb: seq<int>)
    requires Has(inp, p, Spaces(n)) && from < p
    ensures ScanBlanks(single, inp, from, p, column, acc, ws, lb, tb, true)
         == ScanBlanks(single, inp, from, p + n, column + n, acc, ws, lb, tb, true)
    decreases n
  {
    if n > 0 {
      assert Spaces(n) == [SPACE] + Spaces(n - 1);
      HasSplit(inp, p, [SPACE], Spaces(n - 1));
      HasAt(inp, p, [SPACE], 0);
      SkipSpaces(single, inp, from, p + 1, n - 1, column + 1, acc, ws, lb, tb);
    }
  }

  /** A line break as the emitter writes it is read as one LF, if no LF follows. */
  lemma ReadLineBreak(inp: seq<int>, p: nat, lineBreak: seq<int>)
    requires IsLineBreak(lineBreak) && Has(inp, p, lineBreak) && (lineBreak == [CR] ==> At(inp, p + 1) != LF)
    ensures IsBreak(At(inp, p)) && AfterBreak(inp, p) == p + |lineBreak| && Line(At(inp, p)) == LF
  {
    HasAt(inp, p, lineBreak, 0);
    if |lineBreak| == 2 {
      HasAt(inp, p, lineBreak, 1);
    }
  }

  predicate StartsWord(c: int)
  {
    c != 0 && !IsBlankZ(c)
  }

  // Steps of the scanner.

  lemma StepChar(single: bool, inp: seq<int>, p: nat, column: nat, acc: seq<int>)
    requires StartsWord(At(inp, p)) && At(inp, p) != Quote(single) && (!single ==> At(inp, p) != BACKSLASH)
    ensures p < |inp|
    ensures ScanWord(single, inp, p, column, acc) == ScanWord(single, inp, p + 1, column + 1, acc + [At(inp, p)])
  {
  }

  lemma StepEscape(inp: seq<int>, p: nat, column: nat, acc: seq<int>, c: nat)
    requires IsScalarValue(c) && Has(inp, p, EscapeText(c))
    ensures var n := |EscapeText(c)|;
      ScanWord(false, inp, p, column, acc) == ScanWord(false, inp, p + n, column + n, acc + [c])
  {
    EscapeRoundTrip(inp, p, c);
  }

  lemma StepSpace(single: bool, inp: seq<int>, p: nat, column: nat, acc: seq<int>)
    requires At(inp, p) == SPACE
    ensures p < |inp|
    ensures ScanWord(single, inp, p, column, acc)
      == ScanBlanks(single, inp, p, p + 1, column + 1, acc, [SPACE], [], [], false)
  {
    assert [] + [SPACE] == [SPACE];
  }

  lemma MoreSpace(single: bool, inp: seq<int>, from: nat, p: nat, column: nat, acc: seq<int>, k: nat)
    requires from < p && At(inp, p) == SPACE
    ensures p < |inp|
    ensures ScanBlanks(single, inp, from, p, column, acc, Spaces(k), [], [], false)
         == ScanBlanks(single, inp, from, p + 1, column + 1, acc, Spaces(k + 1), [], [], false)
  {
    assert Spaces(k) + [SPACE] == Spaces(k + 1);
  }

  lemma EndBlanks(single: bool, inp: seq<int>, from: nat, p: nat, column: nat, acc: seq<int>, ws: seq<int>,
                  lb: seq<int>, tb: seq<int>, leading: bool)
    requires from < p < |inp| && StartsWord(At(inp, p)) && column > 0
    ensures ScanBlanks(single, inp, from, p, column, acc, ws, lb, tb, leading)
         == ScanWord(single, inp, p, column, acc + Joined(ws, lb, tb, leading))
  {
  }

  lemma StepBreak(single: bool, inp: seq<int>, p: nat, column: nat, acc: seq<int>)
    requires IsBreak(At(inp, p))
    ensures p < AfterBreak(inp, p) <= |inp|
    ensures ScanWord(single, inp, p, column, acc)
         == ScanBlanks(single, inp, p, AfterBreak(inp, p), 0, acc, [], [Line(At(inp, p))], [], true)
  {
    assert [] + [Line(At(inp, p))] == [Line(At(inp, p))];
  }

  /** A line break and its indentation, between two words, read as one space. */
  lemma ReadFold(single: bool, inp: seq<int>, p: nat, st: Style, column: nat, acc: seq<int>)
    requires IsLineBreak(st.lineBreak) && st.indent > 0 && Has(inp, p, st.lineBreak + Spaces(st.indent))
    requires StartsWord(At(inp, p + |st.lineBreak| + st.indent))
    ensures p + |st.lineBreak| + st.indent < |inp|
    ensures ScanWord(single, inp, p, column, acc)
         == ScanWord(single, inp, p + |st.lineBreak| + st.indent, st.indent, acc + [SPACE])
  {
    var q := p + |st.lineBreak|;
    HasSplit(inp, p, st.lineBreak, Spaces(st.indent));
    HasAt(inp, q, Spaces(st.indent), 0);
    ReadLineBreak(inp, p, st.lineBreak);
    StepBreak(single, inp, p, column, acc);
    SkipSpaces(single, inp, p, q, st.indent, 0, acc, [], [LF], []);
    EndBlanks(single, inp, p, q + st.indent, st.indent, acc, [], [LF], [], true);
  }

  // Double-quoted.

  ghost predicate AllScalarValues(s: seq<nat>)
  {
    forall i :: 0 <= i < |s| ==> IsScalarValue(s[i])
  }

  ghost predicate Settings(st: Style)
  {
    st.indent > 0 && IsLineBreak(st.lineBreak)
  }

  /** After a fold the pen stands at the indentation until a word is written. */
  ghost predicate PenOk(st: Style, pen: Pen, spaces: bool)
  {
    pen.indention ==> pen.column >= st.indent && (!spaces ==> pen.column > st.indent)
  }

  /** `text` stands in `inp` at index `p` and ends at `end`. */
  ghost predicate Upto(inp: seq<int>, p: nat, text: seq<int>, end: nat)
  {
    Has(inp, p, text) && end == p + |text|
  }

  lemma UptoSplit(inp: seq<int>, p: nat, a: seq<int>, b: seq<int>, end: nat)
    requires Upto(inp, p, a + b, end)
    ensures Has(inp, p, a) && Upto(inp, p + |a|, b, end)
  {
    HasSplit(inp, p, a, b);
  }

  /** Marks a place whose text is looked at. */
  ghost predicate Here(p: nat)
  {
    p >= 0
  }

  /** What is written for `s[i..]` and the closing quote stands at `p` and ends at `end`. Only a proof that mentions
      `Here(p)` looks at the text. */
  ghost predicate DoubleAt(inp: seq<int>, p: nat, st: Style, s: seq<nat>, i: nat, pen: Pen, spaces: bool, end: nat)
  {
    && p <= |inp| && i <= |s|
    && forall q {:trigger Here(q)} :: q == p ==> Upto(inp, q, DoubleText(st, s, i, pen, spaces), end)
  }

  lemma ClosingQuote(inp: seq<int>, p: nat, st: Style, s: seq<nat>, pen: Pen, spaces: bool, end: nat)
    requires DoubleAt(inp, p, st, s, |s|, pen, spaces, end)
    ensures p < |inp| && At(inp, p) == DOUBLE_QUOTE && end == p + 1
  {
    assert Here(p);
    HasAt(inp, p, [DOUBLE_QUOTE], 0);
  }

  /** The scanner is at the start of, or inside, a word, and has the first `i` characters. */
  lemma {:induction false} DoubleWord(inp: seq<int>, p: nat, st: Style, s: seq<nat>, i: nat, pen: Pen, spaces: bool,
                                      column: nat, end: nat)
    requires Settings(st) && AllScalarValues(s) && i <= |s| && PenOk(st, pen, spaces) && column > 0
    requires DoubleAt(inp, p, st, s, i, pen, spaces, end)
    ensures ScanWord(false, inp, p, column, s[..i]) == Scanned(s, end)
    decreases |s| - i, 2, 0
  {
    if i == |s| {
      ClosingQuote(inp, p, st, s, pen, spaces, end);
      assert s[..i] == s;
    } else if MustEscape(st, s[i]) {
      DoubleEscape(inp, p, st, s, i, pen, spaces, column, end);
    } else if s[i] == SPACE && FoldsDouble(st, s, i, pen, spaces) {
      if s[i + 1] == SPACE {
        var pen3 := FoldEscapeText(inp, p, st, s, i, pen, spaces, end);
        DoubleFoldEscape(inp, p, st, s, i, pen3, column, end);
      } else {
        DoubleFold(inp, p, st, s, i, pen, spaces, column, end);
      }
    } else if s[i] == SPACE {
      DoubleSpace(inp, p, st, s, i, pen, spaces, column, end);
    } else {
      DoubleChar(inp, p, st, s, i, pen, spaces, column, end);
    }
  }

  lemma {:induction false} DoubleEscape(inp: seq<int>, p: nat, st: Style, s: seq<nat>, i: nat, pen: Pen, spaces: bool,
                                        column: nat, end: nat)
    requires Settings(st) && AllScalarValues(s) && i < |s| && PenOk(st, pen, spaces) && column > 0
    requires MustEscape(st, s[i]) && DoubleAt(inp, p, st, s, i, pen, spaces, end)
    ensures ScanWord(false, inp, p, column, s[..i]) == Scanned(s, end)
    decreases |s| - i, 1
  {
    var n := EscapeRead(inp, p, st, s, i, pen, spaces, column, end);
    DoubleWord(inp, p + n, st, s, i + 1, pen.(column := pen.column + n), false, column + n, end);
  }

  lemma EscapeRead(inp: seq<int>, p: nat, st: Style, s: seq<nat>, i: nat, pen: Pen, spaces: bool, column: nat, end: nat)
    returns (n: nat)
    requires AllScalarValues(s) && i < |s| && MustEscape(st, s[i])
    requires DoubleAt(inp, p, st, s, i, pen, spaces, end)
    ensures n > 0 && DoubleAt(inp, p + n, st, s, i + 1, pen.(column := pen.column + n), false, end)
    ensures p + n <= |inp|
    ensures ScanWord(false, inp, p, column, s[..i]) == ScanWord(false, inp, p + n, column + n, s[..i + 1])
  {
    n := DoubleEscapeText(inp, p, st, s, i, pen, spaces, end);
    StepEscape(inp, p, column, s[..i], s[i]);
    assert s[..i] + [s[i]] == s[..i + 1];
  }

  lemma DoubleEscapeText(inp: seq<int>, p: nat, st: Style, s: seq<nat>, i: nat, pen: Pen, spaces: bool, end: nat)
    returns (n: nat)
    requires i < |s| && MustEscape(st, s[i]) && DoubleAt(inp, p, st, s, i, pen, spaces, end)
    ensures n == |EscapeText(s[i])| > 0 && Has(inp, p, EscapeText(s[i]))
    ensures DoubleAt(inp, p + n, st, s, i + 1, pen.(column := pen.column + n), false, end)
  {
    n := |EscapeText(s[i])|;
    assert Here(p);
    EscapedText(st, s, i, pen, spaces);
    UptoSplit(inp, p, EscapeText(s[i]), DoubleText(st, s, i + 1, pen.(column := pen.column + n), false), end);
  }

  lemma {:induction false} EscapedText(st: Style, s: seq<nat>, i: nat, pen: Pen, spaces: bool)
    requires i < |s| && MustEscape(st, s[i])
    ensures DoubleText(st, s, i, pen, spaces)
         == EscapeText(s[i]) + DoubleText(st, s, i + 1, pen.(column := pen.column + |EscapeText(s[i])|), false)
    ensures |EscapeText(s[i])| > 0
  {
  }

  lemma {:induction false} DoubleChar(inp: seq<int>, p: nat, st: Style, s: seq<nat>, i: nat, pen: Pen, spaces: bool,
                                      column: nat, end: nat)
    requires Settings(st) && AllScalarValues(s) && i < |s| && PenOk(st, pen, spaces) && column > 0
    requires !MustEscape(st, s[i]) && s[i] != SPACE && DoubleAt(inp, p, st, s, i, pen, spaces, end)
    ensures ScanWord(false, inp, p, column, s[..i]) == Scanned(s, end)
    decreases |s| - i, 1
  {
    CharText(inp, p, st, s, i, pen, spaces, end);
    StepChar(false, inp, p, column, s[..i]);
    assert s[..i] + [s[i]] == s[..i + 1];
    DoubleWord(inp, p + 1, st, s, i + 1, pen.(column := pen.column + 1), false, column + 1, end);
  }

  lemma CharText(inp: seq<int>, p: nat, st: Style, s: seq<nat>, i: nat, pen: Pen, spaces: bool, end: nat)
    requires i < |s| && !MustEscape(st, s[i]) && s[i] != SPACE && DoubleAt(inp, p, st, s, i, pen, spaces, end)
    ensures p < |inp| && At(inp, p) == s[i]
    ensures DoubleAt(inp, p + 1, st, s, i + 1, pen.(column := pen.column + 1), false, end)
  {
    assert Here(p);
    UptoSplit(inp, p, [s[i]], DoubleText(st, s, i + 1, pen.(column := pen.column + 1), false), end);
    HasAt(inp, p, [s[i]], 0);
  }

  lemma {:induction false} DoubleSpace(inp: seq<int>, p: nat, st: Style, s: seq<nat>, i: nat, pen: Pen, spaces: bool,
                                       column: nat, end: nat)
    requires Settings(st) && AllScalarValues(s) && i < |s| && PenOk(st, pen, spaces) && column > 0
    requires s[i] == SPACE && !FoldsDouble(st, s, i, pen, spaces)
      && DoubleAt(inp, p, st, s, i, pen, spaces, end)
    ensures ScanWord(false, inp, p, column, s[..i]) == Scanned(s, end)
    decreases |s| - i, 1
  {
    DoubleSpaceText(inp, p, st, s, i, pen, spaces, end);
    StepSpace(false, inp, p, column, s[..i]);
    OneSpace(s, i);
    DoubleBlanks(inp, p, p + 1, st, s, i, i + 1, pen.(column := pen.column + 1), column + 1, end);
  }

  lemma DoubleSpaceText(inp: seq<int>, p: nat, st: Style, s: seq<nat>, i: nat, pen: Pen, spaces: bool, end: nat)
    requires i < |s| && s[i] == SPACE && !FoldsDouble(st, s, i, pen, spaces)
    requires DoubleAt(inp, p, st, s, i, pen, spaces, end)
    ensures p < |inp| && At(inp, p) == SPACE
    ensures DoubleAt(inp, p + 1, st, s, i + 1, pen.(column := pen.column + 1), true, end)
  {
    assert Here(p);
    UptoSplit(inp, p, [SPACE], DoubleText(st, s, i + 1, pen.(column := pen.column + 1), true), end);
    HasAt(inp, p, [SPACE], 0);
  }

  lemma OneSpace(s: seq<nat>, i: nat)
    requires i < |s| && s[i] == SPACE
    ensures [SPACE] == Spaces(1) && Run(s, i, i + 1)
  {
  }

  /** Spaces from `j` to `i`. */
  ghost predicate Run(s: seq<nat>, j: nat, i: nat)
  {
    j < i <= |s| && forall m :: j <= m < i ==> s[m] == SPACE
  }

  /** One more space of a run. */
  lemma GrowBlanks(single: bool, inp: seq<int>, from: nat, p: nat, s: seq<nat>, j: nat, i: nat, column: nat,
                   acc: seq<int>)
    requires from < p < |inp| && At(inp, p) == SPACE && Run(s, j, i) && i < |s| && s[i] == SPACE
    ensures Run(s, j, i + 1)
    ensures ScanBlanks(single, inp, from, p, column, acc, Spaces(i - j), [], [], false)
         == ScanBlanks(single, inp, from, p + 1, column + 1, acc, Spaces(i + 1 - j), [], [], false)
  {
    MoreSpace(single, inp, from, p, column, acc, i - j);
  }

  lemma RunTaken(s: seq<nat>, j: nat, i: nat)
    requires Run(s, j, i)
    ensures s[..j] + Spaces(i - j) == s[..i]
  {
    assert s[..i] == s[..j] + s[j..i];
  }

  lemma {:induction false} DoubleBlanks(inp: seq<int>, from: nat, p: nat, st: Style, s: seq<nat>, j: nat, i: nat,
                                        pen: Pen, column: nat, end: nat)
    requires Settings(st) && AllScalarValues(s) && Run(s, j, i) && PenOk(st, pen, true) && column > 0
    requires from < p && DoubleAt(inp, p, st, s, i, pen, true, end)
    ensures ScanBlanks(false, inp, from, p, column, s[..j], Spaces(i - j), [], [], false) == Scanned(s, end)
    decreases |s| - i, 3
  {
    if i < |s| && s[i] == SPACE {
      DoubleSpaceText(inp, p, st, s, i, pen, true, end);
      GrowBlanks(false, inp, from, p, s, j, i, column, s[..j]);
      DoubleBlanks(inp, from, p + 1, st, s, j, i + 1, pen.(column := pen.column + 1), column + 1, end);
    } else {
      DoubleResume(inp, from, p, st, s, j, i, pen, column, end);
    }
  }

  lemma {:induction false} DoubleResume(inp: seq<int>, from: nat, p: nat, st: Style, s: seq<nat>, j: nat, i: nat,
                                        pen: Pen, column: nat, end: nat)
    requires Settings(st) && AllScalarValues(s) && Run(s, j, i) && PenOk(st, pen, true) && column > 0
    requires from < p && DoubleAt(inp, p, st, s, i, pen, true, end) && (i < |s| ==> s[i] != SPACE)
    ensures ScanBlanks(false, inp, from, p, column, s[..j], Spaces(i - j), [], [], false) == Scanned(s, end)
    decreases |s| - i, 2, 1
  {
    DoubleStarts(inp, p, st, s, i, pen, end);
    EndBlanks(false, inp, from, p, column, s[..j], Spaces(i - j), [], [], false);
    RunTaken(s, j, i);
    DoubleWord(inp, p, st, s, i, pen, true, column, end);
  }

  lemma SpacesGrow(s: seq<nat>, i: nat, k: nat)
    requires k <= i < |s| && s[i] == SPACE && s[i - k..i] == Spaces(k)
    ensures s[i + 1 - (k + 1)..i + 1] == Spaces(k + 1) && s[..i + 1 - (k + 1)] == s[..i - k]
  {
    assert s[i - k..i + 1] == s[i - k..i] + [SPACE];
    assert Spaces(k) + [SPACE] == Spaces(k + 1);
  }

  lemma SpacesTaken(s: seq<nat>, i: nat, k: nat)
    requires k <= i <= |s| && s[i - k..i] == Spaces(k)
    ensures s[..i - k] + Spaces(k) == s[..i]
  {
    assert s[..i] == s[..i - k] + s[i - k..i];
  }

  /** Unless a space is next, the text that follows begins with a character that ends a run of blanks. */
  lemma DoubleStarts(inp: seq<int>, p: nat, st: Style, s: seq<nat>, i: nat, pen: Pen, end: nat)
    requires AllScalarValues(s) && DoubleAt(inp, p, st, s, i, pen, true, end) && (i < |s| ==> s[i] != SPACE)
    ensures p < |inp| && StartsWord(At(inp, p))
  {
    assert Here(p);
    HasAt(inp, p, DoubleText(st, s, i, pen, true), 0);
  }

  lemma {:induction false} DoubleFold(inp: seq<int>, p: nat, st: Style, s: seq<nat>, i: nat, pen: Pen, spaces: bool,
                                      column: nat, end: nat)
    requires Settings(st) && AllScalarValues(s) && i < |s| && PenOk(st, pen, spaces) && column > 0
    requires !MustEscape(st, s[i]) && s[i] == SPACE && FoldsDouble(st, s, i, pen, spaces) && s[i + 1] != SPACE
    requires DoubleAt(inp, p, st, s, i, pen, spaces, end)
    ensures ScanWord(false, inp, p, column, s[..i]) == Scanned(s, end)
    decreases |s| - i, 1
  {
    FoldText(inp, p, st, s, i, pen, spaces, end);
    var q := p + |st.lineBreak| + st.indent;
    DoubleStarts(inp, q, st, s, i + 1, IndentPen(st, pen), end);
    ReadFold(false, inp, p, st, column, s[..i]);
    assert s[..i] + [SPACE] == s[..i + 1];
    DoubleWord(inp, q, st, s, i + 1, IndentPen(st, pen), true, st.indent, end);
  }

  lemma FoldText(inp: seq<int>, p: nat, st: Style, s: seq<nat>, i: nat, pen: Pen, spaces: bool, end: nat)
    requires Settings(st) && i < |s| && PenOk(st, pen, spaces) && DoubleAt(inp, p, st, s, i, pen, spaces, end)
    requires !MustEscape(st, s[i]) && s[i] == SPACE && FoldsDouble(st, s, i, pen, spaces) && s[i + 1] != SPACE
    ensures Has(inp, p, st.lineBreak + Spaces(st.indent))
    ensures DoubleAt(inp, p + |st.lineBreak| + st.indent, st, s, i + 1, IndentPen(st, pen), true, end)
  {
    assert Here(p);
    UptoSplit(inp, p, IndentText(st, pen), DoubleText(st, s, i + 1, IndentPen(st, pen), true), end);
  }

  /** Two spaces in a row at a fold: the second one is escaped. */
  lemma {:induction false} DoubleFoldEscape(inp: seq<int>, p: nat, st: Style, s: seq<nat>, i: nat, pen: Pen,
                                            column: nat, end: nat)
    requires Settings(st) && AllScalarValues(s) && i + 1 < |s| && s[i] == SPACE && s[i + 1] == SPACE
      && PenOk(st, pen, true)
    requires Has(inp, p, st.lineBreak + Spaces(st.indent))
    requires var q := p + |st.lineBreak| + st.indent;
      && q + 1 < |inp| && At(inp, q) == BACKSLASH && At(inp, q + 1) == SPACE
      && DoubleAt(inp, q + 2, st, s, i + 2, pen, true, end)
    ensures ScanWord(false, inp, p, column, s[..i]) == Scanned(s, end)
    decreases |s| - i, 1
  {
    ReadFoldEscape(inp, p, st, column, s[..i]);
    TwoSpaces(s, i);
    DoubleWord(inp, p + |st.lineBreak| + st.indent + 2, st, s, i + 2, pen, true, st.indent + 2, end);
  }

  lemma TwoSpaces(s: seq<nat>, i: nat)
    requires i + 1 < |s| && s[i] == SPACE && s[i + 1] == SPACE
    ensures s[..i] + [SPACE, SPACE] == s[..i + 2]
  {
  }

  lemma FoldEscapeText(inp: seq<int>, p: nat, st: Style, s: seq<nat>, i: nat, pen: Pen, spaces: bool, end: nat)
    returns (pen3: Pen)
    requires Settings(st) && AllScalarValues(s) && i < |s| && PenOk(st, pen, spaces)
    requires !MustEscape(st, s[i]) && s[i] == SPACE && FoldsDouble(st, s, i, pen, spaces) && s[i + 1] == SPACE
    requires DoubleAt(inp, p, st, s, i, pen, spaces, end)
    ensures PenOk(st, pen3, true) && Has(inp, p, st.lineBreak + Spaces(st.indent))
    ensures var q := p + |st.lineBreak| + st.indent;
      && q + 1 < |inp| && At(inp, q) == BACKSLASH && At(inp, q + 1) == SPACE
      && DoubleAt(inp, q + 2, st, s, i + 2, pen3, true, end)
  {
    assert Here(p);
    var fold, pen1 := IndentText(st, pen), IndentPen(st, pen);
    var q := p + |fold|;
    var pen2 := pen1.(column := pen1.column + 1);
    pen3 := pen2.(column := pen2.column + 1);
    var tail := DoubleText(st, s, i + 2, pen3, true);
    assert DoubleText(st, s, i + 1, pen2, true) == [SPACE] + tail;
    UptoSplit(inp, p, fold + [BACKSLASH], [SPACE] + tail, end);
    HasSplit(inp, p, fold, [BACKSLASH]);
    UptoSplit(inp, q + 1, [SPACE], tail, end);
    HasAt(inp, q, [BACKSLASH], 0);
    HasAt(inp, q + 1, [SPACE], 0);
  }

  lemma ReadFoldEscape(inp: seq<int>, p: nat, st: Style, column: nat, acc: seq<int>)
    requires IsLineBreak(st.lineBreak) && st.indent > 0 && Has(inp, p, st.lineBreak + Spaces(st.indent))
    requires var q := p + |st.lineBreak| + st.indent;
      q + 1 < |inp| && At(inp, q) == BACKSLASH && At(inp, q + 1) == SPACE
    ensures var q := p + |st.lineBreak| + st.indent;
      ScanWord(false, inp, p, column, acc) == ScanWord(false, inp, q + 2, st.indent + 2, acc + [SPACE, SPACE])
  {
    var q := p + |st.lineBreak| + st.indent;
    ReadFold(false, inp, p, st, column, acc);
    StepEscapedSpace(inp, q, st.indent, acc + [SPACE]);
    assert acc + [SPACE] + [SPACE] == acc + [SPACE, SPACE];
  }

  lemma StepEscapedSpace(inp: seq<int>, p: nat, column: nat, acc: seq<int>)
    requires p + 1 < |inp| && At(inp, p) == BACKSLASH && At(inp, p + 1) == SPACE
    ensures ScanWord(false, inp, p, column, acc) == ScanWord(false, inp, p + 2, column + 2, acc + [SPACE])
  {
  }

  /** Scanning what the double-quoted writer wrote gives the value back, whatever follows it, for every width,
      indentation, line break and position of the pen. */
  lemma DoubleQuotedRoundTrip(st: Style, s: seq<nat>, pen: Pen, rest: seq<int>, column: nat)
    requires Settings(st) && AllScalarValues(s) && !pen.indention
    ensures var text := [DOUBLE_QUOTE] + DoubleText(st, s, 0, pen, false);
      ScanQuoted(false, text + rest, column) == Scanned(s, |text|)
  {
    var body := DoubleText(st, s, 0, pen, false);
    var inp := [DOUBLE_QUOTE] + body + rest;
    assert inp[1..1 + |body|] == body;
    assert s[..0] == [] && Upto(inp, 1, body, 1 + |body|);
    DoubleWord(inp, 1, st, s, 0, pen, false, column + 1, 1 + |body|);
  }

  // Single-quoted.

  lemma StepDoubledQuote(inp: seq<int>, p: nat, column: nat, acc: seq<int>)
    requires p + 1 < |inp| && At(inp, p) == SINGLE_QUOTE && At(inp, p + 1) == SINGLE_QUOTE
    ensures ScanWord(true, inp, p, column, acc) == ScanWord(true, inp, p + 2, column + 2, acc + [SINGLE_QUOTE])
  {
  }

  lemma MoreBreak(inp: seq<int>, from: nat, p: nat, column: nat, acc: seq<int>, lb: seq<int>, tb: seq<int>)
    requires from < p && IsBreak(At(inp, p))
    ensures p < AfterBreak(inp, p) <= |inp|
    ensures ScanBlanks(true, inp, from, p, column, acc, [], lb, tb, true)
         == ScanBlanks(true, inp, from, AfterBreak(inp, p), 0, acc, [], lb, tb + [Line(At(inp, p))], true)
  {
  }

  /** A run of line breaks read so far, and the characters of the value it stands for. */
  ghost predicate BreaksRead(lb: seq<int>, tb: seq<int>, value: seq<int>)
  {
    && |lb| == 1 && (lb[0] == LF ==> tb != []) && Joined([], lb, tb, true) == value
  }

  ghost predicate NormalAt(s: seq<nat>, i: nat)
  {
    i < |s| ==> s[i] != SPACE && !IsBreak(s[i])
  }

  /** The text for a value that goes on with a word, or ends, begins with a character that ends a run of blanks. */
  lemma SingleStarts(inp: seq<int>, p: nat, st: Style, s: seq<nat>, i: nat, pen: Pen, spaces: bool)
    requires SingleAllowed(st.unicode, s) && i <= |s| && NormalAt(s, i)
    requires Has(inp, p, SingleText(st, s, i, pen, spaces, false))
    ensures p < |inp| && StartsWord(At(inp, p))
  {
    HasAt(inp, p, SingleText(st, s, i, pen, spaces, false), 0);
  }

  /** After a run of breaks only the indentation is written before the next word. */
  lemma AfterBreaksText(st: Style, s: seq<nat>, i: nat, pen: Pen, spaces: bool)
    requires Settings(st) && i <= |s| && NormalAt(s, i) && pen.indention && pen.column == 0
    ensures SingleText(st, s, i, pen, spaces, true) == Spaces(st.indent)
      + SingleText(st, s, i, IndentPen(st, pen), spaces, false)
  {
    assert IndentText(st, pen) == Spaces(st.indent);
  }

  ghost predicate SingleSettings(st: Style, s: seq<nat>)
  {
    Settings(st) && SingleAllowed(st.unicode, s)
  }

  lemma {:induction false} SingleWord(inp: seq<int>, p: nat, st: Style, s: seq<nat>, i: nat, pen: Pen, spaces: bool,
                                      column: nat, end: nat)
    requires SingleSettings(st, s) && i <= |s| && (pen.indention ==> spaces || NormalAt(s, i)) && column > 0
    requires spaces ==> NormalAt(s, i) || (i < |s| && s[i] == SPACE)
    requires Upto(inp, p, SingleText(st, s, i, pen, spaces, false), end)
    requires At(inp, end) != SINGLE_QUOTE
    ensures ScanWord(true, inp, p, column, s[..i]) == Scanned(s, end)
    decreases |s| - i, 2, 0
  {
    if i == |s| {
      assert s[..i] == s && SingleText(st, s, i, pen, spaces, false) == [SINGLE_QUOTE];
      HasAt(inp, p, SingleText(st, s, i, pen, spaces, false), 0);
    } else if s[i] == SPACE && FoldsSingle(st, s, i, pen, spaces) {
      SingleFold(inp, p, st, s, i, pen, spaces, column, end);
    } else if s[i] == SPACE {
      SingleSpace(inp, p, st, s, i, pen, spaces, column, end);
    } else if IsBreak(s[i]) {
      SingleBreak(inp, p, st, s, i, pen, spaces, column, end);
    } else {
      SingleChar(inp, p, st, s, i, pen, spaces, column, end);
    }
  }

  lemma {:induction false} SingleChar(inp: seq<int>, p: nat, st: Style, s: seq<nat>, i: nat, pen: Pen, spaces: bool,
                                      column: nat, end: nat)
    requires SingleSettings(st, s) && i < |s| && column > 0 && s[i] != SPACE && !IsBreak(s[i])
    requires Upto(inp, p, SingleText(st, s, i, pen, spaces, false), end)
    requires At(inp, end) != SINGLE_QUOTE
    ensures ScanWord(true, inp, p, column, s[..i]) == Scanned(s, end)
    decreases |s| - i, 1
  {
    var n := SingleCharRead(inp, p, st, s, i, pen, spaces, column, end);
    SingleWord(inp, p + n, st, s, i + 1, pen.(column := pen.column + n, indention := false), false, column + n, end);
  }

  lemma SingleCharRead(inp: seq<int>, p: nat, st: Style, s: seq<nat>, i: nat, pen: Pen, spaces: bool, column: nat,
                       end: nat) returns (n: nat)
    requires SingleSettings(st, s) && i < |s| && s[i] != SPACE && !IsBreak(s[i])
    requires Upto(inp, p, SingleText(st, s, i, pen, spaces, false), end)
    ensures Upto(inp, p + n, SingleText(st, s, i + 1, pen.(column := pen.column + n, indention := false), false, false),
                 end)
    ensures p + n <= |inp|
    ensures ScanWord(true, inp, p, column, s[..i]) == ScanWord(true, inp, p + n, column + n, s[..i + 1])
  {
    var quoted := if s[i] == SINGLE_QUOTE then [SINGLE_QUOTE, SINGLE_QUOTE] else [s[i]];
    n := |quoted|;
    var tail := SingleText(st, s, i + 1, pen.(column := pen.column + n, indention := false), false, false);
    assert SingleText(st, s, i, pen, spaces, false) == quoted + tail;
    UptoSplit(inp, p, quoted, tail, end);
    HasAt(inp, p, quoted, 0);
    if s[i] == SINGLE_QUOTE {
      HasAt(inp, p, quoted, 1);
      StepDoubledQuote(inp, p, column, s[..i]);
    } else {
      StepChar(true, inp, p, column, s[..i]);
    }
    assert s[..i] + [s[i]] == s[..i + 1];
  }

  lemma {:induction false} SingleFold(inp: seq<int>, p: nat, st: Style, s: seq<nat>, i: nat, pen: Pen, spaces: bool,
                                      column: nat, end: nat)
    requires SingleSettings(st, s) && i < |s| && (pen.indention ==> spaces) && column > 0
    requires s[i] == SPACE && FoldsSingle(st, s, i, pen, spaces)
    requires Upto(inp, p, SingleText(st, s, i, pen, spaces, false), end)
    requires At(inp, end) != SINGLE_QUOTE
    ensures ScanWord(true, inp, p, column, s[..i]) == Scanned(s, end)
    decreases |s| - i, 1
  {
    var fold, pen1 := IndentText(st, pen), IndentPen(st, pen);
    var q := p + |fold|;
    UptoSplit(inp, p, fold, SingleText(st, s, i + 1, pen1, true, false), end);
    SingleStarts(inp, q, st, s, i + 1, pen1, true);
    ReadFold(true, inp, p, st, column, s[..i]);
    assert s[..i] + [SPACE] == s[..i + 1];
    SingleWord(inp, q, st, s, i + 1, pen1, true, st.indent, end);
  }

  lemma {:induction false} SingleSpace(inp: seq<int>, p: nat, st: Style, s: seq<nat>, i: nat, pen: Pen, spaces: bool,
                                       column: nat, end: nat)
    requires SingleSettings(st, s) && i < |s| && (pen.indention ==> spaces) && column > 0
    requires s[i] == SPACE && !FoldsSingle(st, s, i, pen, spaces)
    requires Upto(inp, p, SingleText(st, s, i, pen, spaces, false), end)
    requires At(inp, end) != SINGLE_QUOTE
    ensures ScanWord(true, inp, p, column, s[..i]) == Scanned(s, end)
    decreases |s| - i, 1
  {
    var pen' := pen.(column := pen.column + 1);
    UptoSplit(inp, p, [SPACE], SingleText(st, s, i + 1, pen', true, false), end);
    HasAt(inp, p, [SPACE], 0);
    StepSpace(true, inp, p, column, s[..i]);
    OneSpace(s, i);
    SingleBlanks(inp, p, p + 1, st, s, i, i + 1, pen', column + 1, end);
  }

  lemma {:induction false} SingleBlanks(inp: seq<int>, from: nat, p: nat, st: Style, s: seq<nat>, j: nat, i: nat,
                                        pen: Pen, column: nat, end: nat)
    requires SingleSettings(st, s) && Run(s, j, i) && column > 0
    requires from < p && Upto(inp, p, SingleText(st, s, i, pen, true, false), end)
    requires At(inp, end) != SINGLE_QUOTE
    ensures ScanBlanks(true, inp, from, p, column, s[..j], Spaces(i - j), [], [], false) == Scanned(s, end)
    decreases |s| - i, 3
  {
    assert s[i - 1] == SPACE;
    if i < |s| && s[i] == SPACE {
      SingleSpaceText(inp, p, st, s, i, pen, end);
      GrowBlanks(true, inp, from, p, s, j, i, column, s[..j]);
      SingleBlanks(inp, from, p + 1, st, s, j, i + 1, pen.(column := pen.column + 1), column + 1, end);
    } else {
      SingleStarts(inp, p, st, s, i, pen, true);
      EndBlanks(true, inp, from, p, column, s[..j], Spaces(i - j), [], [], false);
      RunTaken(s, j, i);
      SingleWord(inp, p, st, s, i, pen, true, column, end);
    }
  }

  lemma SingleSpaceText(inp: seq<int>, p: nat, st: Style, s: seq<nat>, i: nat, pen: Pen, end: nat)
    requires i < |s| && s[i] == SPACE && Upto(inp, p, SingleText(st, s, i, pen, true, false), end)
    ensures var rest := SingleText(st, s, i + 1, pen.(column := pen.column + 1), true, false);
      At(inp, p) == SPACE && p < |inp| && Upto(inp, p + 1, rest, end)
  {
    var rest := SingleText(st, s, i + 1, pen.(column := pen.column + 1), true, false);
    assert SingleText(st, s, i, pen, true, false) == [SPACE] + rest;
    UptoSplit(inp, p, [SPACE], rest, end);
    HasAt(inp, p, [SPACE], 0);
  }

  /** In a run of breaks, what comes next never begins with LF when line breaks are written as CR. */
  lemma NotLineFeed(inp: seq<int>, p: nat, st: Style, s: seq<nat>, i: nat, pen: Pen, spaces: bool)
    requires SingleSettings(st, s) && i <= |s| && pen.indention && pen.column == 0 && st.lineBreak == [CR]
    requires Has(inp, p, SingleText(st, s, i, pen, spaces, true))
    ensures At(inp, p) != LF
  {
    HasAt(inp, p, SingleText(st, s, i, pen, spaces, true), 0);
    assert IndentText(st, pen) == Spaces(st.indent);
  }

  lemma {:induction false} SingleBreak(inp: seq<int>, p: nat, st: Style, s: seq<nat>, i: nat, pen: Pen, spaces: bool,
                                       column: nat, end: nat)
    requires SingleSettings(st, s) && i < |s| && column > 0 && IsBreak(s[i])
    requires Upto(inp, p, SingleText(st, s, i, pen, spaces, false), end)
    requires At(inp, end) != SINGLE_QUOTE
    ensures ScanWord(true, inp, p, column, s[..i]) == Scanned(s, end)
    decreases |s| - i, 1
  {
    var pen' := pen.(column := 0, indention := true);
    var text := BreakText(st, s[i], false);
    UptoSplit(inp, p, text, SingleText(st, s, i + 1, pen', spaces, true), end);
    var lb, tb := FirstBreak(inp, p, st, s, i, pen', spaces, column);
    assert s[i + 1 - 1..i + 1] == [s[i]] && s[..i] == s[..i + 1 - 1];
    SingleBreaks(inp, p, p + |text|, st, s, i + 1, pen', spaces, 1, lb, tb, end);
  }

  /** The first break of a run: LF is written twice, LS and PS once. */
  lemma FirstBreak(inp: seq<int>, p: nat, st: Style, s: seq<nat>, i: nat, pen: Pen, spaces: bool, column: nat)
    returns (lb: seq<int>, tb: seq<int>)
    requires SingleSettings(st, s) && i < |s| && IsBreak(s[i]) && pen.indention && pen.column == 0
    requires Has(inp, p, BreakText(st, s[i], false))
    requires Has(inp, p + |BreakText(st, s[i], false)|, SingleText(st, s, i + 1, pen, spaces, true))
    ensures BreaksRead(lb, tb, [s[i]])
    ensures ScanWord(true, inp, p, column, s[..i])
         == ScanBlanks(true, inp, p, p + |BreakText(st, s[i], false)|, 0, s[..i], [], lb, tb, true)
  {
    if s[i] == LF {
      var q := p + |st.lineBreak|;
      HasSplit(inp, p, st.lineBreak, st.lineBreak);
      if st.lineBreak == [CR] {
        NotLineFeed(inp, q + 1, st, s, i + 1, pen, spaces);
      }
      TwoBreaks(inp, p, st.lineBreak, column, s[..i]);
      lb, tb := [LF], [LF];
    } else {
      HasAt(inp, p, [s[i]], 0);
      StepBreak(true, inp, p, column, s[..i]);
      lb, tb := [s[i]], [];
    }
  }

  lemma TwoBreaks(inp: seq<int>, p: nat, lineBreak: seq<int>, column: nat, acc: seq<int>)
    requires IsLineBreak(lineBreak) && Has(inp, p, lineBreak) && Has(inp, p + |lineBreak|, lineBreak)
    requires lineBreak == [CR] ==> At(inp, p + 2 * |lineBreak|) != LF
    ensures p + 2 * |lineBreak| <= |inp|
    ensures ScanWord(true, inp, p, column, acc)
      == ScanBlanks(true, inp, p, p + 2 * |lineBreak|, 0, acc, [], [LF], [LF], true)
  {
    var q := p + |lineBreak|;
    HasAt(inp, q, lineBreak, 0);
    ReadLineBreak(inp, p, lineBreak);
    ReadLineBreak(inp, q, lineBreak);
    StepBreak(true, inp, p, column, acc);
    MoreBreak(inp, p, q, 0, acc, [LF], []);
    assert [] + [LF] == [LF];
  }

  /** The scanner has read the `m` breaks before index `i`. */
  lemma {:induction false} SingleBreaks(inp: seq<int>, from: nat, p: nat, st: Style, s: seq<nat>, i: nat, pen: Pen,
                                        spaces: bool, m: nat, lb: seq<int>, tb: seq<int>, end: nat)
    requires SingleSettings(st, s) && 0 < m <= i <= |s| && IsBreak(s[i - 1]) && pen.indention && pen.column == 0
    requires from < p && BreaksRead(lb, tb, s[i - m..i]) && Upto(inp, p, SingleText(st, s, i, pen, spaces, true), end)
    requires At(inp, end) != SINGLE_QUOTE
    ensures ScanBlanks(true, inp, from, p, 0, s[..i - m], [], lb, tb, true)
         == Scanned(s, end)
    decreases |s| - i, 3
  {
    if i < |s| && IsBreak(s[i]) {
      var m' := m + 1;
      var n := BreakMore(inp, from, p, st, s, i, pen, spaces, s[..i - m], lb, tb, end);
      BreaksReadSnoc(lb, tb, s, i - m, i);
      assert i + 1 - m' == i - m;
      SingleBreaks(inp, from, p + n, st, s, i + 1, pen, spaces, m', lb, tb + [s[i]], end);
    } else {
      SingleResume(inp, from, p, st, s, i, pen, spaces, m, lb, tb, end);
    }
  }

  lemma BreakMore(inp: seq<int>, from: nat, p: nat, st: Style, s: seq<nat>, i: nat, pen: Pen, spaces: bool,
                  acc: seq<int>, lb: seq<int>, tb: seq<int>, end: nat) returns (n: nat)
    requires SingleSettings(st, s) && i < |s| && IsBreak(s[i]) && pen.indention && pen.column == 0 && from < p
    requires Upto(inp, p, SingleText(st, s, i, pen, spaces, true), end)
    ensures p + n <= |inp| && Upto(inp, p + n, SingleText(st, s, i + 1, pen, spaces, true), end)
    ensures ScanBlanks(true, inp, from, p, 0, acc, [], lb, tb, true)
         == ScanBlanks(true, inp, from, p + n, 0, acc, [], lb, tb + [s[i]], true)
  {
    n := |BreakText(st, s[i], true)|;
    BreakThenText(inp, p, st, s, i, pen, spaces, end);
    NextBreak(inp, from, p, st, s, i, pen, spaces, acc, lb, tb);
  }

  lemma BreakThenText(inp: seq<int>, p: nat, st: Style, s: seq<nat>, i: nat, pen: Pen, spaces: bool, end: nat)
    requires i < |s| && IsBreak(s[i]) && pen.indention && pen.column == 0
      && Upto(inp, p, SingleText(st, s, i, pen, spaces, true), end)
    ensures var text, rest := BreakText(st, s[i], true), SingleText(st, s, i + 1, pen, spaces, true);
      Has(inp, p, text) && Upto(inp, p + |text|, rest, end)
  {
    BreakStarts(st, s, i, pen, spaces);
    UptoSplit(inp, p, BreakText(st, s[i], true), SingleText(st, s, i + 1, pen, spaces, true), end);
  }

  lemma {:induction false} BreakStarts(st: Style, s: seq<nat>, i: nat, pen: Pen, spaces: bool)
    requires i < |s| && IsBreak(s[i]) && pen.indention && pen.column == 0
    ensures SingleText(st, s, i, pen, spaces, true)
         == BreakText(st, s[i], true) + SingleText(st, s, i + 1, pen, spaces, true)
  {
    assert pen.(column := 0, indention := true) == pen;
  }

  lemma BreaksReadSnoc(lb: seq<int>, tb: seq<int>, s: seq<nat>, j: nat, i: nat)
    requires j <= i < |s| && BreaksRead(lb, tb, s[j..i])
    ensures BreaksRead(lb, tb + [s[i]], s[j..i + 1])
  {
    assert s[j..i + 1] == s[j..i] + [s[i]];
  }

  lemma NextBreak(inp: seq<int>, from: nat, p: nat, st: Style, s: seq<nat>, i: nat, pen: Pen, spaces: bool,
                  acc: seq<int>, lb: seq<int>, tb: seq<int>)
    requires SingleSettings(st, s) && i < |s| && IsBreak(s[i]) && pen.indention && pen.column == 0 && from < p
    requires Has(inp, p, BreakText(st, s[i], true))
    requires Has(inp, p + |BreakText(st, s[i], true)|, SingleText(st, s, i + 1, pen, spaces, true))
    ensures ScanBlanks(true, inp, from, p, 0, acc, [], lb, tb, true)
         == ScanBlanks(true, inp, from, p + |BreakText(st, s[i], true)|, 0, acc, [], lb, tb + [s[i]], true)
  {
    if s[i] == LF {
      if st.lineBreak == [CR] {
        NotLineFeed(inp, p + 1, st, s, i + 1, pen, spaces);
      }
      ReadLineBreak(inp, p, st.lineBreak);
    } else {
      HasAt(inp, p, [s[i]], 0);
    }
    MoreBreak(inp, from, p, 0, acc, lb, tb);
  }

  /** A run of breaks ends: the indentation is skipped and the next word begins. */
  lemma {:induction false} SingleResume(inp: seq<int>, from: nat, p: nat, st: Style, s: seq<nat>, i: nat, pen: Pen,
                                        spaces: bool, m: nat, lb: seq<int>, tb: seq<int>, end: nat)
    requires SingleSettings(st, s) && 0 < m <= i <= |s| && NormalAt(s, i) && pen.indention && pen.column == 0
    requires from < p && BreaksRead(lb, tb, s[i - m..i]) && Upto(inp, p, SingleText(st, s, i, pen, spaces, true), end)
    requires At(inp, end) != SINGLE_QUOTE
    ensures ScanBlanks(true, inp, from, p, 0, s[..i - m], [], lb, tb, true)
         == Scanned(s, end)
    decreases |s| - i, 2, 1
  {
    var pen' := IndentPen(st, pen);
    var q := p + st.indent;
    AfterBreaksText(st, s, i, pen, spaces);
    UptoSplit(inp, p, Spaces(st.indent), SingleText(st, s, i, pen', spaces, false), end);
    SingleStarts(inp, q, st, s, i, pen', spaces);
    SkipSpaces(true, inp, from, p, st.indent, 0, s[..i - m], [], lb, tb);
    EndBlanks(true, inp, from, q, st.indent, s[..i - m], [], lb, tb, true);
    assert s[..i - m] + s[i - m..i] == s[..i];
    SingleWord(inp, q, st, s, i, pen', spaces, st.indent, end);
  }

  /** Scanning what the single-quoted writer wrote gives the value back, whenever the analysis allows the style and no
      quote follows directly. */
  lemma SingleQuotedRoundTrip(st: Style, s: seq<nat>, pen: Pen, rest: seq<int>, column: nat)
    requires Settings(st) && SingleAllowed(st.unicode, s) && !pen.indention && At(rest, 0) != SINGLE_QUOTE
    ensures var text := [SINGLE_QUOTE] + SingleText(st, s, 0, pen, false, false);
      ScanQuoted(true, text + rest, column) == Scanned(s, |text|)
  {
    var body := SingleText(st, s, 0, pen, false, false);
    var inp := [SINGLE_QUOTE] + body + rest;
    assert inp[1..1 + |body|] == body;
    assert At(inp, 1 + |body|) == At(rest, 0);
    assert s[..0] == [];
    SingleStartsText(st, s, pen);
    HasAt(inp, 1, body, 0);
    SingleWord(inp, 1, st, s, 0, pen, false, column + 1, 1 + |body|);
  }

  lemma SingleStartsText(st: Style, s: seq<nat>, pen: Pen)
    requires Settings(st) && SingleAllowed(st.unicode, s) && !pen.indention
    ensures var text := SingleText(st, s, 0, pen, false, false); text != [] && text[0] != 0
  {
  }

  /** Without indentation the round trip fails: a document indicator that is folded to the beginning of a line ends the
      scalar. */
  lemma IndentationNeeded()
    ensures var s: seq<nat> := [0x78, SPACE, 0x2D, 0x2D, 0x2D, SPACE, 0x79];
      var st := Style(0, 0, true, [LF], true);
      && SingleAllowed(true, s) && AllScalarValues(s)
      && ScanQuoted(true, [SINGLE_QUOTE] + SingleText(st, s, 0, Pen(1, false, false), false, false), 0) == Bad
  {
    var s: seq<nat> := [0x78, SPACE, 0x2D, 0x2D, 0x2D, SPACE, 0x79];
    var st := Style(0, 0, true, [LF], true);
    FoldedText(st, s);
    FoldedScan([SINGLE_QUOTE] + SingleText(st, s, 0, Pen(1, false, false), false, false));
  }

  lemma FoldedText(st: Style, s: seq<nat>)
    requires st == Style(0, 0, true, [LF], true) && s == [0x78, SPACE, 0x2D, 0x2D, 0x2D, SPACE, 0x79]
    ensures SingleText(st, s, 0, Pen(1, false, false), false, false)
      == [0x78, LF, 0x2D, 0x2D, 0x2D, LF, 0x79, SINGLE_QUOTE]
  {
    assert [LF] + Spaces(0) == [LF];
    assert SingleText(st, s, 7, Pen(1, true, false), false, false) == [SINGLE_QUOTE];
    assert SingleText(st, s, 6, Pen(0, true, true), true, false) == [0x79, SINGLE_QUOTE];
    assert SingleText(st, s, 5, Pen(3, true, false), false, false) == [LF, 0x79, SINGLE_QUOTE];
    assert SingleText(st, s, 4, Pen(2, true, false), false, false) == [0x2D, LF, 0x79, SINGLE_QUOTE];
    assert SingleText(st, s, 3, Pen(1, true, false), false, false) == [0x2D, 0x2D, LF, 0x79, SINGLE_QUOTE];
    assert SingleText(st, s, 2, Pen(0, true, true), true, false) == [0x2D, 0x2D, 0x2D, LF, 0x79, SINGLE_QUOTE];
    assert SingleText(st, s, 1, Pen(2, false, false), false, false) == [LF, 0x2D, 0x2D, 0x2D, LF, 0x79, SINGLE_QUOTE];
  }

  lemma FoldedScan(inp: seq<int>)
    requires inp == [SINGLE_QUOTE, 0x78, LF, 0x2D, 0x2D, 0x2D, LF, 0x79, SINGLE_QUOTE]
    ensures ScanQuoted(true, inp, 0) == Bad
  {
    StepChar(true, inp, 1, 1, []);
    StepBreak(true, inp, 2, 2, [] + [At(inp, 1)]);
  }
}
