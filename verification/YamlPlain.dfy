/** Which values may stand without quotes (yaml_emitter_analyze_scalar). */
module YamlPlainChars {
  import opened YamlChars
  import opened YamlScanQuoted

  const HASH := 0x23
  const DASH := 0x2D
  const DOT := 0x2E
  const COLON := 0x3A
  const QUESTION := 0x3F

  /** Comma, brackets and braces. */
  predicate FlowIndicator(c: int)
  {
    c == 0x2C || c == 0x5B || c == 0x5D || c == 0x7B || c == 0x7D
  }

  /** # , [ ] { } & * ! | > ' " % @ ` */
  predicate FirstIndicator(c: int)
  {
    || c == HASH || FlowIndicator(c) || c == 0x26 || c == 0x2A || c == 0x21 || c == 0x7C || c == 0x3E
    || c == SINGLE_QUOTE || c == DOUBLE_QUOTE || c == 0x25 || c == 0x40 || c == 0x60
  }

  predicate SpecialAt(unicode: bool, s: seq<nat>, i: nat)
    requires i < |s|
  {
    !IsPrintable(s[i]) || (!IsAscii(s[i]) && !unicode)
  }

  predicate MarkerStart(s: seq<nat>)
  {
    || (At(s, 0) == DASH && At(s, 1) == DASH && At(s, 2) == DASH)
    || (At(s, 0) == DOT && At(s, 1) == DOT && At(s, 2) == DOT)
  }

  /** A character that means something where it stands outside of flow collections. */
  predicate BlockIndicatorAt(s: seq<nat>, i: nat)
    requires i < |s|
  {
    var c, followed := s[i], IsBlankZ(At(s, i + 1));
    if i == 0 then FirstIndicator(c) || ((c == QUESTION || c == COLON || c == DASH) && followed)
    else (c == COLON && followed) || (c == HASH && IsBlankZ(s[i - 1]))
  }

  /** The same inside of them. */
  predicate FlowIndicatorAt(s: seq<nat>, i: nat)
    requires i < |s|
  {
    || s[i] == COLON || s[i] == QUESTION || FlowIndicator(s[i]) || BlockIndicatorAt(s, i)
  }

  /** A value of one line without spaces at its ends, special characters or indicators. */
  ghost predicate PlainAllowed(unicode: bool, inFlow: bool, s: seq<nat>)
  {
    && s != [] && s[0] != SPACE && s[|s| - 1] != SPACE && !MarkerStart(s)
    && (forall j :: 0 <= j < |s| ==> !SpecialAt(unicode, s, j))
    && (forall j :: 0 <= j < |s| ==> !IsBreak(s[j]))
    && (forall j :: 0 <= j < |s| ==> if inFlow then !FlowIndicatorAt(s, j) else !BlockIndicatorAt(s, j))
  }
}

/** Scanning a plain scalar (yaml_parser_scan_plain_scalar). */
module YamlScanPlain {
  import opened YamlChars
  import opened YamlScanQuoted
  import opened YamlPlainChars

  /** Whether the scalar is in a flow collection, and the least column of a continuation line outside of one. */
  datatype Place = Place(inFlow: bool, indent: int)

  /** Blanks and line breaks read since the last word. */
  datatype Pending = Pending(ws: seq<int>, lb: seq<int>, tb: seq<int>, leading: bool)

  const Nothing := Pending([], [], [], false)

  function Blanks(b: Pending): seq<int>
  {
    Joined(b.ws, b.lb, b.tb, b.leading)
  }

  /** The value, the index after its last character, and where and how the scanner stopped. */
  datatype PlainScan = PlainBad | PlainScanned(value: seq<int>, end: nat, next: nat, leading: bool)

  /** One turn of the outer loop. */
  function PlainTop(at: Place, inp: seq<int>, i: nat, column: nat, acc: seq<int>, end: nat, b: Pending): PlainScan
    requires i <= |inp|
    decreases |inp| - i, 3, 0
  {
    if (column == 0 && DocumentIndicator(inp, i)) || At(inp, i) == HASH then PlainScanned(acc, end, i, b.leading)
    else PlainWord(at, inp, i, column, acc, end, b)
  }

  predicate UnexpectedColon(at: Place, inp: seq<int>, i: nat)
  {
    at.inFlow && At(inp, i) == COLON && (FlowIndicator(At(inp, i + 1)) || At(inp, i + 1) == QUESTION)
  }

  predicate EndsWord(at: Place, inp: seq<int>, i: nat)
  {
    (At(inp, i) == COLON && IsBlankZ(At(inp, i + 1))) || (at.inFlow && FlowIndicator(At(inp, i)))
  }

  /** The loop over non-blank characters; blanks before the word are joined with its first character. */
  function PlainWord(at: Place, inp: seq<int>, i: nat, column: nat, acc: seq<int>, end: nat, b: Pending): PlainScan
    requires i <= |inp|
    decreases |inp| - i, 2, 0
  {
    var c := At(inp, i);
    if c == 0 then PlainScanned(acc, end, i, b.leading)
    else if IsBlankZ(c) then PlainBlanks(at, inp, i, i, column, acc, end, b)
    else if UnexpectedColon(at, inp, i) then PlainBad
    else if EndsWord(at, inp, i) then PlainScanned(acc, end, i, b.leading)
    else PlainWord(at, inp, i + 1, column + 1, acc + Blanks(b) + [c], i + 1, Nothing)
  }

  /** The loop over blanks and line breaks that follows the word begun at `from`. */
  function PlainBlanks(at: Place, inp: seq<int>, from: nat, i: nat, column: nat, acc: seq<int>, end: nat,
                       b: Pending): PlainScan
    requires from <= i <= |inp|
    requires from < i || IsBlank(At(inp, i)) || IsBreak(At(inp, i))
    decreases |inp| - from, 1, |inp| - i
  {
    var c := At(inp, i);
    if IsBlank(c) then
      if b.leading && column < at.indent && c == TAB then PlainBad
      else PlainBlanks(at, inp, from, i + 1, column + 1, acc, end, if b.leading then b else b.(ws := b.ws + [c]))
    else if IsBreak(c) then
      PlainBlanks(at, inp, from, AfterBreak(inp, i), 0, acc, end,
                  if b.leading then b.(tb := b.tb + [Line(c)]) else Pending([], b.lb + [Line(c)], b.tb, true))
    else if !at.inFlow && column < at.indent then PlainScanned(acc, end, i, b.leading)
    else PlainTop(at, inp, i, column, acc, end, b)
  }

  /** What a token can be by its first characters. */
  datatype Kind =
    | EndKind | DirectiveKind | DocumentKind | FlowKind | EntryKind | KeyKind | ValueKind | AnchorKind | TagKind
    | BlockKind | SingleKind | DoubleKind | PlainKind | NoKind

  /** The choice that yaml_parser_fetch_next_token makes at the token that begins at index 0, in the given column. */
  function Dispatch(inFlow: bool, inp: seq<int>, column: nat): Kind
  {
    var c, blankAfter := At(inp, 0), IsBlankZ(At(inp, 1));
    if c == 0 then EndKind
    else if column == 0 && c == 0x25 then DirectiveKind
    else if column == 0 && DocumentIndicator(inp, 0) then DocumentKind
    else if FlowIndicator(c) then FlowKind
    else if c == DASH && blankAfter then EntryKind
    else if c == QUESTION && (inFlow || blankAfter) then KeyKind
    else if c == COLON && (inFlow || blankAfter) then ValueKind
    else if c == 0x2A || c == 0x26 then AnchorKind
    else if c == 0x21 then TagKind
    else if (c == 0x7C || c == 0x3E) && !inFlow then BlockKind
    else if c == SINGLE_QUOTE then SingleKind
    else if c == DOUBLE_QUOTE then DoubleKind
    else if
      || !(IsBlankZ(c) || c == DASH || c == QUESTION || c == COLON || FirstIndicator(c))
      || (c == DASH && !IsBlank(At(inp, 1)))
      || (!inFlow && (c == QUESTION || c == COLON) && !blankAfter)
    then PlainKind
    else NoKind
  }

  /** Scans the plain scalar that begins at index 0, in the given column. */
  function ScanPlain(at: Place, inp: seq<int>, column: nat): PlainScan
  {
    PlainTop(at, inp, 0, column, [], 0, Nothing)
  }

  /** The scanner's loops. */
  method ScanPlainScalar(at: Place, inp: seq<int>, column: nat) returns (r: PlainScan)
    ensures r == ScanPlain(at, inp, column)
  {
    var i: nat, col: nat, end: nat, text: seq<int>, b := 0, column, 0, [], Nothing;
    while true
      invariant i <= |inp| && PlainTop(at, inp, i, col, text, end, b) == ScanPlain(at, inp, column)
      decreases |inp| - i
    {
      if (col == 0 && DocumentIndicator(inp, i)) || At(inp, i) == HASH {
        break;
      }
      while !IsBlankZ(At(inp, i))
        invariant i <= |inp| && PlainWord(at, inp, i, col, text, end, b) == ScanPlain(at, inp, column)
        decreases |inp| - i
      {
        if UnexpectedColon(at, inp, i) {
          return PlainBad;
        }
        if EndsWord(at, inp, i) {
          break;
        }
        assert b.leading || b.ws != [] || text + Blanks(b) == text;
        if b.leading || b.ws != [] {
          text := text + Blanks(b);
        }
        text, i, col, b := text + [At(inp, i)], i + 1, col + 1, Nothing;
        end := i;
      }
      if !IsBlank(At(inp, i)) && !IsBreak(At(inp, i)) {
        break;
      }
      ghost var from := i;
      while IsBlank(At(inp, i)) || IsBreak(At(inp, i))
        invariant from <= i <= |inp| && (from < i || IsBlank(At(inp, i)) || IsBreak(At(inp, i)))
        invariant PlainBlanks(at, inp, from, i, col, text, end, b) == ScanPlain(at, inp, column)
        decreases |inp| - i
      {
        if IsBlank(At(inp, i)) {
          if b.leading && col < at.indent && At(inp, i) == TAB {
            return PlainBad;
          }
          if !b.leading {
            b := b.(ws := b.ws + [At(inp, i)]);
          }
          i, col := i + 1, col + 1;
        } else {
          b := if b.leading then b.(tb := b.tb + [Line(At(inp, i))])
            else Pending([], b.lb + [Line(At(inp, i))], b.tb, true);
          i, col := AfterBreak(inp, i), 0;
        }
      }
      if !at.inFlow && col < at.indent {
        break;
      }
    }
    r := PlainScanned(text, end, i, b.leading);
  }
}

/** Writing a plain scalar (yaml_emitter_write_plain_scalar). */
module YamlEmitPlain {
  import opened YamlChars
  import opened YamlScanQuoted
  import opened YamlEmitQuoted

  predicate FoldsPlain(st: Style, s: seq<int>, i: nat, pen: Pen, spaces: bool)
  {
    st.allowBreaks && !spaces && pen.column > st.width && At(s, i + 1) != SPACE
  }

  /** What is written for `s[i..]`. */
  function PlainText(st: Style, s: seq<nat>, i: nat, pen: Pen, spaces: bool, breaks: bool): seq<int>
    requires i <= |s|
    decreases |s| - i
  {
    if i == |s| then []
    else if s[i] == SPACE then
      if FoldsPlain(st, s, i, pen, spaces) then
        IndentText(st, pen) + PlainText(st, s, i + 1, IndentPen(st, pen), true, breaks)
      else
        [SPACE] + PlainText(st, s, i + 1, pen.(column := pen.column + 1), true, breaks)
    else if IsBreak(s[i]) then
      BreakText(st, s[i], breaks) + PlainText(st, s, i + 1, pen.(column := 0, indention := true), spaces, true)
    else
      var pen1 := if breaks then IndentPen(st, pen) else pen;
      (if breaks then IndentText(st, pen) else []) + [s[i]]
        + PlainText(st, s, i + 1, pen1.(column := pen1.column + 1, indention := false), false, false)
  }
}

/** Where the analysis allows the plain style, what is written reads back. */
module YamlPlainRoundTrip {
  import opened YamlChars
  import opened YamlScanQuoted
  import opened YamlEmitQuoted
  import opened YamlQuotedRoundTrip
  import opened YamlPlainChars
  import opened YamlScanPlain
  import opened YamlEmitPlain

  /** The scalar may be plain, and its continuation lines are indented deeper than the block around it. */
  ghost predicate PlainSettings(st: Style, at: Place, s: seq<nat>)
  {
    Settings(st) && PlainAllowed(st.unicode, at.inFlow, s) && at.indent <= st.indent
  }

  lemma WordChar(st: Style, at: Place, s: seq<nat>, i: nat)
    requires PlainSettings(st, at, s) && i < |s|
    ensures s[i] == SPACE || StartsWord(s[i])
    ensures !BlockIndicatorAt(s, i) && (at.inFlow ==> s[i] != COLON && !FlowIndicator(s[i]))
  {
    assert !SpecialAt(st.unicode, s, i) && !IsBreak(s[i]);
    assert if at.inFlow then !FlowIndicatorAt(s, i) else !BlockIndicatorAt(s, i);
  }

  /** The text begins with the first character of a word. */
  lemma WordText(inp: seq<int>, p: nat, st: Style, at: Place, s: seq<nat>, i: nat, pen: Pen, spaces: bool, end: nat)
    requires PlainSettings(st, at, s) && i < |s| && s[i] != SPACE
      && Upto(inp, p, PlainText(st, s, i, pen, spaces, false), end)
    ensures p < |inp| && At(inp, p) == s[i]
    ensures Upto(inp, p + 1, PlainText(st, s, i + 1, pen.(column := pen.column + 1, indention := false), false, false),
                 end)
  {
    WordChar(st, at, s, i);
    var tail := PlainText(st, s, i + 1, pen.(column := pen.column + 1, indention := false), false, false);
    assert [] + [s[i]] + tail == [s[i]] + tail;
    UptoSplit(inp, p, [s[i]], tail, end);
    HasAt(inp, p, [s[i]], 0);
  }

  /** No character of the value ends the scalar or is an error. */
  lemma WordGoesOn(inp: seq<int>, p: nat, st: Style, at: Place, s: seq<nat>, i: nat, pen: Pen, spaces: bool, end: nat)
    requires PlainSettings(st, at, s) && i < |s| && s[i] != SPACE
      && Upto(inp, p, PlainText(st, s, i, pen, spaces, false), end)
    ensures !UnexpectedColon(at, inp, p) && !EndsWord(at, inp, p)
  {
    WordChar(st, at, s, i);
    WordText(inp, p, st, at, s, i, pen, spaces, end);
    if s[i] == COLON {
      assert !IsBlankZ(At(s, i + 1));
      WordText(inp, p + 1, st, at, s, i + 1, pen.(column := pen.column + 1, indention := false), false, end);
    }
  }

  /** One character of a word, with the blanks before it. */
  lemma StepPlain(at: Place, inp: seq<int>, p: nat, column: nat, acc: seq<int>, mark: nat, b: Pending)
    requires p < |inp| && StartsWord(At(inp, p)) && !UnexpectedColon(at, inp, p) && !EndsWord(at, inp, p)
    ensures PlainWord(at, inp, p, column, acc, mark, b)
         == PlainWord(at, inp, p + 1, column + 1, acc + Blanks(b) + [At(inp, p)], p + 1, Nothing)
  {
  }

  /** The scanner is at the start of, or inside, a word; with the blanks before it, it has the first `i` characters. */
  lemma {:induction false} PlainChar(inp: seq<int>, p: nat, st: Style, at: Place, s: seq<nat>, i: nat, pen: Pen,
                                     spaces: bool, column: nat, end: nat, acc: seq<int>, mark: nat, b: Pending)
                                       returns (column': nat)
    requires PlainSettings(st, at, s) && i < |s| && s[i] != SPACE && acc + Blanks(b) == s[..i]
    requires Upto(inp, p, PlainText(st, s, i, pen, spaces, false), end) && at.indent <= column + 1
    ensures end <= |inp|
      && PlainWord(at, inp, p, column, acc, mark, b) == PlainWord(at, inp, end, column', s, end, Nothing)
    decreases |s| - i, 2
  {
    WordChar(st, at, s, i);
    WordText(inp, p, st, at, s, i, pen, spaces, end);
    WordGoesOn(inp, p, st, at, s, i, pen, spaces, end);
    StepPlain(at, inp, p, column, acc, mark, b);
    assert s[..i] + [s[i]] == s[..i + 1];
    column' := PlainRest(inp, p + 1, st, at, s, i + 1, pen.(column := pen.column + 1, indention := false), column + 1,
                         end);
  }

  /** The scanner is after a character of a word. */
  lemma {:induction false} PlainRest(inp: seq<int>, p: nat, st: Style, at: Place, s: seq<nat>, i: nat, pen: Pen,
                                     column: nat, end: nat)
    returns (column': nat)
    requires PlainSettings(st, at, s) && i <= |s| && !pen.indention && at.indent <= column && column > 0
    requires Upto(inp, p, PlainText(st, s, i, pen, false, false), end)
    ensures end <= |inp|
      && PlainWord(at, inp, p, column, s[..i], p, Nothing) == PlainWord(at, inp, end, column', s, end, Nothing)
    decreases |s| - i, 3
  {
    if i == |s| {
      assert s[..i] == s;
      column' := column;
    } else if s[i] == SPACE && FoldsPlain(st, s, i, pen, false) {
      column' := PlainFold(inp, p, st, at, s, i, pen, column, end);
    } else if s[i] == SPACE {
      column' := PlainSpace(inp, p, st, at, s, i, pen, column, end);
    } else {
      assert s[..i] + Blanks(Nothing) == s[..i];
      column' := PlainChar(inp, p, st, at, s, i, pen, false, column, end, s[..i], p, Nothing);
    }
  }

  /** After blanks a word of the value goes on with the scalar. */
  lemma ResumePlain(at: Place, inp: seq<int>, from: nat, p: nat, st: Style, s: seq<nat>, i: nat, column: nat,
                    acc: seq<int>, mark: nat, b: Pending)
    requires PlainSettings(st, at, s) && 0 < i < |s| && s[i] != SPACE && s[i - 1] == SPACE && from < p < |inp|
      && At(inp, p) == s[i]
    requires at.indent <= column && column > 0
    ensures PlainBlanks(at, inp, from, p, column, acc, mark, b) == PlainWord(at, inp, p, column, acc, mark, b)
  {
    WordChar(st, at, s, i);
  }

  lemma FoldText(inp: seq<int>, p: nat, st: Style, at: Place, s: seq<nat>, i: nat, pen: Pen, end: nat)
    requires PlainSettings(st, at, s) && i < |s| && !pen.indention && s[i] == SPACE && FoldsPlain(st, s, i, pen, false)
    requires Upto(inp, p, PlainText(st, s, i, pen, false, false), end)
    ensures var q := p + |st.lineBreak| + st.indent;
      && Has(inp, p, st.lineBreak + Spaces(st.indent))
      && Upto(inp, q, PlainText(st, s, i + 1, IndentPen(st, pen), true, false), end)
      && i + 1 < |s| && s[i + 1] != SPACE && q < |inp| && At(inp, q) == s[i + 1] && StartsWord(s[i + 1])
  {
    FoldSplit(inp, p, st, s, i, pen, end);
    AfterSpace(st, at, s, i);
    WordText(inp, p + |st.lineBreak| + st.indent, st, at, s, i + 1, IndentPen(st, pen), true, end);
  }

  lemma FoldSplit(inp: seq<int>, p: nat, st: Style, s: seq<nat>, i: nat, pen: Pen, end: nat)
    requires i < |s| && !pen.indention && s[i] == SPACE && FoldsPlain(st, s, i, pen, false)
    requires Upto(inp, p, PlainText(st, s, i, pen, false, false), end)
    ensures Has(inp, p, st.lineBreak + Spaces(st.indent))
    ensures Upto(inp, p + |st.lineBreak| + st.indent, PlainText(st, s, i + 1, IndentPen(st, pen), true, false), end)
  {
    var fold, tail := st.lineBreak + Spaces(st.indent), PlainText(st, s, i + 1, IndentPen(st, pen), true, false);
    assert PlainText(st, s, i, pen, false, false) == fold + tail;
    UptoSplit(inp, p, fold, tail, end);
  }

  /** A space of the value that no space follows is followed by a word. */
  lemma AfterSpace(st: Style, at: Place, s: seq<nat>, i: nat)
    requires PlainSettings(st, at, s) && i < |s| && s[i] == SPACE && At(s, i + 1) != SPACE
    ensures i + 1 < |s| && s[i + 1] != SPACE && StartsWord(s[i + 1])
  {
    assert i != |s| - 1;
    WordChar(st, at, s, i + 1);
  }

  lemma {:induction false} PlainFold(inp: seq<int>, p: nat, st: Style, at: Place, s: seq<nat>, i: nat, pen: Pen,
                                     column: nat, end: nat)
    returns (column': nat)
    requires PlainSettings(st, at, s) && i < |s| && !pen.indention && s[i] == SPACE && FoldsPlain(st, s, i, pen, false)
    requires Upto(inp, p, PlainText(st, s, i, pen, false, false), end)
    ensures end <= |inp|
      && PlainWord(at, inp, p, column, s[..i], p, Nothing) == PlainWord(at, inp, end, column', s, end, Nothing)
    decreases |s| - i, 2
  {
    var fold, pen1, b := st.lineBreak + Spaces(st.indent), IndentPen(st, pen), Pending([], [LF], [], true);
    var q := p + |fold|;
    FoldText(inp, p, st, at, s, i, pen, end);
    LineRead(at, inp, p, st, st.indent, column, s[..i], p);
    ResumePlain(at, inp, p, q, st, s, i + 1, st.indent, s[..i], p, b);
    assert s[..i] + Blanks(b) == s[..i + 1];
    column' := PlainChar(inp, q, st, at, s, i + 1, pen1, true, st.indent, end, s[..i], p, b);
  }

  lemma {:induction false} SkipPlainSpaces(at: Place, inp: seq<int>, from: nat, p: nat, n: nat, column: nat,
                                           acc: seq<int>, mark: nat, b: Pending)
    requires Has(inp, p, Spaces(n)) && from < p && b.leading
    ensures PlainBlanks(at, inp, from, p, column, acc, mark, b)
      == PlainBlanks(at, inp, from, p + n, column + n, acc, mark, b)
    decreases n
  {
    if n > 0 {
      assert Spaces(n) == [SPACE] + Spaces(n - 1);
      HasSplit(inp, p, [SPACE], Spaces(n - 1));
      HasAt(inp, p, [SPACE], 0);
      SkipPlainSpaces(at, inp, from, p + 1, n - 1, column + 1, acc, mark, b);
    }
  }

  /** The first space of a run that stays on its line. */
  lemma {:induction false} PlainSpace(inp: seq<int>, p: nat, st: Style, at: Place, s: seq<nat>, i: nat, pen: Pen,
                                      column: nat, end: nat)
    returns (column': nat)
    requires PlainSettings(st, at, s) && i < |s| && s[i] == SPACE && !FoldsPlain(st, s, i, pen, false)
    requires Upto(inp, p, PlainText(st, s, i, pen, false, false), end) && at.indent <= column && column > 0
    ensures end <= |inp|
      && PlainWord(at, inp, p, column, s[..i], p, Nothing) == PlainWord(at, inp, end, column', s, end, Nothing)
    decreases |s| - i, 2
  {
    SpaceText(inp, p, st, s, i, pen, false, end);
    assert [] + [SPACE] == Spaces(1) == s[i..i + 1] && s[..i] == s[..i + 1 - 1];
    column' := PlainRun(inp, p, p + 1, st, at, s, i + 1, pen.(column := pen.column + 1), 1, column + 1, end, p);
  }

  lemma SpaceText(inp: seq<int>, p: nat, st: Style, s: seq<nat>, i: nat, pen: Pen, spaces: bool, end: nat)
    requires i < |s| && s[i] == SPACE && !FoldsPlain(st, s, i, pen, spaces)
      && Upto(inp, p, PlainText(st, s, i, pen, spaces, false), end)
    ensures p < |inp| && At(inp, p) == SPACE
    ensures Upto(inp, p + 1, PlainText(st, s, i + 1, pen.(column := pen.column + 1), true, false), end)
  {
    UptoSplit(inp, p, [SPACE], PlainText(st, s, i + 1, pen.(column := pen.column + 1), true, false), end);
    HasAt(inp, p, [SPACE], 0);
  }

  /** `k` spaces have been read. */
  lemma {:induction false} PlainRun(inp: seq<int>, from: nat, p: nat, st: Style, at: Place, s: seq<nat>, i: nat,
                                    pen: Pen, k: nat, column: nat, end: nat, mark: nat) returns (column': nat)
    requires PlainSettings(st, at, s) && 0 < k <= i <= |s| && at.indent <= column && column > 0
    requires from < p && s[i - k..i] == Spaces(k) && Upto(inp, p, PlainText(st, s, i, pen, true, false), end)
    ensures end <= |inp|
    ensures PlainBlanks(at, inp, from, p, column, s[..i - k], mark, Pending(Spaces(k), [], [], false))
         == PlainWord(at, inp, end, column', s, end, Nothing)
    decreases |s| - i, 4
  {
    assert s[i - 1] == s[i - k..i][k - 1] == SPACE;
    assert i < |s|;
    if s[i] == SPACE {
      SpaceText(inp, p, st, s, i, pen, true, end);
      assert Spaces(k) + [SPACE] == Spaces(k + 1);
      SpacesGrow(s, i, k);
      column' := PlainRun(inp, from, p + 1, st, at, s, i + 1, pen.(column := pen.column + 1), k + 1, column + 1, end,
                          mark);
    } else {
      WordText(inp, p, st, at, s, i, pen, true, end);
      ResumePlain(at, inp, from, p, st, s, i, column, s[..i - k], mark, Pending(Spaces(k), [], [], false));
      SpacesTaken(s, i, k);
      column' := PlainChar(inp, p, st, at, s, i, pen, true, column, end, s[..i - k], mark,
                           Pending(Spaces(k), [], [], false));
    }
  }

  // The beginning and the end.

  /** A dash or a dot in the text is one in the value. */
  lemma SameChar(inp: seq<int>, p: nat, st: Style, at: Place, s: seq<nat>, i: nat, pen: Pen, end: nat, c: int)
    requires PlainSettings(st, at, s) && i <= |s| && !pen.indention
      && Upto(inp, p, PlainText(st, s, i, pen, false, false), end)
    requires (c == DASH || c == DOT) && At(inp, p) == c && At(inp, end) != c
    ensures i < |s| && s[i] == c
  {
    if i < |s| && s[i] == SPACE {
      if FoldsPlain(st, s, i, pen, false) {
        UptoSplit(inp, p, st.lineBreak + Spaces(st.indent), PlainText(st, s, i + 1, IndentPen(st, pen), true, false),
                  end);
        HasAt(inp, p, st.lineBreak + Spaces(st.indent), 0);
      } else {
        SpaceText(inp, p, st, s, i, pen, false, end);
      }
    } else if i < |s| {
      WordText(inp, p, st, at, s, i, pen, false, end);
    }
  }

  lemma NoMarker(inp: seq<int>, st: Style, at: Place, s: seq<nat>, pen: Pen, end: nat)
    requires PlainSettings(st, at, s) && Upto(inp, 0, PlainText(st, s, 0, pen, false, false), end)
    requires At(inp, end) != DASH && At(inp, end) != DOT
    ensures !DocumentIndicator(inp, 0)
  {
    WordText(inp, 0, st, at, s, 0, pen, false, end);
    var c, pen1 := At(inp, 0), pen.(column := pen.column + 1, indention := false);
    if (c == DASH || c == DOT) && At(inp, 1) == c && At(inp, 2) == c {
      SameChar(inp, 1, st, at, s, 1, pen1, end, c);
      WordText(inp, 1, st, at, s, 1, pen1, false, end);
      SameChar(inp, 2, st, at, s, 2, pen1.(column := pen1.column + 1), end, c);
    }
  }

  /** The scanner takes the text for a plain scalar. */
  lemma TakenForPlain(inp: seq<int>, st: Style, at: Place, s: seq<nat>, pen: Pen, end: nat, column: nat)
    requires PlainSettings(st, at, s) && Upto(inp, 0, PlainText(st, s, 0, pen, false, false), end)
    requires At(inp, end) != DASH && At(inp, end) != DOT
    ensures Dispatch(at.inFlow, inp, column) == PlainKind
  {
    NoMarker(inp, st, at, s, pen, end);
    WordText(inp, 0, st, at, s, 0, pen, false, end);
    WordChar(st, at, s, 0);
    assert at.inFlow ==> !FlowIndicatorAt(s, 0);
    if s[0] == DASH || s[0] == QUESTION || s[0] == COLON {
      assert !IsBlankZ(At(s, 1));
      WordText(inp, 1, st, at, s, 1, pen.(column := pen.column + 1, indention := false), false, end);
    }
  }

  /** The whole text has been read. */
  lemma PlainRead(inp: seq<int>, st: Style, at: Place, s: seq<nat>, pen: Pen, end: nat, column: nat)
    returns (column': nat)
    requires PlainSettings(st, at, s) && Upto(inp, 0, PlainText(st, s, 0, pen, false, false), end)
      && at.indent <= column + 1
    requires At(inp, end) != DASH && At(inp, end) != DOT
    ensures Dispatch(at.inFlow, inp, column) == PlainKind
    ensures end <= |inp| && ScanPlain(at, inp, column) == PlainWord(at, inp, end, column', s, end, Nothing)
  {
    TakenForPlain(inp, st, at, s, pen, end, column);
    NoMarker(inp, st, at, s, pen, end);
    WordText(inp, 0, st, at, s, 0, pen, false, end);
    WordChar(st, at, s, 0);
    assert [] + Blanks(Nothing) == s[..0];
    column' := PlainChar(inp, 0, st, at, s, 0, pen, false, column, end, [], 0, Nothing);
  }

  /** What ends a plain scalar at once: the end of the stream, the colon after a key, an indicator in a flow
      collection. */
  predicate EndsPlain(at: Place, rest: seq<int>)
  {
    At(rest, 0) == 0 || EndsWord(at, rest, 0)
  }

  lemma Followed(text: seq<int>, rest: seq<int>)
    ensures Upto(text + rest, 0, text, |text|) && forall j: nat :: At(text + rest, |text| + j) == At(rest, j)
  {
  }

  /** Where the plain style is allowed, the scanner takes the text for a plain scalar and reads the value. */
  lemma PlainRoundTrip(st: Style, at: Place, s: seq<nat>, pen: Pen, rest: seq<int>, column: nat)
    requires PlainSettings(st, at, s) && EndsPlain(at, rest) && at.indent <= column + 1
    ensures var text := PlainText(st, s, 0, pen, false, false);
      && Dispatch(at.inFlow, text + rest, column) == PlainKind
      && ScanPlain(at, text + rest, column) == PlainScanned(s, |text|, |text|, false)
  {
    var text := PlainText(st, s, 0, pen, false, false);
    Followed(text, rest);
    assert At(text + rest, |text| + 0) == At(rest, 0) && At(text + rest, |text| + 1) == At(rest, 1);
    var column' := PlainRead(text + rest, st, at, s, pen, |text|, column);
  }

  /** A line that is not indented deeper than the block around the scalar ends it, too. */
  lemma PlainThenLine(st: Style, at: Place, s: seq<nat>, pen: Pen, k: nat, more: seq<int>, column: nat)
    requires PlainSettings(st, at, s) && !at.inFlow && k < at.indent <= column + 1
    requires !IsBlank(At(more, 0)) && !IsBreak(At(more, 0))
    ensures var text, line := PlainText(st, s, 0, pen, false, false), st.lineBreak + Spaces(k);
      && Dispatch(false, text + (line + more), column) == PlainKind
      && ScanPlain(at, text + (line + more), column) == PlainScanned(s, |text|, |text| + |line|, true)
  {
    var text, line := PlainText(st, s, 0, pen, false, false), st.lineBreak + Spaces(k);
    var inp := text + (line + more);
    Followed(text, line + more);
    Followed(line, more);
    assert At(inp, |text| + 0) == At(line + more, 0);
    var column' := PlainRead(inp, st, at, s, pen, |text|, column);
    LineRead(at, inp, |text|, st, k, column', s, |text|);
    assert At(inp, |text| + (|line| + 0)) == At(line + more, |line| + 0) == At(more, 0);
  }

  lemma LineRead(at: Place, inp: seq<int>, p: nat, st: Style, k: nat, column: nat, acc: seq<int>, mark: nat)
    requires Settings(st) && Has(inp, p, st.lineBreak + Spaces(k)) && !IsBreak(At(inp, p + |st.lineBreak| + k))
    ensures var q := p + |st.lineBreak| + k;
      q <= |inp| && PlainWord(at, inp, p, column, acc, mark, Nothing)
                 == PlainBlanks(at, inp, p, q, k, acc, mark, Pending([], [LF], [], true))
  {
    var q := p + |st.lineBreak|;
    HasSplit(inp, p, st.lineBreak, Spaces(k));
    if k > 0 {
      HasAt(inp, q, Spaces(k), 0);
    }
    ReadLineBreak(inp, p, st.lineBreak);
    assert [] + [LF] == [LF];
    SkipPlainSpaces(at, inp, p, q, k, 0, acc, mark, Pending([], [LF], [], true));
  }
}
