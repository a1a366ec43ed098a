/** The emitter's quoted writers, working in place on its buffer and pen (emitter.c). */
module YamlEmitter {
  import opened Wrappers
  import opened YamlChars
  import opened YamlPlainChars
  import opened YamlScanPlain
  import opened YamlEmitPlain
  import opened YamlPlainRoundTrip
  import opened YamlEmitQuoted
  import opened YamlScanQuoted
  import opened YamlQuotedRoundTrip

  datatype ScalarStyle = Any | Plain | SingleQuoted | DoubleQuoted | Literal | Folded

  /** What the analysis finds out about a scalar. */
  datatype Analysis = Analysis(multiline: bool, flowPlain: bool, blockPlain: bool, singleAllowed: bool,
                               blockAllowed: bool)

  /** What decides the style besides the analysis. */
  datatype Context = Context(canonical: bool, simpleKey: bool, inFlow: bool, noTag: bool, plainImplicit: bool,
                             quotedImplicit: bool)

  /** The style a scalar is written in; none if nothing says how its tag is to be found. */
  function SelectStyle(wanted: ScalarStyle, a: Analysis, empty: bool, c: Context): (r: Option<ScalarStyle>)
    ensures r.None? <==> c.noTag && !c.plainImplicit && !c.quotedImplicit
    ensures r.Some? ==> r.value != Any
    ensures r == Some(SingleQuoted) ==>
      a.singleAllowed && wanted != Literal && wanted != Folded && wanted != DoubleQuoted
    ensures r.Some? && (c.canonical || (c.simpleKey && a.multiline)) ==> r.value == DoubleQuoted
    ensures r == Some(Literal) || r == Some(Folded) ==> r.value == wanted && a.blockAllowed && !c.inFlow && !c.simpleKey
    ensures r == Some(Plain) ==>
      (if c.inFlow then a.flowPlain else a.blockPlain) && !(empty && (c.inFlow || c.simpleKey))
    ensures r == Some(Plain) && c.noTag ==> c.plainImplicit
    ensures r.Some? && wanted == SingleQuoted && a.singleAllowed && !c.canonical && !(c.simpleKey && a.multiline) ==>
      r.value == SingleQuoted
  {
    if c.noTag && !c.plainImplicit && !c.quotedImplicit then None
    else
      var plain := if c.inFlow then a.flowPlain else a.blockPlain;
      var s0 := if wanted == Any then Plain else wanted;
      var s1 := if c.canonical || (c.simpleKey && a.multiline) then DoubleQuoted else s0;
      var s2 := if s1 == Plain && (!plain || (empty && (c.inFlow || c.simpleKey)) || (c.noTag && !c.plainImplicit))
                then SingleQuoted else s1;
      var s3 := if s2 == SingleQuoted && !a.singleAllowed then DoubleQuoted else s2;
      Some(if (s3 == Literal || s3 == Folded) && (!a.blockAllowed || c.inFlow || c.simpleKey) then DoubleQuoted else s3)
  }

  /** A scalar whose tag only its plain form would imply gets the tag `!` when it is not plain. */
  predicate NeedsMark(style: ScalarStyle, c: Context)
  {
    c.noTag && !c.quotedImplicit && style != Plain
  }

  predicate BreakSpaceAt(s: seq<nat>, i: nat)
    requires i + 1 < |s|
  {
    IsBreak(s[i]) && s[i + 1] == SPACE
  }

  predicate SpaceBreakAt(s: seq<nat>, i: nat)
    requires i + 1 < |s|
  {
    s[i] == SPACE && IsBreak(s[i + 1])
  }

  /** No break follows a space, no character is special and the last one is not a space. */
  ghost predicate BlockAllowed(unicode: bool, s: seq<nat>)
    requires s != []
  {
    && s[|s| - 1] != SPACE
    && (forall j :: 0 <= j < |s| ==> !SpecialAt(unicode, s, j))
    && (forall j :: 0 <= j < |s| - 1 ==> !SpaceBreakAt(s, j))
  }

  /** The flags that the pass over the value has set. */
  datatype Findings = Findings(flow: bool, block: bool, breaks: bool, special: bool, breakSpace: bool, spaceBreak: bool)

  /** What has been found when the first `i` characters are read. */
  ghost predicate Found(f: Findings, unicode: bool, s: seq<nat>, i: nat)
    requires i <= |s|
  {
    && (f.flow <==> MarkerStart(s) || exists j :: 0 <= j < i && FlowIndicatorAt(s, j))
    && (f.block <==> MarkerStart(s) || exists j :: 0 <= j < i && BlockIndicatorAt(s, j))
    && (f.breaks <==> exists j :: 0 <= j < i && IsBreak(s[j]))
    && (f.special <==> exists j :: 0 <= j < i && SpecialAt(unicode, s, j))
    && (f.breakSpace <==> exists j :: 0 <= j < i - 1 && BreakSpaceAt(s, j))
    && (f.spaceBreak <==> exists j :: 0 <= j < i - 1 && SpaceBreakAt(s, j))
  }

  function FindingsAfter(f: Findings, unicode: bool, s: seq<nat>, i: nat): Findings
    requires i < |s|
  {
    Findings(f.flow || FlowIndicatorAt(s, i), f.block || BlockIndicatorAt(s, i), f.breaks || IsBreak(s[i]),
             f.special || SpecialAt(unicode, s, i), f.breakSpace || (i > 0 && BreakSpaceAt(s, i - 1)),
             f.spaceBreak || (i > 0 && SpaceBreakAt(s, i - 1)))
  }

  lemma FoundMore(f: Findings, unicode: bool, s: seq<nat>, i: nat)
    requires i < |s| && Found(f, unicode, s, i)
    ensures Found(FindingsAfter(f, unicode, s, i), unicode, s, i + 1)
  {
  }

  /** One turn of the pass: what the character at `i` adds, with its neighbours as the flags tell them. */
  method Inspect(unicode: bool, s: seq<nat>, i: nat, f: Findings, preceded: bool, followed: bool, previousSpace: bool,
                 previousBreak: bool)
    returns (f': Findings)
    requires i < |s| && preceded == (i == 0 || IsBlankZ(s[i - 1])) && followed == IsBlankZ(At(s, i + 1))
    requires previousSpace == (i > 0 && s[i - 1] == SPACE) && previousBreak == (i > 0 && IsBreak(s[i - 1]))
    ensures f' == FindingsAfter(f, unicode, s, i)
  {
    var c := s[i];
    var flow, block, special, breaks, breakSpace, spaceBreak := f.flow, f.block, f.special, f.breaks, f.breakSpace,
      f.spaceBreak;
    if i == 0 {
      if FirstIndicator(c) {
        flow, block := true, true;
      }
      if c == QUESTION || c == COLON {
        flow := true;
        if followed {
          block := true;
        }
      }
      if c == DASH && followed {
        flow, block := true, true;
      }
    } else {
      if FlowIndicator(c) || c == QUESTION {
        flow := true;
      }
      if c == COLON {
        flow := true;
        if followed {
          block := true;
        }
      }
      if c == HASH && preceded {
        flow, block := true, true;
      }
    }
    if !IsPrintable(c) || (!IsAscii(c) && !unicode) {
      special := true;
    }
    if IsBreak(c) {
      breaks := true;
    }
    if c == SPACE && previousBreak {
      breakSpace := true;
    } else if IsBreak(c) && previousSpace {
      spaceBreak := true;
    }
    f' := Findings(flow, block, breaks, special, breakSpace, spaceBreak);
  }

  /** One pass over the value that decides which styles it may have. */
  method AnalyzeScalar(unicode: bool, s: seq<nat>) returns (a: Analysis)
    ensures a.multiline <==> exists i :: 0 <= i < |s| && IsBreak(s[i])
    ensures a.flowPlain <==> s != [] && PlainAllowed(unicode, true, s)
    ensures a.blockPlain <==> s == [] || PlainAllowed(unicode, false, s)
    ensures a.singleAllowed <==> SingleAllowed(unicode, s)
    ensures a.blockAllowed <==> s != [] && BlockAllowed(unicode, s)
  {
    if s == [] {
      return Analysis(false, false, true, true, false);
    }
    var marker := (At(s, 0) == DASH && At(s, 1) == DASH && At(s, 2) == DASH)
      || (At(s, 0) == DOT && At(s, 1) == DOT && At(s, 2) == DOT);
    var f := Findings(marker, marker, false, false, false, false);
    var preceded, followed, previousSpace, previousBreak := true, IsBlankZ(At(s, 1)), false, false;
    var i := 0;
    while i < |s|
      invariant 0 <= i <= |s| && Found(f, unicode, s, i)
      invariant preceded == (i == 0 || IsBlankZ(s[i - 1])) && (i < |s| ==> followed == IsBlankZ(At(s, i + 1)))
      invariant previousSpace == (i > 0 && s[i - 1] == SPACE) && previousBreak == (i > 0 && IsBreak(s[i - 1]))
    {
      FoundMore(f, unicode, s, i);
      f := Inspect(unicode, s, i, f, preceded, followed, previousSpace, previousBreak);
      previousSpace, previousBreak, preceded := s[i] == SPACE, IsBreak(s[i]), IsBlankZ(s[i]);
      i := i + 1;
      if i < |s| {
        followed := IsBlankZ(At(s, i + 1));
      }
    }
    var last := |s| - 1;
    var edge := s[0] == SPACE || IsBreak(s[0]) || s[last] == SPACE || IsBreak(s[last]);
    var plain := !edge && !f.breakSpace && !f.spaceBreak && !f.special && !f.breaks;
    a := Analysis(f.breaks, plain && !f.flow, plain && !f.block, !f.breakSpace && !f.spaceBreak && !f.special,
                  s[last] != SPACE && !f.spaceBreak && !f.special);
    FoundDecides(f, unicode, s);
  }

  lemma FoundDecides(f: Findings, unicode: bool, s: seq<nat>)
    requires s != [] && Found(f, unicode, s, |s|)
    ensures SingleAllowed(unicode, s) <==> !f.breakSpace && !f.spaceBreak && !f.special
    ensures BlockAllowed(unicode, s) <==> s[|s| - 1] != SPACE && !f.spaceBreak && !f.special
    ensures var plain := s[0] != SPACE && s[|s| - 1] != SPACE && !f.special && !f.breaks;
      && (PlainAllowed(unicode, true, s) <==> plain && !f.flow)
      && (PlainAllowed(unicode, false, s) <==> plain && !f.block)
    ensures !f.breaks ==> !f.breakSpace && !f.spaceBreak && !IsBreak(s[0]) && !IsBreak(s[|s| - 1])
  {
    AnalysisDecides(unicode, s);
    if !f.breaks {
      forall j | 0 <= j < |s| - 1 ensures !BreakSpaceAt(s, j) && !SpaceBreakAt(s, j) {
        assert !IsBreak(s[j]) && !IsBreak(s[j + 1]);
      }
    }
  }

  lemma AnalysisDecides(unicode: bool, s: seq<nat>)
    ensures SingleAllowed(unicode, s)
       <==> && !(exists j :: 0 <= j < |s| && SpecialAt(unicode, s, j))
            && !(exists j :: 0 <= j < |s| - 1 && BreakSpaceAt(s, j))
            && !(exists j :: 0 <= j < |s| - 1 && SpaceBreakAt(s, j))
  {
    if SingleAllowed(unicode, s) {
      assert forall j :: 0 <= j < |s| ==> !SpecialAt(unicode, s, j);
    } else if exists j :: 0 <= j < |s| && !(IsPrintable(s[j]) && (unicode || IsAscii(s[j]))) {
      var j :| 0 <= j < |s| && !(IsPrintable(s[j]) && (unicode || IsAscii(s[j])));
      assert SpecialAt(unicode, s, j);
    } else {
      var j :| 0 <= j < |s| - 1 && !(!(IsBreak(s[j]) && s[j + 1] == SPACE) && !(s[j] == SPACE && IsBreak(s[j + 1])));
      assert BreakSpaceAt(s, j) || SpaceBreakAt(s, j);
    }
  }

  /** A character of a single-quoted word. */
  function Doubled(c: int): seq<int>
  {
    if c == SINGLE_QUOTE then [SINGLE_QUOTE, SINGLE_QUOTE] else [c]
  }

  /** What separates an indicator from the text before it. */
  function Gap(whitespace: bool): seq<int>
  {
    if whitespace then [] else [SPACE]
  }

  /** The tag `!`, where the scalar needs it. */
  function Mark(whitespace: bool, marked: bool): seq<int>
  {
    if marked then Gap(whitespace) + [0x21] else []
  }

  /** The pen after the opening quote. */
  function Opened(pen: Pen): Pen
  {
    Pen(pen.column + 1 + |Gap(pen.whitespace)|, false, false)
  }

  class Emitter {
    const bestIndent: nat
    const bestWidth: int
    const unicode: bool
    const lineBreak: seq<int>

    var buffer: seq<int>  // everything written, flushed or not
    var column: nat
    var whitespace: bool
    var indention: bool
    var indent: int
    var indents: seq<int>

    ghost predicate Valid()
      reads this
    {
      2 <= bestIndent <= 9 && IsLineBreak(lineBreak) && indent >= -1
    }

    /** The settings as the beginning of a stream leaves them. */
    constructor (wantedIndent: int, wantedWidth: int, unicode: bool, lineBreak: seq<int>)
      requires lineBreak == [] || IsLineBreak(lineBreak)
      ensures Valid() && buffer == [] && indent == -1 && indents == [] && column == 0 && whitespace && indention
      ensures this.unicode == unicode
      ensures this.lineBreak == if lineBreak == [] then [LF] else lineBreak
      ensures bestIndent == if 2 <= wantedIndent <= 9 then wantedIndent else 2
      ensures bestWidth == if wantedWidth < 0 then 0x7FFF_FFFF else if wantedWidth <= 2 * bestIndent then 80
        else wantedWidth
    {
      var best := if wantedIndent < 2 || wantedIndent > 9 then 2 else wantedIndent;
      bestIndent := best;
      bestWidth := if 0 <= wantedWidth <= best * 2 then 80 else if wantedWidth < 0 then 0x7FFF_FFFF else wantedWidth;
      this.unicode := unicode;
      this.lineBreak := if lineBreak == [] then [LF] else lineBreak;
      buffer, column, whitespace, indention, indent, indents := [], 0, true, true, -1, [];
    }

    function PenNow(): Pen
      reads this
    {
      Pen(column, whitespace, indention)
    }

    function StyleNow(allowBreaks: bool): Style
      reads this
    {
      Style(if indent >= 0 then indent else 0, bestWidth, unicode, lineBreak, allowBreaks)
    }

    method Put(c: int)
      modifies this`buffer, this`column
      ensures buffer == old(buffer) + [c] && column == old(column) + 1
    {
      buffer, column := buffer + [c], column + 1;
    }

    method PutBreak()
      modifies this`buffer, this`column
      ensures buffer == old(buffer) + lineBreak && column == 0
    {
      buffer, column := buffer + lineBreak, 0;
    }

    method WriteBreak(c: int)
      modifies this`buffer, this`column
      ensures buffer == old(buffer) + (if c == LF then lineBreak else [c]) && column == 0
    {
      if c == LF {
        PutBreak();
      } else {
        buffer, column := buffer + [c], 0;
      }
    }

    method WriteIndent(ghost st: Style)
      requires st == StyleNow(st.allowBreaks)
      modifies this`buffer, this`column, this`whitespace, this`indention
      ensures buffer == old(buffer) + IndentText(st, old(PenNow())) && PenNow() == IndentPen(st, old(PenNow()))
    {
      var target := if indent >= 0 then indent else 0;
      if !indention || column > target || (column == target && !whitespace) {
        PutBreak();
      }
      ghost var begun, from := buffer, column;
      while column < target
        invariant from <= column && (column <= target || column == from)
        invariant buffer == begun + Spaces(column - from)
      {
        Put(SPACE);
        assert Spaces(column - from) == Spaces(column - from - 1) + [SPACE];
      }
      whitespace, indention := true, true;
    }

    method WriteIndicator(c: int, needWhitespace: bool)
      modifies this`buffer, this`column, this`whitespace, this`indention
      ensures buffer == old(buffer) + Gap(!needWhitespace || old(whitespace)) + [c]
      ensures PenNow() == Pen(old(column) + 1 + |Gap(!needWhitespace || old(whitespace))|, false, false)
    {
      if needWhitespace && !whitespace {
        Put(SPACE);
      }
      Put(c);
      whitespace, indention := false, false;
    }

    method WriteEscape(c: nat)
      modifies this`buffer, this`column
      ensures buffer == old(buffer) + EscapeText(c) && column == old(column) + |EscapeText(c)|
    {
      Put(BACKSLASH);
      var letter := ShortEscape(c);
      if letter >= 0 {
        Put(letter);
      } else {
        var width := EscapeWidth(c);
        Put(if width == 2 then 0x78 else if width == 4 then 0x75 else 0x55);
        WriteHex(c, width);
      }
    }

    method WriteHex(c: nat, width: nat)
      modifies this`buffer, this`column
      ensures buffer == old(buffer) + HexDigits(c, width) && column == old(column) + width
    {
      var k := width;
      while k > 0
        invariant 0 <= k <= width
        invariant buffer == old(buffer) + HexDigits(Shifted(c, k), width - k) && column == old(column) + (width - k)
      {
        k := k - 1;
        LastDigit(Shifted(c, k), width - k);
        Put(HexDigit(Nibble(Shifted(c, k))));
      }
    }

    /** One turn of the double-quoted writer's loop. */
    method WriteDoubleChar(s: seq<nat>, i: nat, allowBreaks: bool, spaces: bool) returns (spaces': bool)
      requires i < |s|
      modifies this`buffer, this`column, this`whitespace, this`indention
      ensures buffer + DoubleText(StyleNow(allowBreaks), s, i + 1, PenNow(), spaces')
           == old(buffer) + DoubleText(StyleNow(allowBreaks), s, i, old(PenNow()), spaces)
    {
      ghost var st := StyleNow(allowBreaks);
      ghost var text;
      if MustEscape(StyleNow(allowBreaks), s[i]) {
        WriteEscape(s[i]);
        spaces' := false;
        text := EscapeText(s[i]);
      } else if s[i] == SPACE {
        if allowBreaks && !spaces && column > bestWidth && i != 0 && i + 1 < |s| {
          WriteIndent(st);
          text := IndentText(st, old(PenNow()));
          if s[i + 1] == SPACE {
            Put(BACKSLASH);
            text := text + [BACKSLASH];
          }
        } else {
          Put(s[i]);
          text := [s[i]];
        }
        spaces' := true;
      } else {
        Put(s[i]);
        spaces' := false;
        text := [s[i]];
      }
      assert buffer == old(buffer) + text;
      DoubleTextSteps(st, s, i, old(PenNow()), spaces, text, PenNow(), spaces');
      Regroup(old(buffer), text, DoubleText(st, s, i + 1, PenNow(), spaces'));
    }

    /** The whole double-quoted form is written. */
    method WriteDoubleQuoted(s: seq<nat>, allowBreaks: bool)
      modifies this`buffer, this`column, this`whitespace, this`indention
      ensures buffer == old(buffer) + Gap(old(whitespace))
                     + ([DOUBLE_QUOTE] + DoubleText(StyleNow(allowBreaks), s, 0, Opened(old(PenNow())), false))
      ensures !whitespace && !indention
    {
      WriteIndicator(DOUBLE_QUOTE, true);
      WriteDoubleBody(s, allowBreaks);
      Regroup(old(buffer) + Gap(old(whitespace)), [DOUBLE_QUOTE],
              DoubleText(StyleNow(allowBreaks), s, 0, Opened(old(PenNow())), false));
    }

    /** What follows the opening quote. */
    method WriteDoubleBody(s: seq<nat>, allowBreaks: bool)
      modifies this`buffer, this`column, this`whitespace, this`indention
      ensures buffer == old(buffer) + DoubleText(StyleNow(allowBreaks), s, 0, old(PenNow()), false) && !whitespace
        && !indention
    {
      ghost var st := StyleNow(allowBreaks);
      var spaces, i := false, 0;
      while i < |s|
        invariant 0 <= i <= |s|
        invariant buffer + DoubleText(st, s, i, PenNow(), spaces)
          == old(buffer) + DoubleText(st, s, 0, old(PenNow()), false)
      {
        spaces := WriteDoubleChar(s, i, allowBreaks, spaces);
        i := i + 1;
      }
      WriteIndicator(DOUBLE_QUOTE, false);
      whitespace, indention := false, false;
    }

    /** A character of a word: the indentation after line breaks, and quotes doubled. */
    method WriteSingleWordChar(c: int, breaks: bool, ghost st: Style)
      requires st == StyleNow(st.allowBreaks)
      modifies this`buffer, this`column, this`whitespace, this`indention
      ensures buffer == old(buffer) + ((if breaks then IndentText(st, old(PenNow())) else []) + Doubled(c))
      ensures var pen := if breaks then IndentPen(st, old(PenNow())) else old(PenNow());
        PenNow() == pen.(column := pen.column + |Doubled(c)|)
    {
      if breaks {
        WriteIndent(st);
      }
      if c == SINGLE_QUOTE {
        Put(SINGLE_QUOTE);
      }
      Put(c);
    }

    /** One turn of the single-quoted writer's loop. */
    method WriteSingleChar(s: seq<nat>, i: nat, allowBreaks: bool, spaces: bool, breaks: bool)
      returns (spaces': bool, breaks': bool)
      requires i < |s|
      modifies this`buffer, this`column, this`whitespace, this`indention
      ensures buffer + SingleText(StyleNow(allowBreaks), s, i + 1, PenNow(), spaces', breaks')
           == old(buffer) + SingleText(StyleNow(allowBreaks), s, i, old(PenNow()), spaces, breaks)
    {
      ghost var st := StyleNow(allowBreaks);
      ghost var text;
      spaces', breaks' := spaces, breaks;
      if s[i] == SPACE {
        if allowBreaks && !spaces && column > bestWidth && i != 0 && i + 1 < |s| && s[i + 1] != SPACE {
          WriteIndent(st);
          text := IndentText(st, old(PenNow()));
        } else {
          Put(s[i]);
          text := [SPACE];
        }
        spaces' := true;
      } else if IsBreak(s[i]) {
        if !breaks && s[i] == LF {
          PutBreak();
        }
        WriteBreak(s[i]);
        indention, breaks' := true, true;
        text := BreakText(st, s[i], breaks);
      } else {
        WriteSingleWordChar(s[i], breaks, st);
        indention, spaces', breaks' := false, false, false;
        text := (if breaks then IndentText(st, old(PenNow())) else []) + Doubled(s[i]);
      }
      assert buffer == old(buffer) + text;
      SingleTextSteps(st, s, i, old(PenNow()), spaces, breaks, text, PenNow(), spaces', breaks');
      Regroup(old(buffer), text, SingleText(st, s, i + 1, PenNow(), spaces', breaks'));
    }

    /** The whole single-quoted form is written. */
    method WriteSingleQuoted(s: seq<nat>, allowBreaks: bool)
      modifies this`buffer, this`column, this`whitespace, this`indention
      ensures buffer == old(buffer) + Gap(old(whitespace))
                     + ([SINGLE_QUOTE] + SingleText(StyleNow(allowBreaks), s, 0, Opened(old(PenNow())), false, false))
      ensures !whitespace && !indention
    {
      WriteIndicator(SINGLE_QUOTE, true);
      WriteSingleBody(s, allowBreaks);
      Regroup(old(buffer) + Gap(old(whitespace)), [SINGLE_QUOTE],
              SingleText(StyleNow(allowBreaks), s, 0, Opened(old(PenNow())), false, false));
    }

    /** What follows the opening quote. */
    method WriteSingleBody(s: seq<nat>, allowBreaks: bool)
      modifies this`buffer, this`column, this`whitespace, this`indention
      ensures buffer == old(buffer) + SingleText(StyleNow(allowBreaks), s, 0, old(PenNow()), false, false)
        && !whitespace && !indention
    {
      ghost var st := StyleNow(allowBreaks);
      var spaces, breaks, i := false, false, 0;
      while i < |s|
        invariant 0 <= i <= |s|
        invariant buffer + SingleText(st, s, i, PenNow(), spaces, breaks)
          == old(buffer) + SingleText(st, s, 0, old(PenNow()), false, false)
      {
        spaces, breaks := WriteSingleChar(s, i, allowBreaks, spaces, breaks);
        i := i + 1;
      }
      if breaks {
        WriteIndent(st);
      }
      WriteIndicator(SINGLE_QUOTE, false);
      whitespace, indention := false, false;
    }

    /** One turn of the plain writer's loop. */
    method WritePlainChar(s: seq<nat>, i: nat, allowBreaks: bool, spaces: bool, breaks: bool)
      returns (spaces': bool, breaks': bool)
      requires i < |s|
      modifies this`buffer, this`column, this`whitespace, this`indention
      ensures buffer + PlainText(StyleNow(allowBreaks), s, i + 1, PenNow(), spaces', breaks')
           == old(buffer) + PlainText(StyleNow(allowBreaks), s, i, old(PenNow()), spaces, breaks)
    {
      ghost var st := StyleNow(allowBreaks);
      ghost var text;
      spaces', breaks' := spaces, breaks;
      if s[i] == SPACE {
        if allowBreaks && !spaces && column > bestWidth && At(s, i + 1) != SPACE {
          WriteIndent(st);
          text := IndentText(st, old(PenNow()));
        } else {
          Put(s[i]);
          text := [SPACE];
        }
        spaces' := true;
      } else if IsBreak(s[i]) {
        if !breaks && s[i] == LF {
          PutBreak();
        }
        WriteBreak(s[i]);
        indention, breaks' := true, true;
        text := BreakText(st, s[i], breaks);
      } else {
        if breaks {
          WriteIndent(st);
        }
        Put(s[i]);
        indention, spaces', breaks' := false, false, false;
        text := (if breaks then IndentText(st, old(PenNow())) else []) + [s[i]];
      }
      assert buffer == old(buffer) + text;
      PlainTextSteps(st, s, i, old(PenNow()), spaces, breaks, text, PenNow(), spaces', breaks');
      Regroup(old(buffer), text, PlainText(st, s, i + 1, PenNow(), spaces', breaks'));
    }

    /** The whole plain form is written; an empty one outside of flow collections leaves no space behind. */
    method WritePlain(s: seq<nat>, allowBreaks: bool, inFlow: bool)
      modifies this`buffer, this`column, this`whitespace, this`indention
      ensures var gap := Gap(old(whitespace) || (s == [] && !inFlow));
        buffer == old(buffer) + gap
          + PlainText(StyleNow(allowBreaks), s, 0, old(PenNow()).(column := old(column) + |gap|), false, false)
      ensures !whitespace && !indention
    {
      if !whitespace && (s != [] || inFlow) {
        Put(SPACE);
      }
      ghost var st, pen0, begun := StyleNow(allowBreaks), PenNow(), buffer;
      var spaces, breaks, i := false, false, 0;
      while i < |s|
        invariant 0 <= i <= |s|
        invariant buffer + PlainText(st, s, i, PenNow(), spaces, breaks)
          == begun + PlainText(st, s, 0, pen0, false, false)
      {
        spaces, breaks := WritePlainChar(s, i, allowBreaks, spaces, breaks);
        i := i + 1;
      }
      assert buffer + [] == buffer;
      whitespace, indention := false, false;
    }

    /** A tag handle, here `!`. */
    method WriteMark()
      modifies this`buffer, this`column, this`whitespace, this`indention
      ensures buffer == old(buffer) + Mark(old(whitespace), true) && !whitespace && !indention
    {
      if !whitespace {
        Put(SPACE);
      }
      Put(0x21);
      whitespace, indention := false, false;
    }

    method IncreaseIndent(flow: bool, indentless: bool)
      requires Valid()
      modifies this`indent, this`indents
      ensures Valid() && indents == old(indents) + [old(indent)]
      ensures indent == if old(indent) < 0 then (if flow then bestIndent else 0)
                        else if indentless then old(indent) else old(indent) + bestIndent
    {
      indents := indents + [indent];
      if indent < 0 {
        indent := if flow then bestIndent else 0;
      } else if !indentless {
        indent := indent + bestIndent;
      }
    }

    /** The indentation that the lines of a scalar get. */
    function ScalarIndent(): int
      reads this
    {
      if indent < 0 then bestIndent else indent + bestIndent
    }

    /** A scalar is written, in a plain or quoted style, so that scanning it gives the value back, whatever follows a
        quoted one, except another quote after a single quote, and wherever a plain one may end. Block styles write no
        more than the tag here. It is an error that neither a tag nor one of the implicit flags is given. */
    method EmitScalar(s: seq<nat>, wanted: ScalarStyle, c: Context) returns (ok: bool, style: ScalarStyle)
      requires Valid() && AllScalarValues(s)
      modifies this
      ensures Valid() && indent == old(indent) && indents == old(indents)
      ensures ok <==> !(c.noTag && !c.plainImplicit && !c.quotedImplicit)
      ensures !ok ==> buffer == old(buffer)
      ensures ok && wanted == DoubleQuoted ==> style == DoubleQuoted
      ensures ok && wanted == SingleQuoted ==> style == SingleQuoted || style == DoubleQuoted
      ensures ok ==> Emitted(style, c, s, old(ScalarIndent()), old(whitespace), old(buffer), buffer)
    {
      var choice := ChooseStyle(s, wanted, c);
      if choice.None? {
        return false, Any;
      }
      ok, style := true, choice.value;
      if NeedsMark(style, c) {
        WriteMark();
      }
      IncreaseIndent(true, false);
      ProcessScalar(s, style, c);
      indent, indents := indents[|indents| - 1], indents[..|indents| - 1];
      assert indents == old(indents);
    }

    method ChooseStyle(s: seq<nat>, wanted: ScalarStyle, c: Context) returns (r: Option<ScalarStyle>)
      ensures r.None? <==> c.noTag && !c.plainImplicit && !c.quotedImplicit
      ensures r == Some(Plain) ==> (s == [] && !c.inFlow) || PlainAllowed(unicode, c.inFlow, s)
      ensures r == Some(SingleQuoted) ==> SingleAllowed(unicode, s)
      ensures r.Some? && wanted == DoubleQuoted ==> r.value == DoubleQuoted
      ensures r.Some? && wanted == SingleQuoted ==> r.value == SingleQuoted || r.value == DoubleQuoted
    {
      var a := AnalyzeScalar(unicode, s);
      r := SelectStyle(wanted, a, s == [], c);
    }

    method ProcessScalar(s: seq<nat>, style: ScalarStyle, c: Context)
      requires Valid() && indent > 0 && AllScalarValues(s) && (style == SingleQuoted ==> SingleAllowed(unicode, s))
      requires style == Plain ==> (s == [] && !c.inFlow) || PlainAllowed(unicode, c.inFlow, s)
      modifies this`buffer, this`column, this`whitespace, this`indention
      ensures Written(style, c.inFlow, s, indent, old(buffer), Gap(old(whitespace)), buffer)
    {
      if style == Plain {
        ProcessPlain(s, c);
      } else if style == SingleQuoted || style == DoubleQuoted {
        ProcessQuoted(s, style == SingleQuoted, c);
      }
    }

    method ProcessPlain(s: seq<nat>, c: Context)
      requires Valid() && indent > 0 && ((s == [] && !c.inFlow) || PlainAllowed(unicode, c.inFlow, s))
      modifies this`buffer, this`column, this`whitespace, this`indention
      ensures if s == [] then buffer == old(buffer)
        else PlainAppended(c.inFlow, indent, old(buffer) + Gap(old(whitespace)), buffer, s)
    {
      WritePlain(s, !c.simpleKey, c.inFlow);
      if s != [] {
        ghost var before, pen := old(buffer) + Gap(old(whitespace)),
          old(PenNow()).(column := old(column) + |Gap(old(whitespace))|);
        ghost var text := PlainText(StyleNow(!c.simpleKey), s, 0, pen, false, false);
        assert buffer == before + text && buffer[|before|..] == text && buffer[..|before|] == before;
        TextReadsBack(StyleNow(!c.simpleKey), c.inFlow, s, pen);
      }
    }

    method ProcessQuoted(s: seq<nat>, single: bool, c: Context)
      requires Valid() && indent > 0 && AllScalarValues(s) && (single ==> SingleAllowed(unicode, s))
      modifies this`buffer, this`column, this`whitespace, this`indention
      ensures Appended(single, old(buffer) + Gap(old(whitespace)), buffer, s)
    {
      ghost var st := StyleNow(!c.simpleKey);
      if single {
        WriteSingleQuoted(s, !c.simpleKey);
        SingleReadsBack(st, s, Opened(old(PenNow())));
      } else {
        WriteDoubleQuoted(s, !c.simpleKey);
        DoubleReadsBack(st, s, Opened(old(PenNow())));
      }
    }
  }

  /** What was written for a scalar. */
  ghost predicate Written(style: ScalarStyle, inFlow: bool, s: seq<nat>, indent: int, begun: seq<int>, gap: seq<int>,
                          after: seq<int>)
  {
    match style
    case Plain => if s == [] then !inFlow && after == begun else PlainAppended(inFlow, indent, begun + gap, after, s)
    case SingleQuoted => Appended(true, begun + gap, after, s)
    case DoubleQuoted => Appended(false, begun + gap, after, s)
    case _ => after == begun
  }

  /** The same, after a tag if it needed one. */
  ghost predicate Emitted(style: ScalarStyle, c: Context, s: seq<nat>, indent: int, whitespace: bool, before: seq<int>,
                          after: seq<int>)
  {
    var marked := NeedsMark(style, c);
    Written(style, c.inFlow, s, indent, before + Mark(whitespace, marked), Gap(whitespace && !marked), after)
  }

  ghost predicate Grown(before: seq<int>, after: seq<int>)
  {
    |before| <= |after| && after[..|before|] == before
  }

  ghost predicate PlainAppended(inFlow: bool, indent: int, before: seq<int>, after: seq<int>, s: seq<nat>)
  {
    Grown(before, after) && PlainReadsBack(inFlow, indent, after[|before|..], s)
  }

  /** In any block that is indented less, and from any column not left of it, the text is taken for a plain scalar and
      scanning it yields the value, whatever ends it. */
  ghost predicate PlainReadsBack(inFlow: bool, indent: int, text: seq<int>, s: seq<nat>)
  {
    forall least: int, rest: seq<int>, column: nat ::
      least <= indent && least <= column + 1 && EndsPlain(Place(inFlow, least), rest) ==>
        && Dispatch(inFlow, text + rest, column) == PlainKind
        && ScanPlain(Place(inFlow, least), text + rest, column) == PlainScanned(s, |text|, |text|, false)
  }

  lemma TextReadsBack(st: Style, inFlow: bool, s: seq<nat>, pen: Pen)
    requires Settings(st) && PlainAllowed(st.unicode, inFlow, s)
    ensures PlainReadsBack(inFlow, st.indent, PlainText(st, s, 0, pen, false, false), s)
  {
    var text := PlainText(st, s, 0, pen, false, false);
    forall least: int, rest: seq<int>, column: nat |
      least <= st.indent && least <= column + 1 && EndsPlain(Place(inFlow, least), rest)
      ensures Dispatch(inFlow, text + rest, column) == PlainKind
      ensures ScanPlain(Place(inFlow, least), text + rest, column) == PlainScanned(s, |text|, |text|, false)
    {
      PlainRoundTrip(st, Place(inFlow, least), s, pen, rest, column);
    }
  }

  /** The buffer grew by a text that reads back as the value. */
  ghost predicate Appended(single: bool, before: seq<int>, after: seq<int>, s: seq<nat>)
  {
    |before| < |after| && after[..|before|] == before && ReadsBack(single, after[|before|..], s)
  }

  /** Whatever follows the text, and in whatever column it stands, scanning it yields the value and stops at its end. */
  ghost predicate ReadsBack(single: bool, text: seq<int>, s: seq<nat>)
  {
    text != [] && forall rest: seq<int>, column: nat :: (single ==> At(rest, 0) != SINGLE_QUOTE) ==>
      ScanQuoted(single, text + rest, column) == Scanned(s, |text|)
  }

  lemma SingleReadsBack(st: Style, s: seq<nat>, pen: Pen)
    requires Settings(st) && SingleAllowed(st.unicode, s) && !pen.indention
    ensures ReadsBack(true, [SINGLE_QUOTE] + SingleText(st, s, 0, pen, false, false), s)
  {
    forall rest: seq<int>, column: nat | At(rest, 0) != SINGLE_QUOTE
      ensures ScanQuoted(true, [SINGLE_QUOTE] + SingleText(st, s, 0, pen, false, false) + rest, column)
           == Scanned(s, |[SINGLE_QUOTE] + SingleText(st, s, 0, pen, false, false)|)
    {
      SingleQuotedRoundTrip(st, s, pen, rest, column);
    }
  }

  lemma DoubleReadsBack(st: Style, s: seq<nat>, pen: Pen)
    requires Settings(st) && AllScalarValues(s) && !pen.indention
    ensures ReadsBack(false, [DOUBLE_QUOTE] + DoubleText(st, s, 0, pen, false), s)
  {
    forall rest: seq<int>, column: nat
      ensures ScanQuoted(false, [DOUBLE_QUOTE] + DoubleText(st, s, 0, pen, false) + rest, column)
           == Scanned(s, |[DOUBLE_QUOTE] + DoubleText(st, s, 0, pen, false)|)
    {
      DoubleQuotedRoundTrip(st, s, pen, rest, column);
    }
  }

  /** The text of a value splits after its first character. */
  lemma DoubleTextSteps(st: Style, s: seq<nat>, i: nat, pen: Pen, spaces: bool, text: seq<int>, pen': Pen,
                        spaces': bool)
    requires i < |s|
    requires
      if MustEscape(st, s[i]) then
        !spaces' && text == EscapeText(s[i]) && pen' == pen.(column := pen.column + |text|)
      else if s[i] == SPACE && FoldsDouble(st, s, i, pen, spaces) then
        var pen1 := IndentPen(st, pen);
        && spaces'
        && if s[i + 1] == SPACE
           then text == IndentText(st, pen) + [BACKSLASH] && pen' == pen1.(column := pen1.column + 1)
           else text == IndentText(st, pen) && pen' == pen1
      else
        spaces' == (s[i] == SPACE) && text == [s[i]] && pen' == pen.(column := pen.column + 1)
    ensures DoubleText(st, s, i, pen, spaces) == text + DoubleText(st, s, i + 1, pen', spaces')
  {
  }

  lemma SingleTextSteps(st: Style, s: seq<nat>, i: nat, pen: Pen, spaces: bool, breaks: bool,
                        text: seq<int>, pen': Pen, spaces': bool, breaks': bool)
    requires i < |s|
    requires
      if s[i] == SPACE then
        && spaces' && breaks' == breaks
        && if FoldsSingle(st, s, i, pen, spaces) then text == IndentText(st, pen) && pen' == IndentPen(st, pen)
           else text == [SPACE] && pen' == pen.(column := pen.column + 1)
      else if IsBreak(s[i]) then
        && spaces' == spaces && breaks' && text == BreakText(st, s[i], breaks)
        && pen' == pen.(column := 0, indention := true)
      else
        && !spaces' && !breaks' && text == (if breaks then IndentText(st, pen) else []) + Doubled(s[i])
        && var pen1 := if breaks then IndentPen(st, pen) else pen;
           pen' == pen1.(column := pen1.column + |Doubled(s[i])|, indention := false)
    ensures SingleText(st, s, i, pen, spaces, breaks) == text + SingleText(st, s, i + 1, pen', spaces', breaks')
  {
  }

  lemma PlainTextSteps(st: Style, s: seq<nat>, i: nat, pen: Pen, spaces: bool, breaks: bool,
                       text: seq<int>, pen': Pen, spaces': bool, breaks': bool)
    requires i < |s|
    requires
      if s[i] == SPACE then
        && spaces' && breaks' == breaks
        && if FoldsPlain(st, s, i, pen, spaces) then text == IndentText(st, pen) && pen' == IndentPen(st, pen)
           else text == [SPACE] && pen' == pen.(column := pen.column + 1)
      else if IsBreak(s[i]) then
        && spaces' == spaces && breaks' && text == BreakText(st, s[i], breaks)
        && pen' == pen.(column := 0, indention := true)
      else
        && !spaces' && !breaks' && text == (if breaks then IndentText(st, pen) else []) + [s[i]]
        && var pen1 := if breaks then IndentPen(st, pen) else pen;
           pen' == pen1.(column := pen1.column + 1, indention := false)
    ensures PlainText(st, s, i, pen, spaces, breaks) == text + PlainText(st, s, i + 1, pen', spaces', breaks')
  {
  }

  lemma Regroup(a: seq<int>, b: seq<int>, c: seq<int>)
    ensures (a + b) + c == a + (b + c)
  {
  }
}

/** Scanning a quoted scalar as the scanner does it (scanner.c). */
module YamlFlowScalar {
  import opened YamlChars
  import opened YamlScanQuoted

  method ScanHex(inp: seq<int>, i: nat, n: nat) returns (value: int)
    ensures value == HexValue(inp, i, n, 0)
  {
    var k := 0;
    value := 0;
    while k < n
      invariant 0 <= k <= n && value >= 0
      invariant HexValue(inp, i, n, 0) == HexValue(inp, i + k, n - k, value)
    {
      if !IsHex(At(inp, i + k)) {
        return -1;
      }
      value := value * 16 + AsHex(At(inp, i + k));
      k := k + 1;
    }
  }

  method ScanFlowScalar(single: bool, inp: seq<int>, column: nat) returns (r: Scan)
    requires inp != []
    ensures r == ScanQuoted(single, inp, column)
  {
    var i: nat, col: nat := 1, column + 1;
    var text: seq<int>, ws: seq<int>, lb: seq<int>, tb: seq<int> := [], [], [], [];
    while true
      invariant 1 <= i <= |inp| && ws == lb == tb == []
      invariant ScanTop(single, inp, i, col, text) == ScanQuoted(single, inp, column)
      decreases |inp| - i
    {
      if (col == 0 && DocumentIndicator(inp, i)) || At(inp, i) == 0 {
        return Bad;
      }
      ghost var from := i;
      var leading := false;
      while !IsBlankZ(At(inp, i))
        invariant from == i <= |inp| && !leading
        invariant ScanWord(single, inp, i, col, text) == ScanQuoted(single, inp, column)
        decreases |inp| - i
      {
        var c := At(inp, i);
        from := i;
        if single && c == SINGLE_QUOTE && At(inp, i + 1) == SINGLE_QUOTE {
          text, i, col := text + [SINGLE_QUOTE], i + 2, col + 2;
        } else if c == Quote(single) {
          break;
        } else if !single && c == BACKSLASH && IsBreak(At(inp, i + 1)) {
          i, col, leading := AfterBreak(inp, i + 1), 0, true;
          break;
        } else if !single && c == BACKSLASH {
          var n := EscapeLength(At(inp, i + 1));
          var value := SimpleEscape(At(inp, i + 1));
          if n > 0 {
            value := ScanHex(inp, i + 2, n);
            if !IsScalarValue(value) {
              return Bad;
            }
          }
          if value < 0 || i + 2 + n > |inp| {
            return Bad;
          }
          text, i, col := text + [value], i + 2 + n, col + 2 + n;
        } else {
          text, i, col := text + [c], i + 1, col + 1;
        }
        from := i;
      }
      if At(inp, i) == Quote(single) {
        return Scanned(text, i + 1);
      }
      if At(inp, i) == 0 && !leading {
        return Bad;
      }
      while IsBlank(At(inp, i)) || IsBreak(At(inp, i))
        invariant from <= i <= |inp| && (from < i || IsBlank(At(inp, i)) || IsBreak(At(inp, i)))
        invariant ScanBlanks(single, inp, from, i, col, text, ws, lb, tb, leading) == ScanQuoted(single, inp, column)
        decreases |inp| - i
      {
        if IsBlank(At(inp, i)) {
          if !leading {
            ws := ws + [At(inp, i)];
          }
          i, col := i + 1, col + 1;
        } else {
          if !leading {
            ws, lb, leading := [], lb + [Line(At(inp, i))], true;
          } else {
            tb := tb + [Line(At(inp, i))];
          }
          i, col := AfterBreak(inp, i), 0;
        }
      }
      if leading {
        if lb != [] && lb[0] == LF {
          text := text + if tb == [] then [SPACE] else tb;
        } else {
          text := text + (lb + tb);
        }
      } else {
        text := text + ws;
      }
      ws, lb, tb := [], [], [];
    }
  }
}
