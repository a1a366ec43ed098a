/** Turning lexemes into tokens: simple keys, indentation and flow levels (scanner.c). */
module YamlTokens {
  import opened YamlParserStates

  datatype Mark = Mark(index: nat, line: nat, column: nat)

  /** A place where a simple key may have begun: the token before which KEY would be inserted. */
  datatype SimpleKey = NoKey | Possible(required: bool, number: nat, mark: Mark)

  datatype Kind =
    | EndOfInput
    | Marker(token: Token)         // a directive or a document indicator
    | FlowStart(token: Token)
    | FlowEnd(token: Token)
    | FlowComma
    | Dash
    | Question
    | Colon
    | Content(token: Token, newline: bool)  // an anchor, an alias, a tag, a plain or quoted scalar
    | BlockScalar(token: Token)

  /** What comes next in the input: where it begins and ends, and whether a simple key may begin there. */
  datatype Lexeme = Lexeme(kind: Kind, start: Mark, after: Mark, allowed: bool) | NoLexeme

  /** What the division of the input into lexemes depends on. */
  datatype Control = Control(mark: Mark, flow: nat, indent: int, indents: seq<int>, allowed: bool)

  type Lexer = Control -> Lexeme

  /** The scanner, with all tokens produced so far, delivered or not. */
  datatype Scan = Scan(c: Control, keys: seq<SimpleKey>, started: bool, ended: bool, tokens: seq<Token>)

  datatype Fetched = Fetched(s: Scan) | ScanError

  /** `m` is not after `n`; in one line the index and the column advance together. */
  predicate Later(m: Mark, n: Mark)
  {
    m.index <= n.index && m.line <= n.line && (m.line == n.line ==> n.column - m.column == n.index - m.index)
  }

  predicate Plain(t: Token)
  {
    !t.BlockSequenceStart? && !t.BlockMappingStart? && !t.BlockEnd? && !t.StreamEndToken?
  }

  predicate LexemeOk(c: Control, l: Lexeme, limit: nat)
  {
    l.Lexeme? ==>
      && Later(c.mark, l.start) && Later(l.start, l.after)
      && (if l.kind.EndOfInput? then l.after == l.start else l.start.index < l.after.index <= limit)
      && match l.kind
         case Marker(t) => Plain(t)
         case FlowStart(t) => Plain(t)
         case FlowEnd(t) => Plain(t)
         case Content(t, _) => Plain(t)
         case BlockScalar(t) => Plain(t)
         case _ => true
  }

  /** Marks only advance, each lexeme takes some input, and the input is finite. */
  ghost predicate LexerOk(lex: Lexer, limit: nat)
  {
    forall c {:trigger lex(c)} :: LexemeOk(c, lex(c), limit)
  }

  // Simple keys.

  predicate StaleKey(k: SimpleKey, m: Mark)
  {
    k.Possible? && (k.mark.line < m.line || k.mark.index + 1024 < m.index)
  }

  predicate StaleError(keys: seq<SimpleKey>, m: Mark)
  {
    exists i :: 0 <= i < |keys| && StaleKey(keys[i], m) && keys[i].required
  }

  function Fresh(k: SimpleKey, m: Mark): SimpleKey
  {
    if StaleKey(k, m) then NoKey else k
  }

  function Stale(keys: seq<SimpleKey>, m: Mark): (r: seq<SimpleKey>)
    ensures |r| == |keys| && forall i :: 0 <= i < |keys| ==> r[i] == Fresh(keys[i], m)
  {
    seq(|keys|, i requires 0 <= i < |keys| => Fresh(keys[i], m))
  }

  function RemoveKey(s: Scan): Fetched
    requires s.keys != []
  {
    var top := s.keys[|s.keys| - 1];
    if top.Possible? && top.required then ScanError
    else Fetched(s.(keys := s.keys[|s.keys| - 1 := NoKey]))
  }

  function SaveKey(s: Scan): Fetched
    requires s.keys != []
  {
    if !s.c.allowed then Fetched(s)
    else
      var r := RemoveKey(s);
      if r.ScanError? then r
      else
        var key := Possible(s.c.flow == 0 && s.c.indent == s.c.mark.column, |s.tokens|, s.c.mark);
        Fetched(r.s.(keys := r.s.keys[|r.s.keys| - 1 := key]))
  }

  // Indentation.

  function Insert(tokens: seq<Token>, number: nat, t: Token): seq<Token>
    requires number <= |tokens|
  {
    tokens[..number] + [t] + tokens[number..]
  }

  /** A deeper column opens a block collection, at the end or before an earlier token. */
  function Roll(s: Scan, column: nat, number: nat, t: Token): Scan
    requires number <= |s.tokens|
  {
    if s.c.flow > 0 || s.c.indent >= column then s
    else s.(c := s.c.(indents := s.c.indents + [s.c.indent], indent := column), tokens := Insert(s.tokens, number, t))
  }

  /** The levels deeper than the column end. */
  function Unroll(s: Scan, column: int): (r: Scan)
    ensures r.keys == s.keys && r.started == s.started && r.ended == s.ended
    ensures r.c.flow == s.c.flow && r.c.mark == s.c.mark && r.c.allowed == s.c.allowed
    decreases |s.c.indents|
  {
    if s.c.flow > 0 || s.c.indent <= column || s.c.indents == [] then s
    else
      var n := |s.c.indents| - 1;
      Unroll(s.(c := s.c.(indents := s.c.indents[..n], indent := s.c.indents[n]), tokens := s.tokens + [BlockEnd]),
             column)
  }

  // Fetching.

  function Append(s: Scan, t: Token, allowed: bool, after: Mark): Fetched
  {
    Fetched(s.(c := s.c.(allowed := allowed, mark := after), tokens := s.tokens + [t]))
  }

  function LineEnd(m: Mark): Mark
  {
    if m.column != 0 then Mark(m.index, m.line + 1, 0) else m
  }

  /** A key found at its ':' is put before the tokens that make it up. */
  function FoundKey(s: Scan, key: SimpleKey): Scan
    requires key.Possible? && key.number <= |s.tokens| && s.keys != []
  {
    var s1 := s.(tokens := Insert(s.tokens, key.number, Key));
    var s2 := Roll(s1, key.mark.column, key.number, BlockMappingStart);
    s2.(keys := s2.keys[|s2.keys| - 1 := NoKey])
  }

  function TopKey(s: Scan): SimpleKey
    requires s.keys != []
  {
    s.keys[|s.keys| - 1]
  }

  function FetchEnd(s: Scan): Fetched
    requires s.keys != []
  {
    var r := RemoveKey(Unroll(s.(c := s.c.(mark := LineEnd(s.c.mark))), -1));
    if r.ScanError? then r
    else Fetched(r.s.(c := r.s.c.(allowed := false), ended := true, tokens := r.s.tokens + [StreamEndToken]))
  }

  function FetchMarker(s: Scan, t: Token, after: Mark): Fetched
    requires s.keys != []
  {
    var r := RemoveKey(Unroll(s, -1));
    if r.ScanError? then r else Append(r.s, t, false, after)
  }

  function FetchFlowStart(s: Scan, t: Token, after: Mark): Fetched
    requires s.keys != []
  {
    var r := SaveKey(s);
    if r.ScanError? then r
    else Append(r.s.(c := r.s.c.(flow := r.s.c.flow + 1), keys := r.s.keys + [NoKey]), t, true, after)
  }

  function FetchFlowEnd(s: Scan, t: Token, after: Mark): Fetched
    requires s.keys != []
  {
    var r := RemoveKey(s);
    if r.ScanError? then r
    else
      var s1 := if r.s.c.flow > 0 then r.s.(c := r.s.c.(flow := r.s.c.flow - 1), keys := r.s.keys[..|r.s.keys| - 1])
        else r.s;
      Append(s1, t, false, after)
  }

  /** '-', '?' and ':' after a complex key: in the block context they need permission and may open a collection. */
  function FetchIndicator(s: Scan, opener: Token, t: Token, allowed: bool, after: Mark): Fetched
    requires s.keys != []
  {
    if s.c.flow == 0 && !s.c.allowed then ScanError
    else
      var r := RemoveKey(Roll(s, s.c.mark.column, |s.tokens|, opener));
      if r.ScanError? then r else Append(r.s, t, allowed, after)
  }

  function FetchValue(s: Scan, after: Mark): Fetched
    requires s.keys != []
  {
    var key := TopKey(s);
    if key.Possible? && key.number <= |s.tokens| then Append(FoundKey(s, key), Value, false, after)
    else FetchIndicator(s, BlockMappingStart, Value, s.c.flow == 0, after)
  }

  function FetchContent(s: Scan, t: Token, newline: bool, after: Mark): Fetched
    requires s.keys != []
  {
    var r := SaveKey(s);
    if r.ScanError? then r else Append(r.s, t, newline, after)
  }

  function FetchPlainly(s: Scan, t: Token, after: Mark): Fetched
    requires s.keys != []
  {
    var r := RemoveKey(s);
    if r.ScanError? then r else Append(r.s, t, true, after)
  }

  function FetchLexeme(s: Scan, kind: Kind, after: Mark): Fetched
    requires s.keys != []
  {
    match kind
    case EndOfInput => FetchEnd(s)
    case Marker(t) => FetchMarker(s, t, after)
    case FlowStart(t) => FetchFlowStart(s, t, after)
    case FlowEnd(t) => FetchFlowEnd(s, t, after)
    case FlowComma => FetchPlainly(s, FlowEntry, after)
    case Dash => FetchIndicator(s, BlockSequenceStart, BlockEntry, true, after)
    case Question => FetchIndicator(s, BlockMappingStart, Key, s.c.flow == 0, after)
    case Colon => FetchValue(s, after)
    case Content(t, newline) => FetchContent(s, t, newline, after)
    case BlockScalar(t) => FetchPlainly(s, t, after)
  }

  /** The scanner at the start of a lexeme: stale keys dropped, deeper levels ended. */
  function Arrive(s: Scan, l: Lexeme): Scan
    requires l.Lexeme?
  {
    Unroll(s.(c := s.c.(mark := l.start, allowed := l.allowed), keys := Stale(s.keys, l.start)), l.start.column)
  }

  function Fetch(lex: Lexer, s: Scan): Fetched
    requires s.started ==> s.keys != []
  {
    if !s.started then
      Fetched(s.(c := s.c.(indent := -1, allowed := true), keys := s.keys + [NoKey], started := true,
                 tokens := s.tokens + [StreamStartToken]))
    else
      var l := lex(s.c);
      if l.NoLexeme? || StaleError(s.keys, l.start) then ScanError
      else
        FetchLexeme(Arrive(s, l), l.kind, l.after)
  }

  const Fresh0 := Scan(Control(Mark(0, 0, 0), 0, -1, [], false), [], false, false, [])
}

/** What the scanner keeps true, and that early delivery changes nothing. */
module YamlTokensInvariant {
  import opened YamlParserStates
  import opened YamlTokens

  // Levels.

  ghost predicate Deeper(indents: seq<int>, indent: int, i: nat)
    requires i < |indents|
  {
    indents[i] < if i + 1 < |indents| then indents[i + 1] else indent
  }

  /** The levels are strictly increasing from -1. */
  ghost predicate LevelsOk(indents: seq<int>, indent: int)
  {
    && (if indents == [] then indent == -1 else indents[0] == -1)
    && forall i {:trigger Deeper(indents, indent, i)} :: 0 <= i < |indents| ==> Deeper(indents, indent, i)
  }

  lemma {:induction false} LevelAbove(indents: seq<int>, indent: int)
    requires LevelsOk(indents, indent)
    ensures indent >= -1 && (indent > -1 <==> indents != [])
    decreases |indents|
  {
    if indents != [] {
      var n := |indents| - 1;
      assert Deeper(indents, indent, n);
      LevelPopped(indents, indent);
      LevelAbove(indents[..n], indents[n]);
    }
  }

  lemma {:induction false} LevelsIncrease(indents: seq<int>, indent: int)
    requires LevelsOk(indents, indent)
    ensures forall i :: 0 <= i < |indents| ==> indents[i] < indent
    ensures forall i, j :: 0 <= i < j < |indents| ==> indents[i] < indents[j]
    decreases |indents|
  {
    if indents != [] {
      var n := |indents| - 1;
      assert Deeper(indents, indent, n);
      LevelPopped(indents, indent);
      LevelsIncrease(indents[..n], indents[n]);
      assert forall i :: 0 <= i < n ==> indents[i] == indents[..n][i];
    }
  }

  lemma LevelPopped(indents: seq<int>, indent: int)
    requires LevelsOk(indents, indent) && indents != []
    ensures LevelsOk(indents[..|indents| - 1], indents[|indents| - 1])
  {
    var n := |indents| - 1;
    forall i {:trigger Deeper(indents[..n], indents[n], i)} | 0 <= i < n ensures Deeper(indents[..n], indents[n], i) {
      assert Deeper(indents, indent, i);
    }
  }

  lemma LevelPushed(indents: seq<int>, indent: int, column: int)
    requires LevelsOk(indents, indent) && indent < column
    ensures LevelsOk(indents + [indent], column)
  {
    var pushed := indents + [indent];
    forall i {:trigger Deeper(pushed, column, i)} | 0 <= i < |pushed| ensures Deeper(pushed, column, i) {
      if i < |indents| {
        assert Deeper(indents, indent, i);
      }
    }
  }

  // Block collections.

  function Weight1(t: Token): int
  {
    if t == BlockSequenceStart || t == BlockMappingStart then 1 else if t == BlockEnd then -1 else 0
  }

  /** How many block collections have been opened and not ended. */
  function Balance(tokens: seq<Token>): int
  {
    if tokens == [] then 0 else Balance(tokens[..|tokens| - 1]) + Weight1(tokens[|tokens| - 1])
  }

  lemma BalanceAppend(tokens: seq<Token>, t: Token)
    ensures Balance(tokens + [t]) == Balance(tokens) + Weight1(t)
  {
    assert (tokens + [t])[..|tokens|] == tokens;
  }

  lemma {:induction false} BalanceConcat(a: seq<Token>, b: seq<Token>)
    ensures Balance(a + b) == Balance(a) + Balance(b)
    decreases |b|
  {
    if b == [] {
      assert a + b == a;
    } else {
      var most, last := b[..|b| - 1], b[|b| - 1];
      BalanceConcat(a, most);
      assert a + b == (a + most) + [last];
      BalanceAppend(a + most, last);
    }
  }

  lemma BalanceInsert(tokens: seq<Token>, n: nat, t: Token)
    requires n <= |tokens|
    ensures Balance(Insert(tokens, n, t)) == Balance(tokens) + Weight1(t)
  {
    assert tokens == tokens[..n] + tokens[n..];
    BalanceConcat(tokens[..n], tokens[n..]);
    BalanceAppend(tokens[..n], t);
    BalanceConcat(tokens[..n] + [t], tokens[n..]);
  }

  lemma InsertHas(tokens: seq<Token>, n: nat, t: Token)
    requires n <= |tokens|
    ensures StreamEndToken in Insert(tokens, n, t) <==> StreamEndToken in tokens || t == StreamEndToken
  {
    assert tokens == tokens[..n] + tokens[n..];
  }

  // Simple keys.

  ghost predicate KeyOk(keys: seq<SimpleKey>, i: nat, mark: Mark, count: nat)
    requires i < |keys|
  {
    var k := keys[i];
    k.Possible? ==> k.number < count && Later(k.mark, mark) && k.mark.index < mark.index
  }

  ghost predicate Before(keys: seq<SimpleKey>, i: nat, j: nat)
    requires i < |keys| && j < |keys|
  {
    i < j && keys[i].Possible? && keys[j].Possible? ==> keys[i].number < keys[j].number
  }

  /** Each possible key stands before a token there is, and their numbers increase with the flow level. */
  ghost predicate KeysOk(keys: seq<SimpleKey>, mark: Mark, count: nat)
  {
    && (forall i {:trigger KeyOk(keys, i, mark, count)} :: 0 <= i < |keys| ==> KeyOk(keys, i, mark, count))
    && (forall i, j {:trigger Before(keys, i, j)} :: 0 <= i < |keys| && 0 <= j < |keys| ==> Before(keys, i, j))
  }

  lemma KeysLater(keys: seq<SimpleKey>, keys': seq<SimpleKey>, mark: Mark, mark': Mark, count: nat, count': nat)
    requires KeysOk(keys, mark, count) && Later(mark, mark') && count <= count'
    requires |keys'| <= |keys| && forall i :: 0 <= i < |keys'| ==> keys'[i] == keys[i] || keys'[i] == NoKey
    ensures KeysOk(keys', mark', count')
  {
    forall i {:trigger KeyOk(keys', i, mark', count')} | 0 <= i < |keys'| ensures KeyOk(keys', i, mark', count') {
      assert KeyOk(keys, i, mark, count);
    }
    forall i, j {:trigger Before(keys', i, j)} | 0 <= i < |keys'| && 0 <= j < |keys'| ensures Before(keys', i, j) {
      assert Before(keys, i, j);
    }
  }

  lemma KeysSaved(keys: seq<SimpleKey>, key: SimpleKey, mark: Mark, after: Mark, count: nat)
    requires KeysOk(keys, mark, count) && keys != [] && Later(mark, after) && mark.index < after.index
    requires key.Possible? && key.number == count && key.mark == mark
    ensures KeysOk(keys[|keys| - 1 := key], after, count + 1)
  {
    var keys' := keys[|keys| - 1 := key];
    forall i {:trigger KeyOk(keys', i, after, count + 1)} | 0 <= i < |keys'| ensures KeyOk(keys', i, after, count + 1) {
      assert KeyOk(keys, i, mark, count);
    }
    forall i, j {:trigger Before(keys', i, j)} | 0 <= i < |keys'| && 0 <= j < |keys'| ensures Before(keys', i, j) {
      assert Before(keys, i, j) && KeyOk(keys, i, mark, count);
    }
  }

  lemma KeysPushed(keys: seq<SimpleKey>, mark: Mark, count: nat)
    requires KeysOk(keys, mark, count)
    ensures KeysOk(keys + [NoKey], mark, count)
  {
    var keys' := keys + [NoKey];
    forall i {:trigger KeyOk(keys', i, mark, count)} | 0 <= i < |keys'| ensures KeyOk(keys', i, mark, count) {
      if i < |keys| {
        assert KeyOk(keys, i, mark, count);
      }
    }
    forall i, j {:trigger Before(keys', i, j)} | 0 <= i < |keys'| && 0 <= j < |keys'| ensures Before(keys', i, j) {
      if i < |keys| && j < |keys| {
        assert Before(keys, i, j);
      }
    }
  }

  // The invariant.

  ghost predicate Inv(s: Scan)
  {
    && (if s.started then |s.keys| == s.c.flow + 1 else s.keys == [] && s.c.flow == 0 && s.tokens == [] && !s.ended)
    && LevelsOk(s.c.indents, s.c.indent) && Balance(s.tokens) == |s.c.indents|
    && KeysOk(s.keys, s.c.mark, |s.tokens|)
    && (StreamEndToken in s.tokens <==> s.ended) && (s.ended ==> StreamEndToken !in s.tokens[..|s.tokens| - 1])
  }

  ghost predicate Running(s: Scan)
  {
    Inv(s) && s.started && !s.ended
  }

  lemma {:induction false} UnrollInv(s: Scan, column: int)
    requires Running(s) && column >= -1
    ensures Running(Unroll(s, column)) && s.tokens <= Unroll(s, column).tokens
    ensures column == -1 && s.c.flow == 0 ==> Unroll(s, column).c.indents == []
    decreases |s.c.indents|
  {
    LevelAbove(s.c.indents, s.c.indent);
    if !(s.c.flow > 0 || s.c.indent <= column || s.c.indents == []) {
      var n := |s.c.indents| - 1;
      var s1 := s.(c := s.c.(indents := s.c.indents[..n], indent := s.c.indents[n]), tokens := s.tokens + [BlockEnd]);
      LevelPopped(s.c.indents, s.c.indent);
      BalanceAppend(s.tokens, BlockEnd);
      KeysLater(s.keys, s.keys, s.c.mark, s.c.mark, |s.tokens|, |s1.tokens|);
      UnrollInv(s1, column);
    }
  }

  lemma {:induction false} RollInv(s: Scan, column: nat, number: nat, t: Token)
    requires Running(s) && number <= |s.tokens| && (t == BlockSequenceStart || t == BlockMappingStart)
    ensures Running(Roll(s, column, number, t))
  {
    if s.c.flow == 0 && s.c.indent < column {
      RollTokens(s, column, number, t);
      KeysLater(s.keys, s.keys, s.c.mark, s.c.mark, |s.tokens|, |s.tokens| + 1);
    }
  }

  lemma {:induction false} RollTokens(s: Scan, column: nat, number: nat, t: Token)
    requires Running(s) && number <= |s.tokens| && (t == BlockSequenceStart || t == BlockMappingStart)
    requires s.c.flow == 0 && s.c.indent < column
    ensures var r := Roll(s, column, number, t);
      && LevelsOk(r.c.indents, r.c.indent) && Balance(r.tokens) == |r.c.indents| && StreamEndToken !in r.tokens
      && |r.tokens| == |s.tokens| + 1 && r.keys == s.keys && r.c.mark == s.c.mark
  {
    LevelPushed(s.c.indents, s.c.indent, column);
    BalanceInsert(s.tokens, number, t);
    InsertHas(s.tokens, number, t);
  }

  lemma RemoveInv(s: Scan)
    requires Running(s) && !RemoveKey(s).ScanError?
    ensures Running(RemoveKey(s).s)
  {
    KeysLater(s.keys, RemoveKey(s).s.keys, s.c.mark, s.c.mark, |s.tokens|, |s.tokens|);
  }

  lemma AppendInv(s: Scan, t: Token, allowed: bool, after: Mark)
    requires Running(s) && Plain(t) && Later(s.c.mark, after)
    ensures Running(Append(s, t, allowed, after).s)
  {
    BalanceAppend(s.tokens, t);
    KeysLater(s.keys, s.keys, s.c.mark, after, |s.tokens|, |s.tokens| + 1);
  }

  /** Saving a key and appending the token that begins it. */
  lemma {:induction false} SaveInv(s: Scan, t: Token, allowed: bool, after: Mark)
    requires Running(s) && Plain(t) && Later(s.c.mark, after) && s.c.mark.index < after.index && !SaveKey(s).ScanError?
    ensures Running(Append(SaveKey(s).s, t, allowed, after).s)
  {
    if s.c.allowed {
      RemoveInv(s);
      KeyThenToken(RemoveKey(s).s, Possible(s.c.flow == 0 && s.c.indent == s.c.mark.column, |s.tokens|, s.c.mark), t,
                   allowed, after);
    } else {
      AppendInv(s, t, allowed, after);
    }
  }

  lemma KeyThenToken(s: Scan, key: SimpleKey, t: Token, allowed: bool, after: Mark)
    requires Running(s) && Plain(t) && Later(s.c.mark, after) && s.c.mark.index < after.index
    requires key.Possible? && key.number == |s.tokens| && key.mark == s.c.mark
    ensures Running(Append(s.(keys := s.keys[|s.keys| - 1 := key]), t, allowed, after).s)
  {
    KeysSaved(s.keys, key, s.c.mark, after, |s.tokens|);
    BalanceAppend(s.tokens, t);
  }

  lemma FlowStartInv(s: Scan, t: Token, after: Mark)
    requires Running(s) && Plain(t) && Later(s.c.mark, after) && s.c.mark.index < after.index
      && !FetchFlowStart(s, t, after).ScanError?
    ensures Running(FetchFlowStart(s, t, after).s)
  {
    SaveInv(s, t, true, after);
    var s1 := Append(SaveKey(s).s, t, true, after).s;
    KeysPushed(s1.keys, s1.c.mark, |s1.tokens|);
  }

  lemma FlowEndInv(s: Scan, t: Token, after: Mark)
    requires Running(s) && Plain(t) && Later(s.c.mark, after) && !FetchFlowEnd(s, t, after).ScanError?
    ensures Running(FetchFlowEnd(s, t, after).s)
  {
    RemoveInv(s);
    var s1 := RemoveKey(s).s;
    if s1.c.flow > 0 {
      var s2 := s1.(c := s1.c.(flow := s1.c.flow - 1), keys := s1.keys[..|s1.keys| - 1]);
      KeysLater(s1.keys, s2.keys, s1.c.mark, s1.c.mark, |s1.tokens|, |s1.tokens|);
      AppendInv(s2, t, false, after);
    } else {
      AppendInv(s1, t, false, after);
    }
  }

  lemma IndicatorInv(s: Scan, opener: Token, t: Token, allowed: bool, after: Mark)
    requires Running(s) && (opener == BlockSequenceStart || opener == BlockMappingStart) && Plain(t)
      && Later(s.c.mark, after)
    requires !FetchIndicator(s, opener, t, allowed, after).ScanError?
    ensures Running(FetchIndicator(s, opener, t, allowed, after).s)
  {
    RollInv(s, s.c.mark.column, |s.tokens|, opener);
    var s1 := Roll(s, s.c.mark.column, |s.tokens|, opener);
    RemoveInv(s1);
    AppendInv(RemoveKey(s1).s, t, allowed, after);
  }

  lemma KeyInserted(s: Scan, number: nat)
    requires Running(s) && number <= |s.tokens|
    ensures Running(s.(tokens := Insert(s.tokens, number, Key)))
  {
    BalanceInsert(s.tokens, number, Key);
    InsertHas(s.tokens, number, Key);
    KeysLater(s.keys, s.keys, s.c.mark, s.c.mark, |s.tokens|, |s.tokens| + 1);
  }

  lemma FoundKeyInv(s: Scan)
    requires Running(s) && TopKey(s).Possible?
    ensures TopKey(s).number < |s.tokens| && Running(FoundKey(s, TopKey(s)))
  {
    var key := TopKey(s);
    assert KeyOk(s.keys, |s.keys| - 1, s.c.mark, |s.tokens|);
    KeyInserted(s, key.number);
    var s1 := s.(tokens := Insert(s.tokens, key.number, Key));
    RollInv(s1, key.mark.column, key.number, BlockMappingStart);
    var s2 := Roll(s1, key.mark.column, key.number, BlockMappingStart);
    KeysLater(s2.keys, s2.keys[|s2.keys| - 1 := NoKey], s2.c.mark, s2.c.mark, |s2.tokens|, |s2.tokens|);
  }

  lemma ValueInv(s: Scan, after: Mark)
    requires Running(s) && Later(s.c.mark, after) && !FetchValue(s, after).ScanError?
    ensures Running(FetchValue(s, after).s)
  {
    if TopKey(s).Possible? {
      FoundKeyInv(s);
      AppendInv(FoundKey(s, TopKey(s)), Value, false, after);
    } else {
      IndicatorInv(s, BlockMappingStart, Value, s.c.flow == 0, after);
    }
  }

  lemma MarkerInv(s: Scan, t: Token, after: Mark)
    requires Running(s) && Plain(t) && Later(s.c.mark, after) && !FetchMarker(s, t, after).ScanError?
    ensures Running(FetchMarker(s, t, after).s)
  {
    UnrollInv(s, -1);
    RemoveInv(Unroll(s, -1));
    AppendInv(RemoveKey(Unroll(s, -1)).s, t, false, after);
  }

  ghost predicate AllStale(keys: seq<SimpleKey>, mark: Mark)
  {
    forall i :: 0 <= i < |keys| && keys[i].Possible? ==> StaleKey(keys[i], mark)
  }

  /** At the end every key left in an outer flow level has become stale, and outside flow collections every block
      collection has been ended. */
  lemma EndInv(s: Scan)
    requires Running(s) && !FetchEnd(s).ScanError?
    ensures Inv(FetchEnd(s).s) && FetchEnd(s).s.ended
    ensures AllStale(FetchEnd(s).s.keys, FetchEnd(s).s.c.mark)
    ensures FetchEnd(s).s.c.flow == 0 ==> Balance(FetchEnd(s).s.tokens) == 0
  {
    var s1 := s.(c := s.c.(mark := LineEnd(s.c.mark)));
    KeysLater(s.keys, s.keys, s.c.mark, s1.c.mark, |s.tokens|, |s.tokens|);
    UnrollInv(s1, -1);
    var s2 := Unroll(s1, -1);
    RemoveInv(s2);
    EndedInv(RemoveKey(s2).s);
    LineEndStales(s.keys, s.c.mark, |s.tokens|);
  }

  lemma EndedInv(s: Scan)
    requires Running(s)
    ensures Inv(s.(c := s.c.(allowed := false), ended := true, tokens := s.tokens + [StreamEndToken]))
    ensures Balance(s.tokens + [StreamEndToken]) == |s.c.indents|
  {
    var ended := s.tokens + [StreamEndToken];
    BalanceAppend(s.tokens, StreamEndToken);
    assert ended[..|ended| - 1] == s.tokens;
    KeysLater(s.keys, s.keys, s.c.mark, s.c.mark, |s.tokens|, |ended|);
  }

  /** Every possible key is stale once the line has ended. */
  lemma LineEndStales(keys: seq<SimpleKey>, mark: Mark, count: nat)
    requires KeysOk(keys, mark, count)
    ensures AllStale(keys, LineEnd(mark))
  {
    forall i | 0 <= i < |keys| && keys[i].Possible? ensures StaleKey(keys[i], LineEnd(mark)) {
      assert KeyOk(keys, i, mark, count);
    }
  }

  lemma ArriveInv(s: Scan, l: Lexeme)
    requires Running(s) && l.Lexeme? && Later(s.c.mark, l.start)
    ensures Running(Arrive(s, l)) && s.tokens <= Arrive(s, l).tokens
  {
    var s1 := s.(c := s.c.(mark := l.start, allowed := l.allowed), keys := Stale(s.keys, l.start));
    KeysLater(s.keys, s1.keys, s.c.mark, s1.c.mark, |s.tokens|, |s.tokens|);
    UnrollInv(s1, l.start.column);
  }

  lemma LexemeInv(s: Scan, l: Lexeme, limit: nat)
    requires Running(s) && LexemeOk(s.c, l, limit) && l.Lexeme? && s.c.mark == l.start
    requires !FetchLexeme(s, l.kind, l.after).ScanError?
    ensures Inv(FetchLexeme(s, l.kind, l.after).s) && FetchLexeme(s, l.kind, l.after).s.started
    ensures FetchLexeme(s, l.kind, l.after).s.ended == l.kind.EndOfInput?
    ensures l.kind.EndOfInput? ==> AllStale(FetchEnd(s).s.keys, FetchEnd(s).s.c.mark)
    ensures !l.kind.EndOfInput? ==> FetchLexeme(s, l.kind, l.after).s.c.mark == l.after
  {
    match l.kind
    case EndOfInput => EndInv(s);
    case Marker(t) => MarkerInv(s, t, l.after);
    case FlowStart(t) => FlowStartInv(s, t, l.after);
    case FlowEnd(t) => FlowEndInv(s, t, l.after);
    case FlowComma =>
      RemoveInv(s);
      AppendInv(RemoveKey(s).s, FlowEntry, true, l.after);
    case Dash => IndicatorInv(s, BlockSequenceStart, BlockEntry, true, l.after);
    case Question => IndicatorInv(s, BlockMappingStart, Key, s.c.flow == 0, l.after);
    case Colon => ValueInv(s, l.after);
    case Content(t, newline) => SaveInv(s, t, newline, l.after);
    case BlockScalar(t) =>
      RemoveInv(s);
      AppendInv(RemoveKey(s).s, t, true, l.after);
  }
  // Scanning to the end.

  /** What is left to do. */
  ghost function Left(s: Scan, limit: nat): nat
  {
    if s.ended then 0
    else (if s.started then 1 else 2) + (if s.c.mark.index <= limit then limit - s.c.mark.index else 0)
  }

  ghost predicate Sound(lex: Lexer, limit: nat, s: Scan)
  {
    LexerOk(lex, limit) && Inv(s) && if s.ended then AllStale(s.keys, s.c.mark) else s.c.mark.index <= limit
  }

  /** Every fetch keeps the invariant and makes progress. */
  lemma FetchInv(lex: Lexer, limit: nat, s: Scan)
    requires Sound(lex, limit, s) && !s.ended && !Fetch(lex, s).ScanError?
    ensures Sound(lex, limit, Fetch(lex, s).s) && Left(Fetch(lex, s).s, limit) < Left(s, limit)
  {
    if s.started {
      var l := lex(s.c);
      assert LexemeOk(s.c, l, limit);
      ArriveInv(s, l);
      LexemeInv(Arrive(s, l), l, limit);
    } else {
      FirstFetchInv(s);
    }
  }

  lemma FirstFetchInv(s: Scan)
    requires Inv(s) && !s.started
    ensures Inv(s.(c := s.c.(indent := -1, allowed := true), keys := s.keys + [NoKey], started := true,
                   tokens := s.tokens + [StreamStartToken]))
  {
    BalanceAppend(s.tokens, StreamStartToken);
    LevelAbove(s.c.indents, s.c.indent);
    NothingOpened(s);
    KeysPushed(s.keys, s.c.mark, |s.tokens|);
    KeysLater(s.keys + [NoKey], s.keys + [NoKey], s.c.mark, s.c.mark, |s.tokens|, |s.tokens| + 1);
  }

  lemma NothingOpened(s: Scan)
    requires s.tokens == [] && Balance(s.tokens) == |s.c.indents|
    ensures s.c.indents == []
  {
  }

  /** What comes of a scan: the tokens fetched up to the end of the stream, or up to the error. */
  datatype Ahead = Ahead(ok: bool, tokens: seq<Token>)

  /** All tokens, fetched before any is delivered; the last check for stale keys is the one made on delivery. */
  ghost function ScanAhead(lex: Lexer, limit: nat, s: Scan): Ahead
    requires Sound(lex, limit, s)
    decreases Left(s, limit)
  {
    if s.ended then Ahead(!StaleError(s.keys, s.c.mark), s.tokens)
    else
      var r := Fetch(lex, s);
      if r.ScanError? then Ahead(false, s.tokens)
      else
        FetchInv(lex, limit, s);
        ScanAhead(lex, limit, r.s)
  }

  // Dropping stale keys early makes no difference.

  lemma StaleTwice(keys: seq<SimpleKey>, m: Mark, n: Mark)
    requires Later(m, n)
    ensures Stale(Stale(keys, m), n) == Stale(keys, n)
  {
  }

  lemma StaleErrorLater(keys: seq<SimpleKey>, m: Mark, n: Mark)
    requires Later(m, n)
    ensures StaleError(keys, m) ==> StaleError(keys, n)
    ensures !StaleError(keys, m) ==> (StaleError(Stale(keys, m), n) <==> StaleError(keys, n))
  {
    if StaleError(keys, m) {
      var i :| 0 <= i < |keys| && StaleKey(keys[i], m) && keys[i].required;
      assert StaleKey(keys[i], n);
    } else {
      if StaleError(keys, n) {
        var i :| 0 <= i < |keys| && StaleKey(keys[i], n) && keys[i].required;
        assert Stale(keys, m)[i] == keys[i];
      }
      if StaleError(Stale(keys, m), n) {
        var i :| 0 <= i < |keys| && StaleKey(Stale(keys, m)[i], n) && Stale(keys, m)[i].required;
        assert Stale(keys, m)[i] == keys[i];
      }
    }
  }

  lemma DropStaleInv(s: Scan)
    requires Inv(s)
    ensures Inv(s.(keys := Stale(s.keys, s.c.mark)))
  {
    KeysLater(s.keys, Stale(s.keys, s.c.mark), s.c.mark, s.c.mark, |s.tokens|, |s.tokens|);
  }

  /** The check for stale keys made on delivery leaves the outcome of the scan as it is. */
  lemma DropStale(lex: Lexer, limit: nat, s: Scan)
    requires Sound(lex, limit, s)
    ensures Sound(lex, limit, s.(keys := Stale(s.keys, s.c.mark)))
    ensures !StaleError(s.keys, s.c.mark) ==>
      ScanAhead(lex, limit, s.(keys := Stale(s.keys, s.c.mark))) == ScanAhead(lex, limit, s)
    ensures StaleError(s.keys, s.c.mark) ==> ScanAhead(lex, limit, s) == Ahead(false, s.tokens)
  {
    var s' := s.(keys := Stale(s.keys, s.c.mark));
    DropStaleInv(s);
    StaleTwice(s.keys, s.c.mark, s.c.mark);
    StaleErrorLater(s.keys, s.c.mark, s.c.mark);
    if s.started && !s.ended {
      var l := lex(s.c);
      assert LexemeOk(s.c, l, limit);
      if l.Lexeme? {
        StaleTwice(s.keys, s.c.mark, l.start);
        StaleErrorLater(s.keys, s.c.mark, l.start);
        SameArrival(s, s', l);
      }
      assert !StaleError(s.keys, s.c.mark) ==> Fetch(lex, s') == Fetch(lex, s);
    } else if !s.started {
      assert s' == s;
    }
  }

  lemma SameArrival(s: Scan, s': Scan, l: Lexeme)
    requires l.Lexeme? && s' == s.(keys := s'.keys) && Stale(s'.keys, l.start) == Stale(s.keys, l.start)
    ensures Arrive(s', l) == Arrive(s, l)
  {
  }

  // What has been delivered stays.

  ghost predicate KeyFrom(keys: seq<SimpleKey>, i: nat, d: nat)
    requires i < |keys|
  {
    keys[i].Possible? ==> d <= keys[i].number
  }

  /** No key that is still possible stands before one of the first `d` tokens. */
  ghost predicate KeysFrom(keys: seq<SimpleKey>, d: nat)
  {
    forall i {:trigger KeyFrom(keys, i, d)} :: 0 <= i < |keys| ==> KeyFrom(keys, i, d)
  }

  ghost predicate Keeps(s: Scan, s': Scan, d: nat)
  {
    d <= |s.tokens| <= |s'.tokens| && s'.tokens[..d] == s.tokens[..d] && KeysFrom(s'.keys, d)
  }

  lemma KeysFromLess(keys: seq<SimpleKey>, keys': seq<SimpleKey>, d: nat)
    requires KeysFrom(keys, d) && forall i ::
      0 <= i < |keys'| ==> keys'[i] == NoKey || (i < |keys| && keys'[i] == keys[i])
    ensures KeysFrom(keys', d)
  {
    forall i {:trigger KeyFrom(keys', i, d)} | 0 <= i < |keys'| ensures KeyFrom(keys', i, d) {
      if i < |keys| {
        assert KeyFrom(keys, i, d);
      }
    }
  }

  lemma KeysFromSaved(keys: seq<SimpleKey>, key: SimpleKey, d: nat)
    requires KeysFrom(keys, d) && keys != [] && key.Possible? && d <= key.number
    ensures KeysFrom(keys[|keys| - 1 := key], d)
  {
    var keys' := keys[|keys| - 1 := key];
    forall i {:trigger KeyFrom(keys', i, d)} | 0 <= i < |keys'| ensures KeyFrom(keys', i, d) {
      assert KeyFrom(keys, i, d);
    }
  }

  lemma InsertKeeps(tokens: seq<Token>, n: nat, t: Token, d: nat)
    requires d <= n <= |tokens|
    ensures Insert(tokens, n, t)[..d] == tokens[..d] && |Insert(tokens, n, t)| == |tokens| + 1
  {
  }

  lemma RollKeeps(s: Scan, column: nat, number: nat, t: Token, d: nat)
    requires d <= number <= |s.tokens| && KeysFrom(s.keys, d)
    ensures Keeps(s, Roll(s, column, number, t), d)
  {
    InsertKeeps(s.tokens, number, t, d);
  }

  lemma RemoveKeeps(s: Scan, d: nat)
    requires s.keys != [] && d <= |s.tokens| && KeysFrom(s.keys, d) && !RemoveKey(s).ScanError?
    ensures Keeps(s, RemoveKey(s).s, d)
  {
    KeysFromLess(s.keys, RemoveKey(s).s.keys, d);
  }

  lemma SaveKeeps(s: Scan, d: nat)
    requires s.keys != [] && d <= |s.tokens| && KeysFrom(s.keys, d) && !SaveKey(s).ScanError?
    ensures Keeps(s, SaveKey(s).s, d)
  {
    if s.c.allowed {
      RemoveKeeps(s, d);
      var key := Possible(s.c.flow == 0 && s.c.indent == s.c.mark.column, |s.tokens|, s.c.mark);
      KeysFromSaved(RemoveKey(s).s.keys, key, d);
    }
  }

  lemma UnrollKeeps(s: Scan, column: int, d: nat)
    requires Running(s) && column >= -1 && d <= |s.tokens| && KeysFrom(s.keys, d)
    ensures Keeps(s, Unroll(s, column), d)
  {
    UnrollInv(s, column);
  }

  lemma FoundKeeps(s: Scan, d: nat)
    requires Running(s) && d <= |s.tokens| && KeysFrom(s.keys, d) && TopKey(s).Possible?
    ensures TopKey(s).number < |s.tokens| && Keeps(s, FoundKey(s, TopKey(s)), d)
  {
    var key := TopKey(s);
    FoundKeyInv(s);
    assert KeyFrom(s.keys, |s.keys| - 1, d);
    InsertKeeps(s.tokens, key.number, Key, d);
    var s1 := s.(tokens := Insert(s.tokens, key.number, Key));
    RollKeeps(s1, key.mark.column, key.number, BlockMappingStart, d);
    KeysFromLess(s.keys, FoundKey(s, key).keys, d);
  }

  lemma IndicatorKeeps(s: Scan, opener: Token, t: Token, allowed: bool, after: Mark, d: nat)
    requires s.keys != [] && d <= |s.tokens| && KeysFrom(s.keys, d)
    requires !FetchIndicator(s, opener, t, allowed, after).ScanError?
    ensures Keeps(s, FetchIndicator(s, opener, t, allowed, after).s, d)
  {
    RollKeeps(s, s.c.mark.column, |s.tokens|, opener, d);
    RemoveKeeps(Roll(s, s.c.mark.column, |s.tokens|, opener), d);
  }

  lemma FlowStartKeeps(s: Scan, t: Token, after: Mark, d: nat)
    requires s.keys != [] && d <= |s.tokens| && KeysFrom(s.keys, d) && !FetchFlowStart(s, t, after).ScanError?
    ensures Keeps(s, FetchFlowStart(s, t, after).s, d)
  {
    SaveKeeps(s, d);
    KeysFromLess(SaveKey(s).s.keys, FetchFlowStart(s, t, after).s.keys, d);
  }

  lemma FlowEndKeeps(s: Scan, t: Token, after: Mark, d: nat)
    requires s.keys != [] && d <= |s.tokens| && KeysFrom(s.keys, d) && !FetchFlowEnd(s, t, after).ScanError?
    ensures Keeps(s, FetchFlowEnd(s, t, after).s, d)
  {
    RemoveKeeps(s, d);
    KeysFromLess(RemoveKey(s).s.keys, FetchFlowEnd(s, t, after).s.keys, d);
  }

  lemma EndKeeps(s: Scan, d: nat)
    requires Running(s) && d <= |s.tokens| && KeysFrom(s.keys, d) && !FetchEnd(s).ScanError?
    ensures Keeps(s, FetchEnd(s).s, d)
  {
    var s1 := s.(c := s.c.(mark := LineEnd(s.c.mark)));
    KeysLater(s.keys, s.keys, s.c.mark, s1.c.mark, |s.tokens|, |s.tokens|);
    UnrollKeeps(s1, -1, d);
    RemoveKeeps(Unroll(s1, -1), d);
  }

  lemma LexemeKeeps(s: Scan, kind: Kind, after: Mark, d: nat)
    requires Running(s) && d <= |s.tokens| && KeysFrom(s.keys, d) && !FetchLexeme(s, kind, after).ScanError?
    ensures Keeps(s, FetchLexeme(s, kind, after).s, d)
  {
    match kind
    case EndOfInput => EndKeeps(s, d);
    case Marker(t) =>
      UnrollKeeps(s, -1, d);
      RemoveKeeps(Unroll(s, -1), d);
    case FlowStart(t) => FlowStartKeeps(s, t, after, d);
    case FlowEnd(t) => FlowEndKeeps(s, t, after, d);
    case FlowComma => RemoveKeeps(s, d);
    case Dash => IndicatorKeeps(s, BlockSequenceStart, BlockEntry, true, after, d);
    case Question => IndicatorKeeps(s, BlockMappingStart, Key, s.c.flow == 0, after, d);
    case Colon =>
      if TopKey(s).Possible? {
        FoundKeeps(s, d);
      } else {
        IndicatorKeeps(s, BlockMappingStart, Value, s.c.flow == 0, after, d);
      }
    case Content(t, newline) => SaveKeeps(s, d);
    case BlockScalar(t) => RemoveKeeps(s, d);
  }

  lemma FetchKeeps(lex: Lexer, limit: nat, s: Scan, d: nat)
    requires Sound(lex, limit, s) && !s.ended && d <= |s.tokens| && KeysFrom(s.keys, d) && !Fetch(lex, s).ScanError?
    ensures Keeps(s, Fetch(lex, s).s, d)
  {
    if s.started {
      var l := lex(s.c);
      assert LexemeOk(s.c, l, limit);
      ArriveInv(s, l);
      KeysFromLess(s.keys, Arrive(s, l).keys, d);
      LexemeKeeps(Arrive(s, l), l.kind, l.after, d);
    } else {
      KeysFromLess(s.keys, Fetch(lex, s).s.keys, d);
    }
  }

  /** The first `d` tokens are final once no possible key stands before them. */
  lemma {:induction false} AheadKeeps(lex: Lexer, limit: nat, s: Scan, d: nat)
    requires Sound(lex, limit, s) && d <= |s.tokens| && KeysFrom(s.keys, d)
    ensures var whole := ScanAhead(lex, limit, s).tokens; |s.tokens| <= |whole| && whole[..d] == s.tokens[..d]
    decreases Left(s, limit)
  {
    if !s.ended && Fetch(lex, s).Fetched? {
      FetchInv(lex, limit, s);
      FetchKeeps(lex, limit, s, d);
      AheadKeeps(lex, limit, Fetch(lex, s).s, d);
    }
  }
}

/** The scanner with its token queue (scanner.c). */
module YamlScanner {
  import opened YamlParserStates
  import opened YamlTokens
  import opened YamlTokensInvariant

  datatype Delivery = Delivered(token: Token) | ScanFailed | NothingLeft

  /** What has been delivered, and that no possible key stands before it. */
  ghost predicate InQueue(s: Scan, delivered: seq<Token>, parsed: nat, end: bool)
  {
    |delivered| == parsed && KeysFrom(s.keys, parsed) && (end <==> StreamEndToken in delivered)
  }

  lemma OneMoreDelivered(s: Scan, delivered: seq<Token>, parsed: nat, t: Token)
    requires InQueue(s, delivered, parsed, false) && KeysFrom(s.keys, parsed + 1)
    ensures InQueue(s, delivered + [t], parsed + 1, t == StreamEndToken)
  {
  }

  class Scanner {
    const lex: Lexer
    ghost const limit: nat

    var mark: Mark
    var flow: nat
    var indent: int
    var indents: seq<int>
    var allowed: bool
    var keys: seq<SimpleKey>
    var started: bool
    var queue: seq<Token>
    var tokensParsed: nat
    var tokenAvailable: bool
    var streamEndProduced: bool
    var error: bool
    ghost var ended: bool
    ghost var delivered: seq<Token>
    ghost var all: seq<Token>  // delivered and queued

    ghost function View(): Scan
      reads this
    {
      Scan(Control(mark, flow, indent, indents, allowed), keys, started, ended, all)
    }

    ghost predicate Linked()
      reads this
    {
      all == delivered + queue
    }

    /** The keys that are possible stand in the queue. */
    ghost predicate Ready()
      reads this
    {
      && Linked() && Sound(lex, limit, View()) && InQueue(View(), delivered, tokensParsed, streamEndProduced)
      && (tokenAvailable ==> queue != [] && KeysFrom(keys, tokensParsed + 1))
    }

    ghost predicate Valid()
      reads this
    {
      && LexerOk(lex, limit) && StartSound(lex, limit)
      && var whole := ScanAhead(lex, limit, Fresh0);
         if error then !whole.ok && delivered <= whole.tokens else Ready() && ScanAhead(lex, limit, View()) == whole
    }

    constructor (lex: Lexer, ghost limit: nat)
      requires LexerOk(lex, limit)
      ensures Valid() && this.lex == lex && this.limit == limit && delivered == [] && !error
    {
      this.lex, this.limit := lex, limit;
      mark, flow, indent, indents, allowed, keys, started := Mark(0, 0, 0), 0, -1, [], false, [], false;
      queue, tokensParsed, tokenAvailable, streamEndProduced, error := [], 0, false, false, false;
      ended, delivered, all := false, [], [];
      new;
      StartIsSound(lex, limit);
      assert View() == Fresh0;
    }

    /** The method did what the function says. */
    ghost predicate Did(r: Fetched, ok: bool)
      reads this
    {
      Linked() && ok == r.Fetched? && (ok ==> View() == r.s)
    }

    method Enqueue(t: Token)
      requires Linked()
      modifies this`queue, this`all
      ensures Linked() && View() == old(View()).(tokens := old(View()).tokens + [t])
    {
      assert delivered + (queue + [t]) == delivered + queue + [t];
      queue, all := queue + [t], all + [t];
    }

    /** Inserts before the token with the number, which is still in the queue. */
    method QueueInsert(number: nat, t: Token)
      requires Linked() && |delivered| == tokensParsed <= number <= tokensParsed + |queue|
      modifies this`queue, this`all
      ensures Linked() && View() == old(View()).(tokens := Insert(old(View()).tokens, number, t))
        && |queue| == |old(queue)| + 1
    {
      var at := number - tokensParsed;
      InsertInQueue(delivered, queue, number, t);
      queue, all := queue[..at] + [t] + queue[at..], Insert(all, number, t);
    }

    method StaleSimpleKeys() returns (ok: bool)
      modifies this`keys
      ensures ok == !StaleError(old(keys), mark)
      ensures ok ==> keys == Stale(old(keys), mark)
    {
      var i := 0;
      ghost var before := keys;
      while i < |keys|
        invariant 0 <= i <= |keys| == |before|
        invariant forall j ::
          0 <= j < i ==> keys[j] == Fresh(before[j], mark) && !(StaleKey(before[j], mark) && before[j].required)
        invariant forall j :: i <= j < |keys| ==> keys[j] == before[j]
      {
        if keys[i].Possible? && (keys[i].mark.line < mark.line || keys[i].mark.index + 1024 < mark.index) {
          if keys[i].required {
            assert StaleKey(before[i], mark);
            return false;
          }
          keys := keys[i := NoKey];
        }
        i := i + 1;
      }
      ok := true;
    }

    method RemoveSimpleKey() returns (ok: bool)
      requires Linked() && keys != []
      modifies this`keys
      ensures Did(RemoveKey(old(View())), ok)
    {
      var top := |keys| - 1;
      if keys[top].Possible? && keys[top].required {
        return false;
      }
      keys := keys[top := NoKey];
      ok := true;
    }

    method SaveSimpleKey() returns (ok: bool)
      requires Linked() && keys != [] && |delivered| == tokensParsed
      modifies this`keys
      ensures Did(SaveKey(old(View())), ok)
    {
      var required := flow == 0 && indent == mark.column;
      ok := true;
      if allowed {
        var key := Possible(required, tokensParsed + |queue|, mark);
        ok := RemoveSimpleKey();
        if ok {
          keys := keys[|keys| - 1 := key];
        }
      }
    }

    /** Opens a block collection; `number` is the token it begins before, or -1 for the end of the queue. */
    method RollIndent(column: nat, number: int, t: Token)
      requires Linked() && |delivered| == tokensParsed
        && (number == -1 || tokensParsed <= number <= tokensParsed + |queue|)
      modifies this`indent, this`indents, this`queue, this`all
      ensures Linked() && View() == Roll(old(View()), column, if number == -1 then |old(View()).tokens| else number, t)
    {
      if flow > 0 {
        return;
      }
      if indent < column {
        indents, indent := indents + [indent], column;
        if number == -1 {
          Enqueue(t);
          InsertAtEnd(old(View()).tokens, t);
        } else {
          QueueInsert(number, t);
        }
      }
    }

    /** The stack of levels never underflows. */
    method UnrollIndent(column: int)
      requires Linked() && LevelsOk(indents, indent) && column >= -1
      modifies this`indent, this`indents, this`queue, this`all
      ensures Linked() && View() == Unroll(old(View()), column)
    {
      if flow > 0 {
        return;
      }
      while indent > column
        invariant LevelsOk(indents, indent) && Linked()
        invariant Unroll(View(), column) == Unroll(old(View()), column)
        decreases |indents|
      {
        LevelAbove(indents, indent);
        LevelPopped(indents, indent);
        Enqueue(BlockEnd);
        indent, indents := indents[|indents| - 1], indents[..|indents| - 1];
      }
    }

    method FetchStreamStart()
      requires Linked() && !started
      modifies this`indent, this`keys, this`allowed, this`started, this`queue, this`all
      ensures Linked() && View() == Fetch(lex, old(View())).s
    {
      indent := -1;
      keys := keys + [NoKey];
      allowed, started := true, true;
      Enqueue(StreamStartToken);
    }

    method FetchStreamEnd() returns (ok: bool)
      requires Linked() && keys != [] && LevelsOk(indents, indent)
      modifies this`mark, this`indent, this`indents, this`keys, this`allowed, this`queue, this`all, this`ended
      ensures Did(FetchEnd(old(View())), ok)
    {
      if mark.column != 0 {
        mark := Mark(mark.index, mark.line + 1, 0);
      }
      UnrollIndent(-1);
      ok := RemoveSimpleKey();
      if ok {
        allowed, ended := false, true;
        Enqueue(StreamEndToken);
      }
    }

    method FetchMark(t: Token, after: Mark) returns (ok: bool)
      requires Linked() && keys != [] && LevelsOk(indents, indent)
      modifies this`mark, this`indent, this`indents, this`keys, this`allowed, this`queue, this`all
      ensures Did(FetchMarker(old(View()), t, after), ok)
    {
      UnrollIndent(-1);
      ok := RemoveSimpleKey();
      if ok {
        allowed, mark := false, after;
        Enqueue(t);
      }
    }

    method FetchFlowCollectionStart(t: Token, after: Mark) returns (ok: bool)
      requires Linked() && keys != [] && |delivered| == tokensParsed
      modifies this`mark, this`flow, this`keys, this`allowed, this`queue, this`all
      ensures Did(FetchFlowStart(old(View()), t, after), ok)
    {
      ok := SaveSimpleKey();
      if ok {
        keys, flow := keys + [NoKey], flow + 1;
        allowed, mark := true, after;
        Enqueue(t);
      }
    }

    method FetchFlowCollectionEnd(t: Token, after: Mark) returns (ok: bool)
      requires Linked() && keys != []
      modifies this`mark, this`flow, this`keys, this`allowed, this`queue, this`all
      ensures Did(FetchFlowEnd(old(View()), t, after), ok)
    {
      ok := RemoveSimpleKey();
      if ok {
        if flow > 0 {
          flow, keys := flow - 1, keys[..|keys| - 1];
        }
        allowed, mark := false, after;
        Enqueue(t);
      }
    }

    /** A flow entry or a block scalar. */
    method FetchSimple(t: Token, after: Mark) returns (ok: bool)
      requires Linked() && keys != []
      modifies this`mark, this`keys, this`allowed, this`queue, this`all
      ensures Did(FetchPlainly(old(View()), t, after), ok)
    {
      ok := RemoveSimpleKey();
      if ok {
        allowed, mark := true, after;
        Enqueue(t);
      }
    }

    /** A block entry, a complex key, or the value of one. */
    method FetchBlockIndicator(opener: Token, t: Token, allow: bool, after: Mark) returns (ok: bool)
      requires Linked() && keys != [] && |delivered| == tokensParsed
      modifies this`mark, this`indent, this`indents, this`keys, this`allowed, this`queue, this`all
      ensures Did(FetchIndicator(old(View()), opener, t, allow, after), ok)
    {
      if flow == 0 {
        if !allowed {
          return false;
        }
      }
      RollIndent(mark.column, -1, opener);
      ok := RemoveSimpleKey();
      if ok {
        allowed, mark := allow, after;
        Enqueue(t);
      }
    }

    /** The KEY of a simple key, and the start of its mapping, are put before a token that is still in the queue. */
    method PutKey(key: SimpleKey)
      requires Linked() && keys != [] && key.Possible?
        && |delivered| == tokensParsed <= key.number <= tokensParsed + |queue|
      modifies this`indent, this`indents, this`keys, this`queue, this`all
      ensures Linked() && View() == FoundKey(old(View()), key)
    {
      QueueInsert(key.number, Key);
      RollIndent(key.mark.column, key.number, BlockMappingStart);
      keys := keys[|keys| - 1 := NoKey];
    }

    method FetchColon(after: Mark) returns (ok: bool)
      requires Linked() && keys != [] && |delivered| == tokensParsed
      requires TopKey(View()).Possible? ==> tokensParsed <= TopKey(View()).number <= tokensParsed + |queue|
      modifies this`mark, this`indent, this`indents, this`keys, this`allowed, this`queue, this`all
      ensures Did(FetchValue(old(View()), after), ok)
    {
      var key := keys[|keys| - 1];
      if key.Possible? {
        PutKey(key);
        allowed, mark := false, after;
        Enqueue(Value);
        ok := true;
      } else {
        ok := FetchBlockIndicator(BlockMappingStart, Value, flow == 0, after);
      }
    }

    method FetchScalar(t: Token, newline: bool, after: Mark) returns (ok: bool)
      requires Linked() && keys != [] && |delivered| == tokensParsed
      modifies this`mark, this`keys, this`allowed, this`queue, this`all
      ensures Did(FetchContent(old(View()), t, newline, after), ok)
    {
      ok := SaveSimpleKey();
      if ok {
        allowed, mark := newline, after;
        Enqueue(t);
      }
    }

    method FetchToken(kind: Kind, after: Mark) returns (ok: bool)
      requires Linked() && Running(View()) && |delivered| == tokensParsed && KeysFrom(keys, tokensParsed)
      modifies this`mark, this`flow, this`indent, this`indents, this`allowed, this`keys, this`queue, this`all,
        this`ended
      ensures Did(FetchLexeme(old(View()), kind, after), ok)
    {
      match kind
      case EndOfInput => ok := FetchStreamEnd();
      case Marker(t) => ok := FetchMark(t, after);
      case FlowStart(t) => ok := FetchFlowCollectionStart(t, after);
      case FlowEnd(t) => ok := FetchFlowCollectionEnd(t, after);
      case FlowComma => ok := FetchSimple(FlowEntry, after);
      case Dash => ok := FetchBlockIndicator(BlockSequenceStart, BlockEntry, true, after);
      case Question => ok := FetchBlockIndicator(BlockMappingStart, Key, flow == 0, after);
      case Colon =>
        assert KeyFrom(keys, |keys| - 1, tokensParsed) && KeyOk(keys, |keys| - 1, mark, |all|);
        ok := FetchColon(after);
      case Content(t, newline) => ok := FetchScalar(t, newline, after);
      case BlockScalar(t) => ok := FetchSimple(t, after);
    }

    method FetchNextToken() returns (ok: bool)
      requires Ready() && !ended
      modifies this`mark, this`flow, this`indent, this`indents, this`allowed, this`keys, this`started, this`queue,
        this`all, this`ended
      ensures Did(Fetch(lex, old(View())), ok)
    {
      if !started {
        FetchStreamStart();
        return true;
      }
      ghost var s := View();
      var l := lex(Control(mark, flow, indent, indents, allowed));
      if l.NoLexeme? {
        return false;
      }
      assert LexemeOk(s.c, l, limit);
      ArriveInv(s, l);
      KeysFromLess(s.keys, Stale(s.keys, l.start), tokensParsed);
      ok := MoveTo(l);
      if ok {
        ok := FetchToken(l.kind, l.after);
      }
    }

    /** Stands at the beginning of a lexeme: stale keys are dropped and deeper levels ended. */
    method MoveTo(l: Lexeme) returns (ok: bool)
      requires Linked() && l.Lexeme? && LevelsOk(indents, indent)
      modifies this`mark, this`indent, this`indents, this`allowed, this`keys, this`queue, this`all
      ensures Linked() && ok == !StaleError(old(keys), l.start)
      ensures ok ==> View() == Arrive(old(View()), l)
    {
      mark, allowed := l.start, l.allowed;
      ok := StaleSimpleKeys();
      if ok {
        UnrollIndent(l.start.column);
      }
    }

    /** One more token. */
    method FetchOne() returns (ok: bool)
      requires Ready() && !ended && !tokenAvailable
      modifies this`mark, this`flow, this`indent, this`indents, this`allowed, this`keys, this`started, this`queue,
        this`all, this`ended
      ensures ok ==> Ready() && ScanAhead(lex, limit, View()) == old(ScanAhead(lex, limit, View()))
      ensures ok ==> Left(View(), limit) < old(Left(View(), limit))
      ensures !ok ==> !old(ScanAhead(lex, limit, View())).ok
    {
      ghost var s := View();
      ok := FetchNextToken();
      if ok {
        FetchInv(lex, limit, s);
        FetchKeeps(lex, limit, s, tokensParsed);
      }
    }

    /** Fetches until the head of the queue cannot change any more. */
    method FetchMoreTokens() returns (ok: bool)
      requires Ready() && !streamEndProduced && !tokenAvailable
      modifies this`mark, this`flow, this`indent, this`indents, this`allowed, this`keys, this`started, this`queue,
        this`all, this`ended,
               this`tokenAvailable
      ensures ok ==> Ready() && tokenAvailable && ScanAhead(lex, limit, View()) == old(ScanAhead(lex, limit, View()))
      ensures ok ==>
        Left(View(), limit) < old(Left(View(), limit))
        || (Left(View(), limit) == old(Left(View(), limit)) && queue == old(queue))
      ensures !ok ==> !old(ScanAhead(lex, limit, View())).ok
    {
      ghost var whole, left := ScanAhead(lex, limit, View()), Left(View(), limit);
      var done := false;
      ok := true;
      while !done
        invariant ok && OnCourse(whole, left, old(queue)) && !tokenAvailable
        invariant done ==> queue != [] && KeysFrom(keys, tokensParsed + 1)
        decreases !done, Left(View(), limit)
      {
        ok, done := FetchMore(whole, left, old(queue));
        if !ok {
          return;
        }
      }
      tokenAvailable := true;
    }

    /** The outcome is still `whole`, and the scanner has got further or changed nothing. */
    ghost predicate OnCourse(whole: Ahead, left: nat, first: seq<Token>)
      reads this
    {
      && Ready() && ScanAhead(lex, limit, View()) == whole
      && (Left(View(), limit) < left || (Left(View(), limit) == left && queue == first))
    }

    /** One turn of the loop. */
    method FetchMore(ghost whole: Ahead, ghost left: nat, ghost first: seq<Token>) returns (ok: bool, done: bool)
      requires OnCourse(whole, left, first) && !streamEndProduced && !tokenAvailable
      modifies this`mark, this`flow, this`indent, this`indents, this`allowed, this`keys, this`started, this`queue,
        this`all, this`ended
      ensures ok ==> OnCourse(whole, left, first)
      ensures ok ==> if done then queue != [] && KeysFrom(keys, tokensParsed + 1)
        else Left(View(), limit) < old(Left(View(), limit))
      ensures !ok ==> !whole.ok
    {
      var need;
      ok, need := NeedMoreTokens();
      done := !need;
      if ok && need {
        ok := FetchOne();
      }
    }

    /** Whether the head of the queue is missing or may still change. */
    method NeedMoreTokens() returns (ok: bool, need: bool)
      requires Ready() && !streamEndProduced && !tokenAvailable
      modifies this`keys
      ensures ok ==> Ready() && ScanAhead(lex, limit, View()) == old(ScanAhead(lex, limit, View()))
      ensures ok ==> Left(View(), limit) == old(Left(View(), limit))
      ensures ok ==> if need then !ended else queue != [] && KeysFrom(keys, tokensParsed + 1)
      ensures !ok ==> !old(ScanAhead(lex, limit, View())).ok
    {
      if queue == [] {
        EmptyIsNotEnded();
        return true, true;
      }
      ok := CheckHead();
      need := false;
      if ok {
        need := HeadMayChange();
      }
    }

    lemma EmptyIsNotEnded()
      requires Ready() && !streamEndProduced && queue == []
      ensures !ended
    {
      assert all == delivered;
    }

    /** The check for stale keys before a delivery changes nothing in the outcome. */
    method CheckHead() returns (ok: bool)
      requires Ready() && !tokenAvailable
      modifies this`keys
      ensures ok ==> Ready() && ScanAhead(lex, limit, View()) == old(ScanAhead(lex, limit, View()))
      ensures ok ==> Left(View(), limit) == old(Left(View(), limit)) && keys == Stale(old(keys), mark)
      ensures !ok ==> !old(ScanAhead(lex, limit, View())).ok
    {
      ghost var s := View();
      DropStale(lex, limit, s);
      KeysFromLess(keys, Stale(keys, mark), tokensParsed);
      ok := StaleSimpleKeys();
      assert ok ==> View() == s.(keys := Stale(s.keys, s.c.mark));
    }

    /** Whether a possible key stands before the head of the queue. */
    method HeadMayChange() returns (need: bool)
      requires Ready() && forall i :: 0 <= i < |keys| ==> !StaleKey(keys[i], mark)
      ensures need <==> exists i :: 0 <= i < |keys| && keys[i].Possible? && keys[i].number == tokensParsed
      ensures if need then !ended else KeysFrom(keys, tokensParsed + 1)
    {
      var i := 0;
      while i < |keys|
        invariant 0 <= i <= |keys|
        invariant forall j :: 0 <= j < i ==> !(keys[j].Possible? && keys[j].number == tokensParsed)
      {
        if keys[i].Possible? && keys[i].number == tokensParsed {
          return true;
        }
        i := i + 1;
      }
      forall j {:trigger KeyFrom(keys, j, tokensParsed + 1)} | 0 <= j < |keys|
        ensures KeyFrom(keys, j, tokensParsed + 1)
      {
        assert KeyFrom(keys, j, tokensParsed);
      }
      need := false;
    }

    method Dequeue() returns (t: Token)
      requires Linked() && InQueue(View(), delivered, tokensParsed, false) && queue != []
        && KeysFrom(keys, tokensParsed + 1)
      requires !streamEndProduced
      modifies this`delivered, this`queue, this`tokenAvailable, this`tokensParsed, this`streamEndProduced
      ensures Linked() && InQueue(View(), delivered, tokensParsed, streamEndProduced) && !tokenAvailable
      ensures delivered == old(delivered) + [t] && streamEndProduced == (t == StreamEndToken)
        && |queue| == |old(queue)| - 1
    {
      t := queue[0];
      HeadMoves(delivered, queue);
      OneMoreDelivered(View(), delivered, tokensParsed, t);
      delivered := delivered + [queue[0]];
      queue := queue[1..];
      tokenAvailable, tokensParsed := false, tokensParsed + 1;
      if t == StreamEndToken {
        streamEndProduced := true;
      }
    }

    method Deliver() returns (t: Token)
      requires Ready() && tokenAvailable && !streamEndProduced
      modifies this`delivered, this`queue, this`tokenAvailable, this`tokensParsed, this`streamEndProduced
      ensures Ready() && View() == old(View()) && delivered == old(delivered) + [t]
        && streamEndProduced == (t == StreamEndToken)
      ensures |queue| == |old(queue)| - 1
    {
      ghost var s := View();
      t := Dequeue();
      assert View() == s;
    }

    /** The next token. What is delivered is always the beginning of what scanning everything first gives; a failure
        means that scanning everything first fails too. */
    method Next() returns (r: Delivery)
      requires Valid()
      modifies this
      ensures Valid()
      ensures r == NothingLeft <==> old(streamEndProduced || error)
      ensures r == NothingLeft ==> delivered == old(delivered) && error == old(error)
      ensures r.ScanFailed? ==> error && delivered == old(delivered)
      ensures r.Delivered? ==>
        !error && delivered == old(delivered) + [r.token] && streamEndProduced == (r.token == StreamEndToken)
      ensures r.Delivered? ==> Left(View(), limit) <= old(Left(View(), limit))
      ensures r.Delivered? && Left(View(), limit) == old(Left(View(), limit)) ==> |queue| < |old(queue)|
    {
      if streamEndProduced || error {
        return NothingLeft;
      }
      DeliveredIsFinal();
      r := NextWhenReady();
      if r.ScanFailed? {
        error := true;
      }
    }

    method NextWhenReady() returns (r: Delivery)
      requires Ready() && !streamEndProduced
      modifies this`mark, this`flow, this`indent, this`indents, this`allowed, this`keys, this`started, this`queue,
        this`all, this`ended,
               this`tokenAvailable, this`delivered, this`tokensParsed, this`streamEndProduced
      ensures !r.NothingLeft?
      ensures r.ScanFailed? ==> !old(ScanAhead(lex, limit, View())).ok && delivered == old(delivered)
      ensures r.Delivered? ==> Ready() && ScanAhead(lex, limit, View()) == old(ScanAhead(lex, limit, View()))
      ensures r.Delivered? ==>
        delivered == old(delivered) + [r.token] && streamEndProduced == (r.token == StreamEndToken)
      ensures r.Delivered? ==> Left(View(), limit) <= old(Left(View(), limit))
      ensures r.Delivered? && Left(View(), limit) == old(Left(View(), limit)) ==> |queue| < |old(queue)|
    {
      if !tokenAvailable {
        var ok := FetchMoreTokens();
        if !ok {
          return ScanFailed;
        }
      }
      var t := Deliver();
      r := Delivered(t);
    }

    /** Everything delivered so far is final: it begins what scanning everything first gives, up to its error if it has
        one; and at the end of the stream it is everything. */
    lemma DeliveredIsFinal()
      requires Valid()
      ensures delivered <= ScanAhead(lex, limit, Fresh0).tokens
      ensures error ==> !ScanAhead(lex, limit, Fresh0).ok
      ensures !error && streamEndProduced ==> ScanAhead(lex, limit, Fresh0) == Ahead(true, delivered)
    {
      if !error {
        AheadKeeps(lex, limit, View(), tokensParsed);
        assert View().tokens[..tokensParsed] == delivered;
        if streamEndProduced {
          AllDelivered();
        }
      }
    }

    /** What holds whenever the scanner is at rest. */
    lemma AtRest()
      requires Valid() && !error
      ensures started ==> |keys| == flow + 1
      ensures forall i ::
        0 <= i < |keys| && keys[i].Possible? ==> tokensParsed <= keys[i].number < tokensParsed + |queue|
      ensures forall i, j ::
        0 <= i < j < |keys| && keys[i].Possible? && keys[j].Possible? ==> keys[i].number < keys[j].number
      ensures indent >= -1 && (forall i :: 0 <= i < |indents| ==> indents[i] < indent)
        && (indents != [] ==> indents[0] == -1)
      ensures forall i, j :: 0 <= i < j < |indents| ==> indents[i] < indents[j]
      ensures Balance(delivered + queue) == |indents|
    {
      forall i | 0 <= i < |keys| && keys[i].Possible? ensures tokensParsed <= keys[i].number < tokensParsed + |queue| {
        assert KeyOk(keys, i, mark, |delivered + queue|) && KeyFrom(keys, i, tokensParsed);
      }
      forall i, j | 0 <= i < j < |keys| && keys[i].Possible?
        && keys[j].Possible? ensures keys[i].number < keys[j].number {
        assert Before(keys, i, j);
      }
      LevelAbove(indents, indent);
      LevelsIncrease(indents, indent);
    }

    lemma AllDelivered()
      requires Ready() && streamEndProduced
      ensures ScanAhead(lex, limit, View()) == Ahead(true, delivered)
    {
      var all := delivered + queue;
      var k :| 0 <= k < |delivered| && delivered[k] == StreamEndToken;
      assert all[k] == StreamEndToken && ended;
      forall j | 0 <= j < |all| - 1 ensures all[j] != StreamEndToken {
        assert all[..|all| - 1][j] == all[j];
      }
      assert queue == [] && all == delivered;
      forall i | 0 <= i < |keys| ensures keys[i] == NoKey {
        assert KeyOk(keys, i, mark, |all|) && KeyFrom(keys, i, tokensParsed);
      }
    }
  }

  lemma HeadMoves(delivered: seq<Token>, queue: seq<Token>)
    requires queue != []
    ensures (delivered + [queue[0]]) + queue[1..] == delivered + queue
    ensures StreamEndToken in delivered + [queue[0]] <==> StreamEndToken in delivered || queue[0] == StreamEndToken
  {
  }

  lemma InsertInQueue(delivered: seq<Token>, queue: seq<Token>, number: nat, t: Token)
    requires |delivered| <= number <= |delivered| + |queue|
    ensures var at := number - |delivered|;
      delivered + (queue[..at] + [t] + queue[at..]) == Insert(delivered + queue, number, t)
  {
    var at, all := number - |delivered|, delivered + queue;
    assert all[..number] == delivered + queue[..at];
    assert all[number..] == queue[at..];
  }

  lemma InsertAtEnd(tokens: seq<Token>, t: Token)
    ensures Insert(tokens, |tokens|, t) == tokens + [t]
  {
    assert tokens[..|tokens|] == tokens && tokens[|tokens|..] == [];
  }

  /** Delivers everything. The outcome is that of scanning everything first; up to an error, tokens that come before
      it. */
  method ScanAll(lex: Lexer, ghost limit: nat) returns (ok: bool, tokens: seq<Token>)
    requires LexerOk(lex, limit)
    ensures StartSound(lex, limit)
    ensures ok <==> ScanAhead(lex, limit, Fresh0).ok
    ensures if ok then tokens == ScanAhead(lex, limit, Fresh0).tokens
      else tokens <= ScanAhead(lex, limit, Fresh0).tokens
  {
    var scanner := new Scanner(lex, limit);
    tokens := [];
    while true
      invariant scanner.Valid() && fresh(scanner) && scanner.lex == lex && scanner.limit == limit && !scanner.error
      invariant tokens == scanner.delivered && !scanner.streamEndProduced
      decreases Left(scanner.View(), limit), |scanner.queue|
    {
      var r := scanner.Next();
      scanner.DeliveredIsFinal();
      if r.ScanFailed? {
        return false, tokens;
      }
      tokens := tokens + [r.token];
      if r.token == StreamEndToken {
        return true, tokens;
      }
    }
  }

  ghost predicate StartSound(lex: Lexer, limit: nat)
  {
    Sound(lex, limit, Fresh0)
  }

  lemma StartIsSound(lex: Lexer, limit: nat)
    requires LexerOk(lex, limit)
    ensures StartSound(lex, limit) && KeysFrom([], 0)
  {
  }
}
