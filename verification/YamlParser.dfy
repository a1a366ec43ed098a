/** The states of the parser and what they mean for the event stream (parser.c). */
module YamlParserStates {
  import opened Wrappers
  import opened YamlEvents

  datatype Token =
    | StreamStartToken
    | StreamEndToken
    | VersionDirective(major: int, minor: int)
    | TagDirective(directive: Directive)
    | DocumentStartToken
    | DocumentEndToken
    | BlockSequenceStart
    | BlockMappingStart
    | BlockEnd
    | FlowSequenceStart
    | FlowSequenceEnd
    | FlowMappingStart
    | FlowMappingEnd
    | BlockEntry
    | FlowEntry
    | Key
    | Value
    | AliasToken(name: string)
    | AnchorToken(name: string)
    | TagToken(handle: string, suffix: string)
    | ScalarToken(value: string, plain: bool)

  datatype Directive = Directive(handle: string, prefix: string)

  datatype State =
    | AtStreamStart
    | AtImplicitDocumentStart
    | AtDocumentStart
    | AtDocumentContent
    | AtDocumentEnd
    | AtBlockNode
    | BlockSequenceFirstEntry
    | BlockSequenceEntry
    | IndentlessSequenceEntry
    | BlockMappingFirstKey
    | BlockMappingKey
    | BlockMappingValue
    | FlowSequenceFirstEntry
    | FlowSequenceEntry
    | FlowEntryMappingKey
    | FlowEntryMappingValue
    | FlowEntryMappingEnd
    | FlowMappingFirstKey
    | FlowMappingKey
    | FlowMappingValue
    | FlowMappingEmptyValue
    | AtEnd

  /** The states that a node can return to, besides the end of the document. */
  predicate Continuation(s: State)
  {
    match s
    case BlockSequenceEntry | IndentlessSequenceEntry | BlockMappingKey | BlockMappingValue | FlowSequenceEntry => true
    case FlowEntryMappingValue | FlowEntryMappingEnd | FlowMappingKey | FlowMappingValue | FlowMappingEmptyValue => true
    case _ => false
  }

  /** The frames of the collection that the state belongs to. */
  function Frames(s: State): seq<Frame>
  {
    match s
    case BlockSequenceFirstEntry | BlockSequenceEntry | IndentlessSequenceEntry => [InSequence]
    case FlowSequenceFirstEntry | FlowSequenceEntry => [InSequence]
    case BlockMappingFirstKey | BlockMappingKey | FlowMappingFirstKey | FlowMappingKey => [AwaitKey]
    case BlockMappingValue | FlowMappingValue | FlowMappingEmptyValue => [AwaitValue]
    case FlowEntryMappingKey | FlowEntryMappingEnd => [InSequence, AwaitKey]
    case FlowEntryMappingValue => [InSequence, AwaitValue]
    case _ => []
  }

  /** The same frames while the node is read after which the parser goes on in the state. */
  function Awaiting(s: State): seq<Frame>
  {
    match s
    case BlockSequenceEntry | IndentlessSequenceEntry | FlowSequenceEntry => [InSequence]
    case BlockMappingValue | FlowMappingValue | FlowMappingEmptyValue => [AwaitKey]
    case BlockMappingKey | FlowMappingKey => [AwaitValue]
    case FlowEntryMappingValue => [InSequence, AwaitKey]
    case FlowEntryMappingEnd => [InSequence, AwaitValue]
    case _ => []
  }

  /** Whether the collection of the state has a mark on the mark stack. */
  function Marked(s: State): nat
  {
    match s
    case BlockSequenceEntry | BlockMappingKey | BlockMappingValue | FlowSequenceEntry | FlowEntryMappingKey => 1
    case FlowEntryMappingValue | FlowEntryMappingEnd | FlowMappingKey | FlowMappingValue | FlowMappingEmptyValue => 1
    case _ => 0
  }

  /** How many events may come from the state before a token must be consumed. */
  function Rank(s: State): nat
  {
    match s
    case AtImplicitDocumentStart | FlowEntryMappingKey => 3
    case FlowEntryMappingValue => 2
    case AtDocumentContent | AtDocumentEnd | AtBlockNode | IndentlessSequenceEntry | BlockMappingValue => 1
    case FlowEntryMappingEnd | FlowMappingValue | FlowMappingEmptyValue => 1
    case _ => 0
  }

  /** The state of the collection that a token opens, if it opens one here. */
  function Opening(t: Token, block: bool, indentless: bool): (s: Option<State>)
    ensures s.Some? ==>
      (First(s.value) && t == Opener(s.value)) || (s.value == IndentlessSequenceEntry && t == BlockEntry && indentless)
    ensures s.Some? ==> Frames(s.value) == [if IsSequence(s.value) then InSequence else AwaitKey]
  {
    if indentless && t == BlockEntry then Some(IndentlessSequenceEntry)
    else if t == FlowSequenceStart then Some(FlowSequenceFirstEntry)
    else if t == FlowMappingStart then Some(FlowMappingFirstKey)
    else if block && t == BlockSequenceStart then Some(BlockSequenceFirstEntry)
    else if block && t == BlockMappingStart then Some(BlockMappingFirstKey)
    else None
  }

  predicate IsSequence(s: State)
  {
    s == IndentlessSequenceEntry || s == FlowSequenceFirstEntry || s == BlockSequenceFirstEntry
  }

  // Tags and the directives that they refer to.

  /** The first directive with the handle. */
  function Resolve(directives: seq<Directive>, handle: string): (r: Option<string>)
    ensures r.None? <==> forall d :: d in directives ==> d.handle != handle
    ensures r.Some? ==> Directive(handle, r.value) in directives
  {
    if directives == [] then None
    else if directives[0].handle == handle then Some(directives[0].prefix)
    else Resolve(directives[1..], handle)
  }

  /** The tag in full; none if its handle is not defined. */
  function FullTag(directives: seq<Directive>, handle: string, suffix: string): Option<string>
  {
    if handle == "" then Some(suffix)
    else if Resolve(directives, handle).None? then None
    else Some(Resolve(directives, handle).value + suffix)
  }

  /** A directive is added unless its handle is defined already. */
  function Added(directives: seq<Directive>, d: Directive): seq<Directive>
  {
    if Resolve(directives, d.handle).None? then directives + [d] else directives
  }

  function WithDefaults(directives: seq<Directive>): seq<Directive>
  {
    Added(Added(directives, Directive("!", "!")), Directive("!!", "tag:yaml.org,2002:"))
  }

  // What tokens say and events repeat.

  datatype Mention =
    | AnchorMention(name: string)
    | AliasMention(name: string)
    | ValueMention(value: string)
    | TagMention(tag: Option<string>)
    | EndMention

  /** Anchors, aliases, scalars that are not empty and the end of the stream, in order. */
  function TokenMentions(ts: seq<Token>): seq<Mention>
  {
    if ts == [] then []
    else
      match ts[0]
      case AnchorToken(name) => [AnchorMention(name)] + TokenMentions(ts[1..])
      case AliasToken(name) => [AliasMention(name)] + TokenMentions(ts[1..])
      case ScalarToken(value, _) => ValueMentions(value) + TokenMentions(ts[1..])
      case StreamEndToken => [EndMention] + TokenMentions(ts[1..])
      case _ => TokenMentions(ts[1..])
  }

  /** Tags in full and the end of the stream, in order: `active` are the directives of the document, `pending` those
      read for the one that starts next. */
  function TokenTags(ts: seq<Token>, active: seq<Directive>, pending: seq<Directive>): seq<Mention>
    decreases |ts|
  {
    if ts == [] then []
    else
      match ts[0]
      case TagToken(handle, suffix) => [TagMention(FullTag(active, handle, suffix))]
        + TokenTags(ts[1..], active, pending)
      case TagDirective(d) => TokenTags(ts[1..], active, pending + [d])
      case DocumentStartToken => TokenTags(ts[1..], WithDefaults(pending), [])
      case StreamEndToken => [EndMention] + TokenTags(ts[1..], active, pending)
      case _ => TokenTags(ts[1..], active, pending)
  }

  function ValueMentions(value: string): seq<Mention>
  {
    if value == "" then [] else [ValueMention(value)]
  }

  function AnchorMentions(anchor: Option<string>): seq<Mention>
  {
    if anchor.None? then [] else [AnchorMention(anchor.value)]
  }

  function TagMentions(tag: Option<string>): seq<Mention>
  {
    if tag.None? then [] else [TagMention(tag)]
  }

  function EventMentions(e: Event): seq<Mention>
  {
    match e
    case Alias(name) => [AliasMention(name)]
    case Scalar(anchor, _, value, _, _) => AnchorMentions(anchor) + ValueMentions(value)
    case SequenceStart(anchor, _, _) => AnchorMentions(anchor)
    case MappingStart(anchor, _, _) => AnchorMentions(anchor)
    case StreamEnd => [EndMention]
    case _ => []
  }

  function EventTags(e: Event): seq<Mention>
  {
    match e
    case Scalar(_, tag, _, _, _) => TagMentions(tag)
    case SequenceStart(_, tag, _) => TagMentions(tag)
    case MappingStart(_, tag, _) => TagMentions(tag)
    case StreamEnd => [EndMention]
    case _ => []
  }

  function Mentions(es: seq<Event>): seq<Mention>
  {
    if es == [] then [] else Mentions(es[..|es| - 1]) + EventMentions(es[|es| - 1])
  }

  function Tags(es: seq<Event>): seq<Mention>
  {
    if es == [] then [] else Tags(es[..|es| - 1]) + EventTags(es[|es| - 1])
  }

  /** What is still to be read, and the directives in force. */
  datatype Unread = Unread(tokens: seq<Token>, active: seq<Directive>)

  /** Nothing was read that an event would repeat. */
  ghost predicate Same(before: Unread, after: Unread)
  {
    && TokenMentions(before.tokens) == TokenMentions(after.tokens)
    && TokenTags(before.tokens, before.active, []) == TokenTags(after.tokens, after.active, [])
  }

  /** What was read is what the event says. */
  ghost predicate Kept(before: Unread, e: Event, after: Unread)
  {
    && TokenMentions(before.tokens) == EventMentions(e) + TokenMentions(after.tokens)
    && TokenTags(before.tokens, before.active, []) == EventTags(e) + TokenTags(after.tokens, after.active, [])
  }

  /** The properties of a node were read. */
  ghost predicate PropertiesRead(before: Unread, anchor: Option<string>, tag: Option<string>, after: Unread)
  {
    && TokenMentions(before.tokens) == AnchorMentions(anchor) + TokenMentions(after.tokens)
    && TokenTags(before.tokens, before.active, []) == TagMentions(tag) + TokenTags(after.tokens, after.active, [])
  }

  /** The same, with the tag as it was written. */
  ghost predicate PropertiesMet(before: Unread, anchor: Option<string>, t: Option<Token>, after: Unread)
    requires t.Some? ==> t.value.TagToken?
  {
    && before.active == after.active
    && TokenMentions(before.tokens) == AnchorMentions(anchor) + TokenMentions(after.tokens)
    && TokenTags(before.tokens, before.active, []) ==
       (if t.None? then [] else [TagMention(FullTag(before.active, t.value.handle, t.value.suffix))])
       + TokenTags(after.tokens, after.active, [])
  }

  lemma PropertiesResolved(before: Unread, anchor: Option<string>, t: Option<Token>, tag: Option<string>, after: Unread)
    requires (t.Some? ==> t.value.TagToken?) && PropertiesMet(before, anchor, t, after)
    requires if t.None? then tag.None? else tag.Some? && tag == FullTag(before.active, t.value.handle, t.value.suffix)
    ensures PropertiesRead(before, anchor, tag, after)
  {
  }

  lemma NoProperties(u: Unread)
    ensures PropertiesMet(u, None, None, u)
  {
  }

  lemma AnchorMet(before: Unread, t: Option<Token>, u: Unread)
    requires (t.Some? ==> t.value.TagToken?) && PropertiesMet(before, None, t, u) && u.tokens != []
      && u.tokens[0].AnchorToken?
    ensures PropertiesMet(before, Some(u.tokens[0].name), t, u.(tokens := u.tokens[1..]))
  {
  }

  lemma TagMet(before: Unread, anchor: Option<string>, u: Unread)
    requires PropertiesMet(before, anchor, None, u) && u.tokens != [] && u.tokens[0].TagToken?
    ensures PropertiesMet(before, anchor, Some(u.tokens[0]), u.(tokens := u.tokens[1..]))
  {
  }

  /** The directives `pending` were read. */
  ghost predicate DirectivesRead(before: Unread, pending: seq<Directive>, after: Unread)
  {
    && TokenMentions(before.tokens) == TokenMentions(after.tokens)
    && TokenTags(before.tokens, before.active, []) == TokenTags(after.tokens, after.active, pending)
  }

  predicate Silent(t: Token)
  {
    && !t.AnchorToken? && !t.AliasToken? && !t.ScalarToken? && !t.TagToken? && !t.StreamEndToken?
    && !t.TagDirective? && !t.DocumentStartToken?
  }

  lemma SilentSkipped(u: Unread)
    requires u.tokens != [] && Silent(u.tokens[0])
    ensures Same(u, u.(tokens := u.tokens[1..]))
  {
  }

  lemma DirectiveSkipped(before: Unread, pending: seq<Directive>, u: Unread)
    requires DirectivesRead(before, pending, u) && u.tokens != []
      && (u.tokens[0].VersionDirective? || u.tokens[0].TagDirective?)
    ensures var t := u.tokens[0];
      DirectivesRead(before, if t.TagDirective? then pending + [t.directive] else pending, u.(tokens := u.tokens[1..]))
  {
  }

  lemma DocumentStarted(before: Unread, pending: seq<Directive>, u: Unread)
    requires DirectivesRead(before, pending, u) && u.tokens != [] && u.tokens[0] == DocumentStartToken
    ensures Same(before, Unread(u.tokens[1..], WithDefaults(pending)))
  {
  }

  lemma NothingKept(before: Unread, e: Event, after: Unread)
    requires Same(before, after) && EventMentions(e) == [] && EventTags(e) == []
    ensures Kept(before, e, after)
  {
  }

  lemma KeptAfter(first: Unread, before: Unread, e: Event, after: Unread)
    requires Same(first, before) && Kept(before, e, after)
    ensures Kept(first, e, after)
  {
  }

  lemma EndKept(u: Unread)
    requires u.tokens != [] && u.tokens[0] == StreamEndToken
    ensures Kept(u, StreamEnd, u.(tokens := u.tokens[1..]))
  {
  }

  lemma AliasKept(u: Unread)
    requires u.tokens != [] && u.tokens[0].AliasToken?
    ensures Kept(u, Alias(u.tokens[0].name), u.(tokens := u.tokens[1..]))
  {
  }

  /** Everything mentioned in the tokens is in the events or still to be read. */
  ghost predicate Conserved(all: Unread, es: seq<Event>, left: Unread)
  {
    && TokenMentions(all.tokens) == Mentions(es) + TokenMentions(left.tokens)
    && TokenTags(all.tokens, all.active, []) == Tags(es) + TokenTags(left.tokens, left.active, [])
  }

  lemma ConservedStep(all: Unread, es: seq<Event>, before: Unread, e: Event, after: Unread)
    requires Conserved(all, es, before) && Kept(before, e, after)
    ensures Conserved(all, es + [e], after)
  {
    MentionsSnoc(es, e);
    Moved(TokenMentions(all.tokens), Mentions(es), EventMentions(e), TokenMentions(after.tokens));
    Moved(TokenTags(all.tokens, all.active, []), Tags(es), EventTags(e), TokenTags(after.tokens, after.active, []));
  }

  lemma MentionsSnoc(es: seq<Event>, e: Event)
    ensures Mentions(es + [e]) == Mentions(es) + EventMentions(e) && Tags(es + [e]) == Tags(es) + EventTags(e)
  {
    assert (es + [e])[..|es|] == es;
  }

  lemma Moved(a: seq<Mention>, b: seq<Mention>, c: seq<Mention>, d: seq<Mention>)
    requires a == b + (c + d)
    ensures a == (b + c) + d
  {
  }

  /** Nothing is left to be read once the end of the stream has been repeated, if nothing follows it. */
  lemma ConservedAll(all: Unread, es: seq<Event>, left: Unread)
    requires Conserved(all, es, left) && all.tokens != [] && StreamEndToken !in all.tokens[..|all.tokens| - 1]
    requires es != [] && es[|es| - 1] == StreamEnd
    ensures TokenMentions(all.tokens) == Mentions(es) && TokenTags(all.tokens, all.active, []) == Tags(es)
  {
    EndAtEnd(all.tokens, all.active);
    LastIsEnd(es);
    NothingAfterEnd(TokenMentions(all.tokens), Mentions(es), TokenMentions(left.tokens));
    NothingAfterEnd(TokenTags(all.tokens, all.active, []), Tags(es), TokenTags(left.tokens, left.active, []));
  }

  lemma EndAtEnd(ts: seq<Token>, active: seq<Directive>)
    requires ts != [] && StreamEndToken !in ts[..|ts| - 1]
    ensures EndsOnce(TokenMentions(ts)) && EndsOnce(TokenTags(ts, active, []))
  {
    var body := ts[..|ts| - 1];
    assert ts == body + [ts[|ts| - 1]];
    EndOnce(body, ts[|ts| - 1], active, []);
  }

  lemma LastIsEnd(es: seq<Event>)
    requires es != [] && es[|es| - 1] == StreamEnd
    ensures Mentions(es) != [] && Mentions(es)[|Mentions(es)| - 1] == EndMention
    ensures Tags(es) != [] && Tags(es)[|Tags(es)| - 1] == EndMention
  {
  }

  lemma NothingAfterEnd(a: seq<Mention>, b: seq<Mention>, c: seq<Mention>)
    requires a == b + c && b != [] && b[|b| - 1] == EndMention && EndsOnce(a)
    ensures a == b
  {
    assert a[|b| - 1] == EndMention;
  }

  ghost predicate EndsOnce(ms: seq<Mention>)
  {
    forall k :: 0 <= k < |ms| - 1 ==> ms[k] != EndMention
  }

  lemma EndsLater(m: seq<Mention>, ms: seq<Mention>)
    requires EndsOnce(ms) && |m| <= 1 && (m == [] || m[0] != EndMention)
    ensures EndsOnce(m + ms)
  {
  }

  lemma {:induction false} EndOnce(body: seq<Token>, last: Token, active: seq<Directive>, pending: seq<Directive>)
    requires StreamEndToken !in body
    ensures EndsOnce(TokenMentions(body + [last])) && EndsOnce(TokenTags(body + [last], active, pending))
    decreases |body|
  {
    var ts := body + [last];
    if body == [] {
      assert ts == [last] && ts[1..] == [];
    } else {
      assert ts[0] == body[0] && ts[1..] == body[1..] + [last];
      var t := body[0];
      EndOnce(body[1..], last, if t == DocumentStartToken then WithDefaults(pending) else active,
              if t == DocumentStartToken then [] else if t.TagDirective? then pending + [t.directive] else pending);
      FirstMention(ts);
      FirstTag(ts, active, pending);
    }
  }

  lemma FirstMention(ts: seq<Token>)
    requires ts != [] && ts[0] != StreamEndToken && EndsOnce(TokenMentions(ts[1..]))
    ensures EndsOnce(TokenMentions(ts))
  {
    match ts[0]
    case AnchorToken(name) => EndsLater([AnchorMention(name)], TokenMentions(ts[1..]));
    case AliasToken(name) => EndsLater([AliasMention(name)], TokenMentions(ts[1..]));
    case ScalarToken(value, _) => EndsLater(ValueMentions(value), TokenMentions(ts[1..]));
    case _ =>
  }

  lemma FirstTag(ts: seq<Token>, active: seq<Directive>, pending: seq<Directive>)
    requires ts != [] && ts[0] != StreamEndToken
    requires var t := ts[0];
      EndsOnce(TokenTags(ts[1..], if t == DocumentStartToken then WithDefaults(pending) else active,
                         if t == DocumentStartToken then [] else if t.TagDirective? then pending + [t.directive]
                           else pending))
    ensures EndsOnce(TokenTags(ts, active, pending))
  {
    if ts[0].TagToken? {
      EndsLater([TagMention(FullTag(active, ts[0].handle, ts[0].suffix))], TokenTags(ts[1..], active, pending));
    }
  }

  // The stack of states, from the end of the document up.

  ghost predicate StackOk(states: seq<State>)
  {
    && states != [] && states[0] == AtDocumentEnd
    && forall i :: 1 <= i < |states| ==> Continuation(states[i])
  }

  function Pending(states: seq<State>): seq<Frame>
  {
    if states == [] then [] else Pending(states[..|states| - 1]) + Awaiting(states[|states| - 1])
  }

  function MarkCount(states: seq<State>): nat
  {
    if states == [] then 0 else MarkCount(states[..|states| - 1]) + Marked(states[|states| - 1])
  }

  function Weight(states: seq<State>): nat
  {
    if states == [] then 0 else Weight(states[..|states| - 1]) + Rank(states[|states| - 1])
  }

  /** What the state and the stack say about the events so far. */
  function ProgressOf(s: State, states: seq<State>): Progress
  {
    match s
    case AtStreamStart => Initial
    case AtImplicitDocumentStart | AtDocumentStart => Between
    case AtDocumentEnd => RootDone
    case AtEnd => Final
    case _ => Within(Pending(states) + Frames(s))
  }

  predicate First(s: State)
  {
    s == BlockSequenceFirstEntry || s == BlockMappingFirstKey || s == FlowSequenceFirstEntry || s == FlowMappingFirstKey
  }

  function Opener(s: State): Token
    requires First(s)
  {
    match s
    case BlockSequenceFirstEntry => BlockSequenceStart
    case BlockMappingFirstKey => BlockMappingStart
    case FlowSequenceFirstEntry => FlowSequenceStart
    case FlowMappingFirstKey => FlowMappingStart
  }

  /** The first token of a collection is still unread when its first entry is about to be parsed. */
  predicate FirstToken(s: State, tokens: seq<Token>)
  {
    First(s) ==> tokens != [] && tokens[0] == Opener(s)
  }

  /** No document has been started yet. */
  predicate Early(s: State)
  {
    s == AtStreamStart || s == AtImplicitDocumentStart
  }

  predicate Outside(s: State)
  {
    s == AtStreamStart || s == AtImplicitDocumentStart || s == AtDocumentStart || s == AtDocumentEnd || s == AtEnd
  }

  ghost predicate Shape(s: State, states: seq<State>)
  {
    if Outside(s) then states == []
    else if s == AtBlockNode || s == AtDocumentContent then states == [AtDocumentEnd]
    else StackOk(states)
  }

  function Budget(tokens: nat, s: State, states: seq<State>): nat
  {
    4 * tokens + Rank(s) + Weight(states)
  }

  lemma Pushed(states: seq<State>, s: State)
    requires StackOk(states) && Continuation(s)
    ensures StackOk(states + [s])
    ensures Pending(states + [s]) == Pending(states) + Awaiting(s)
    ensures MarkCount(states + [s]) == MarkCount(states) + Marked(s)
    ensures Weight(states + [s]) == Weight(states) + Rank(s)
  {
    assert (states + [s])[..|states|] == states;
  }

  lemma RootStack()
    ensures StackOk([AtDocumentEnd]) && Pending([AtDocumentEnd]) == [] && MarkCount([AtDocumentEnd]) == 0
    ensures Weight([AtDocumentEnd]) == 1
  {
    assert [AtDocumentEnd][..0] == [];
  }

  /** Completing a node and returning to the state on top of the stack is what the automaton does. */
  lemma Popped(states: seq<State>)
    requires StackOk(states)
    ensures var s, rest := states[|states| - 1], states[..|states| - 1];
      && Shape(s, rest) && ProgressOf(s, rest) == NodeDone(Pending(states))
      && MarkCount(states) == MarkCount(rest) + Marked(s) && Weight(states) == Weight(rest) + Rank(s)
      && !First(s) && s != AtEnd && !Early(s)
  {
    var s, rest := states[|states| - 1], states[..|states| - 1];
    if |states| == 1 {
      RootStack();
      assert states == [AtDocumentEnd] && rest == [];
    } else {
      NodeThen(Pending(rest), s);
      InnerState(s);
    }
  }

  lemma InnerState(s: State)
    requires Continuation(s)
    ensures !Outside(s) && s != AtBlockNode && s != AtDocumentContent && !First(s) && s != AtEnd && !Early(s)
    ensures forall states :: ProgressOf(s, states) == Within(Pending(states) + Frames(s))
  {
  }

  /** Once the awaited node is complete, the collection is where the state says. */
  lemma NodeThen(open: seq<Frame>, s: State)
    requires Continuation(s)
    ensures NodeDone(open + Awaiting(s)) == Within(open + Frames(s))
  {
    var inner := open + Awaiting(s);
    if |Awaiting(s)| == 1 {
      assert inner[..|inner| - 1] == open;
    } else {
      assert inner[..|inner| - 1] == open + [InSequence];
    }
  }

  lemma Closed(states: seq<State>, e: Event)
    requires e == SequenceEnd || e == MappingEnd
    ensures Consume(Within(Pending(states) + [if e == SequenceEnd then InSequence else AwaitKey]), e)
      == NodeDone(Pending(states))
  {
    var open := Pending(states) + [if e == SequenceEnd then InSequence else AwaitKey];
    assert open[..|open| - 1] == Pending(states);
  }

  lemma SameShape(from: State, to: State, states: seq<State>)
    requires Shape(from, states) && Continuation(to) && !Outside(from) && from != AtBlockNode
      && from != AtDocumentContent
    ensures Shape(to, states) && !First(to) && !Outside(to) && to != AtBlockNode && to != AtDocumentContent
  {
  }

  /** An empty node is read where a key or a value is due. */
  lemma EmptyNode(states: seq<State>, from: State, to: State, e: Event)
    requires e.Scalar? && Frames(from) == Awaiting(to) && Continuation(to)
    ensures Consume(ProgressOf(from, states), e) == ProgressOf(to, states)
  {
    NodeThen(Pending(states), to);
  }

  /** The mapping of a single pair inside a flow sequence ends. */
  lemma EntryMappingEnds(states: seq<State>)
    ensures Consume(ProgressOf(FlowEntryMappingEnd, states), MappingEnd) == ProgressOf(FlowSequenceEntry, states)
  {
    EntryClosed(Pending(states));
    Reopened(Pending(states));
  }

  lemma EntryClosed(open: seq<Frame>)
    ensures var inner := open + [InSequence, AwaitKey];
      inner[|inner| - 1] == AwaitKey && inner[..|inner| - 1] == open + [InSequence]
  {
    var inner := open + [InSequence, AwaitKey];
    assert inner == open + [InSequence] + [AwaitKey];
  }

  lemma Reopened(open: seq<Frame>)
    ensures NodeDone(open + [InSequence]) == Within(open + [InSequence])
  {
    assert (open + [InSequence])[..|open|] == open;
  }

  lemma EntryMappingStarts(states: seq<State>, s: State, e: Event)
    requires e.MappingStart? && Frames(s) == [InSequence]
    ensures Consume(ProgressOf(s, states), e) == ProgressOf(FlowEntryMappingKey, states)
  {
    assert Pending(states) + [InSequence] + [AwaitKey] == Pending(states) + [InSequence, AwaitKey];
  }
}

/** The parser: an LL(1) machine with explicit stacks (parser.c). */
module YamlParser {
  import opened Wrappers
  import opened YamlEvents
  import opened YamlParserStates

  /** Nothing: the end of the stream or an error was reached before. */
  datatype Outcome = Got(event: Event) | Failed | Nothing

  const EmptyScalar := Scalar(None, None, "", true, false)

  ghost predicate DistinctHandles(directives: seq<Directive>)
  {
    forall i, j :: 0 <= i < j < |directives| ==> directives[i].handle != directives[j].handle
  }

  /** In a document no handle is defined twice and the two standard handles are defined. */
  ghost predicate DirectivesOk(inDocument: bool, directives: seq<Directive>)
  {
    if !inDocument then directives == []
    else DistinctHandles(directives) && StandardDefined(directives)
  }

  function StandardHandle(secondary: bool): string
  {
    if secondary then "!!" else "!"
  }

  ghost predicate StandardDefined(directives: seq<Directive>)
  {
    forall secondary {:trigger StandardHandle(secondary)} :: Resolve(directives, StandardHandle(secondary)).Some?
  }

  predicate InDocument(p: Progress)
  {
    p.Within? || p.RootDone?
  }

  lemma StaysInDocument(p: Progress, e: Event)
    ensures p.Within? ==> InDocument(Consume(p, e)) || Consume(p, e) == Stuck
  {
  }

  class Parser {
    var tokens: seq<Token>  // what the scanner still delivers; asking for more is a scanner error
    var state: State
    var states: seq<State>
    var marks: seq<nat>     // the unread tokens at each mark
    var directives: seq<Directive>
    var streamEndProduced: bool
    var error: bool
    ghost const input: seq<Token>
    ghost const defaults: seq<Directive>
    ghost var events: seq<Event>
    ghost var active: seq<Directive>  // the directives that tags refer to

    constructor (tokens: seq<Token>)
      ensures Valid() && NothingLost() && this.tokens == tokens && input == tokens && events == [] && !error
        && state == AtStreamStart
    {
      input, defaults := tokens, WithDefaults([]);
      this.tokens, state, states, marks, directives := tokens, AtStreamStart, [], [], [];
      streamEndProduced, error, events, active := false, false, [], WithDefaults([]);
    }

    ghost predicate Good()
      reads this
    {
      && !error && Shape(state, states) && FirstToken(state, tokens)
      && |marks| == MarkCount(states) + Marked(state)
      && streamEndProduced == (state == AtEnd)
      && (!Outside(state) ==> directives == active)
      && (Early(state) ==> active == defaults)
    }

    ghost function Left(): Unread
      reads this
    {
      Unread(tokens, active)
    }

    /** Every anchor, alias and value of the input is in the events or still to be read, in order, and so is every tag,
        in full. */
    ghost predicate NothingLost()
      reads this
    {
      Conserved(Unread(input, defaults), events, Left())
    }

    ghost predicate Valid()
      reads this
    {
      && defaults == WithDefaults([]) && Run(Initial, events) != Stuck
      && (error ==> Run(Initial, events) != Final && !streamEndProduced)
      && (!error ==> Good() && Now() == Run(Initial, events) && DirectivesOk(InDocument(Now()), directives))
    }

    ghost function Measure(): nat
      reads this
    {
      Budget(|tokens|, state, states)
    }

    /** What the state and the stack say about the events so far. */
    ghost function Now(): Progress
      reads this
    {
      ProgressOf(state, states)
    }

    /** One event that the automaton accepts where it stood and that tells what was in the tokens read for it, with less
        of the budget left; or an error. */
    ghost predicate Advanced(before: Progress, budget: nat, from: Unread, r: Outcome)
      reads this
    {
      && !r.Nothing? && (r.Failed? ==> error && !streamEndProduced)
      && (r.Got? ==> Good() && Consume(before, r.event) == Now() && Measure() < budget && Kept(from, r.event, Left()))
    }

    /** A node is being read: the stack says where to go on. */
    ghost predicate Reading()
      reads this
    {
      !error && StackOk(states) && |marks| == MarkCount(states) && !streamEndProduced && directives == active
    }

    ghost predicate Inside()
      reads this
    {
      Good() && !Outside(state) && state != AtBlockNode && state != AtDocumentContent
    }

    /** The next event, as the automaton wants it, or an error; each event uses up some of the budget. */
    method Parse() returns (r: Outcome)
      requires Valid()
      modifies this
      ensures Valid()
      ensures old(error || state == AtEnd) <==> r == Nothing
      ensures r == Nothing ==>
        events == old(events) && error == old(error) && state == old(state) && states == old(states)
      ensures r.Got? ==> !error && events == old(events) + [r.event] && Measure() < old(Measure())
      ensures r.Failed? ==> error && events == old(events)
    {
      r := ParseKeeping();
    }

    /** The same, and nothing that the tokens mention is lost. */
    method ParseKeeping() returns (r: Outcome)
      requires Valid()
      modifies this
      ensures Valid()
      ensures old(error || state == AtEnd) <==> r == Nothing
      ensures r == Nothing ==>
        events == old(events) && error == old(error) && state == old(state) && states == old(states)
      ensures r.Got? ==> !error && events == old(events) + [r.event] && Measure() < old(Measure())
      ensures r.Failed? ==> error && events == old(events)
      ensures r.Got? && old(NothingLost()) ==> NothingLost()
    {
      if streamEndProduced || error || state == AtEnd {
        return Nothing;
      }
      r := StateMachine();
      if r.Got? {
        RunSnoc(Initial, events, r.event);
        ConsumedIsNotStuck(state, states);
        if old(NothingLost()) {
          ConservedStep(Unread(input, defaults), events, old(Left()), r.event, Left());
        }
        events := events + [r.event];
      }
    }

    /** An error found by the loader stops the parser. */
    method Abort()
      requires Valid() && !error && Now() != Final
      modifies this`error
      ensures Valid() && error
    {
      error := true;
    }

    method StateMachine() returns (r: Outcome)
      requires Good() && state != AtEnd && DirectivesOk(InDocument(Now()), directives) && defaults == WithDefaults([])
      modifies this`tokens, this`state, this`states, this`marks, this`directives, this`active, this`streamEndProduced,
        this`error
      ensures Advanced(old(Now()), old(Measure()), old(Left()), r)
      ensures r.Got? ==> DirectivesOk(InDocument(Now()), directives)
    {
      ghost var before := Now();
      if Outside(state) {
        r := OutsideDocument();
      } else {
        r := WithinDocument();
        if r.Got? {
          StaysInDocument(before, r.event);
          ConsumedIsNotStuck(state, states);
        }
      }
    }

    method OutsideDocument() returns (r: Outcome)
      requires Good() && Outside(state) && state != AtEnd && DirectivesOk(InDocument(Now()), directives)
        && defaults == WithDefaults([])
      modifies this`tokens, this`state, this`states, this`directives, this`active, this`streamEndProduced, this`error
      ensures Advanced(old(Now()), old(Measure()), old(Left()), r)
      ensures r.Got? ==> DirectivesOk(InDocument(Now()), directives)
    {
      match state
      case AtStreamStart => r := ParseStreamStart();
      case AtImplicitDocumentStart => r := ParseDocumentStart(true);
      case AtDocumentStart => r := ParseDocumentStart(false);
      case AtDocumentEnd => r := ParseDocumentEnd();
    }

    method WithinDocument() returns (r: Outcome)
      requires Good() && !Outside(state)
      modifies this`tokens, this`state, this`states, this`marks, this`streamEndProduced, this`error
      ensures Advanced(old(Now()), old(Measure()), old(Left()), r)
    {
      match state
      case AtDocumentContent => r := ParseDocumentContent();
      case AtBlockNode =>
        RootStack();
        r := ParseNode(true, false);
      case BlockSequenceFirstEntry => r := ParseBlockSequenceEntry(true);
      case BlockSequenceEntry => r := ParseBlockSequenceEntry(false);
      case IndentlessSequenceEntry => r := ParseIndentlessSequenceEntry();
      case BlockMappingFirstKey => r := ParseBlockMappingKey(true);
      case BlockMappingKey => r := ParseBlockMappingKey(false);
      case BlockMappingValue => r := ParseBlockMappingValue();
      case FlowSequenceFirstEntry => r := ParseFlowSequenceEntry(true);
      case FlowSequenceEntry => r := ParseFlowSequenceEntry(false);
      case FlowEntryMappingKey => r := ParseFlowEntryMappingKey();
      case FlowEntryMappingValue => r := ParseFlowEntryMappingValue();
      case FlowEntryMappingEnd => r := ParseFlowEntryMappingEnd();
      case FlowMappingFirstKey => r := ParseFlowMappingKey(true);
      case FlowMappingKey => r := ParseFlowMappingKey(false);
      case FlowMappingValue => r := ParseFlowMappingValue(false);
      case FlowMappingEmptyValue => r := ParseFlowMappingValue(true);
    }

    /** Makes sure that there is a token to look at. */
    method Peek() returns (ok: bool)
      modifies this`error
      ensures ok <==> tokens != []
      ensures ok ==> error == old(error)
      ensures !ok ==> error
    {
      ok := tokens != [];
      if !ok {
        error := true;
      }
    }

    method Skip()
      requires tokens != []
      modifies this`tokens, this`streamEndProduced
      ensures tokens == old(tokens)[1..] && streamEndProduced == old(tokens)[0].StreamEndToken?
    {
      streamEndProduced := tokens[0].StreamEndToken?;
      tokens := tokens[1..];
    }

    /** Skips a token inside a collection and looks at the next one. */
    method Next() returns (ok: bool)
      requires Inside() && !First(state) && tokens != [] && tokens[0] != StreamEndToken && Silent(tokens[0])
      modifies this`tokens, this`streamEndProduced, this`error
      ensures if ok then Inside() && tokens == old(tokens)[1..] && tokens != [] && Same(old(Left()), Left())
        else error && !streamEndProduced
    {
      SilentSkipped(Left());
      Skip();
      ok := Peek();
    }

    /** Goes on in the state on top of the stack. */
    method Pop()
      requires StackOk(states)
      modifies this`state, this`states
      ensures Shape(state, states) && !First(state) && state != AtEnd && !Early(state)
      ensures ProgressOf(state, states) == NodeDone(old(Pending(states)))
      ensures MarkCount(states) + Marked(state) == old(MarkCount(states))
        && Weight(states) + Rank(state) == old(Weight(states))
    {
      Popped(states);
      state, states := states[|states| - 1], states[..|states| - 1];
    }

    method PopMark()
      requires marks != []
      modifies this`marks
      ensures marks == old(marks)[..|old(marks)| - 1]
    {
      marks := marks[..|marks| - 1];
    }

    method ParseStreamStart() returns (r: Outcome)
      requires Good() && state == AtStreamStart
      modifies this`tokens, this`state, this`streamEndProduced, this`error
      ensures Advanced(old(Now()), old(Measure()), old(Left()), r)
    {
      var ok := Peek();
      if !ok {
        return Failed;
      }
      if tokens[0] != StreamStartToken {
        error := true;
        return Failed;
      }
      SilentSkipped(Left());
      NothingKept(Left(), StreamStart, Unread(tokens[1..], active));
      state := AtImplicitDocumentStart;
      Skip();
      r := Got(StreamStart);
    }

    method ParseDocumentStart(implicit: bool) returns (r: Outcome)
      requires Good() && directives == [] && defaults == WithDefaults([])
        && state == if implicit then AtImplicitDocumentStart else AtDocumentStart
      modifies this`tokens, this`state, this`states, this`directives, this`active, this`streamEndProduced, this`error
      ensures Advanced(old(Now()), old(Measure()), old(Left()), r)
      ensures r.Got? ==> DirectivesOk(InDocument(Now()), directives)
    {
      if !implicit {
        SkipDocumentEnds();
      }
      var ok := Peek();
      if !ok {
        return Failed;
      }
      ghost var before := Left();
      r := BeginDocument(implicit);
      if r.Got? {
        KeptAfter(old(Left()), before, r.event, Left());
      }
    }

    /** An implicit document, an explicit one, or the end of the stream. */
    method BeginDocument(implicit: bool) returns (r: Outcome)
      requires Good() && directives == [] && defaults == WithDefaults([]) && tokens != []
        && state == if implicit then AtImplicitDocumentStart else AtDocumentStart
      modifies this`tokens, this`state, this`states, this`directives, this`active, this`streamEndProduced, this`error
      ensures Advanced(Between, old(Measure()), old(Left()), r)
      ensures r.Got? ==> DirectivesOk(InDocument(Now()), directives)
    {
      var t := tokens[0];
      if implicit && !t.VersionDirective? && !t.TagDirective? && t != DocumentStartToken && t != StreamEndToken {
        r := BeginImplicit();
      } else if t != StreamEndToken {
        r := BeginExplicit();
      } else {
        r := EndStream();
      }
    }

    method EndStream() returns (r: Outcome)
      requires Good() && (state == AtImplicitDocumentStart || state == AtDocumentStart) && tokens != []
        && tokens[0] == StreamEndToken
      modifies this`tokens, this`state, this`streamEndProduced
      ensures state == AtEnd && Advanced(Between, old(Measure()), old(Left()), r)
    {
      EndKept(Left());
      state := AtEnd;
      Skip();
      r := Got(StreamEnd);
    }

    method SkipDocumentEnds()
      requires !streamEndProduced
      modifies this`tokens, this`streamEndProduced
      ensures !streamEndProduced && |tokens| <= |old(tokens)| && (tokens != [] ==> tokens[0] != DocumentEndToken)
      ensures Same(old(Left()), Left())
    {
      while tokens != [] && tokens[0] == DocumentEndToken
        invariant !streamEndProduced && |tokens| <= |old(tokens)| && Same(old(Left()), Left())
        decreases |tokens|
      {
        SilentSkipped(Left());
        Skip();
      }
    }

    /** The root node comes next, and after it the end of the document. */
    method OpenDocument(next: State)
      requires !error && !streamEndProduced && marks == [] && (next == AtBlockNode || next == AtDocumentContent)
        && directives == active
      modifies this`state, this`states
      ensures Good() && Now() == Within([]) && Measure() == 4 * |tokens| + 2
    {
      RootStack();
      states := [AtDocumentEnd];
      state := next;
    }

    method BeginImplicit() returns (r: Outcome)
      requires Good() && directives == [] && defaults == WithDefaults([]) && state == AtImplicitDocumentStart
        && tokens != []
      requires !tokens[0].VersionDirective? && !tokens[0].TagDirective?
      modifies this`tokens, this`state, this`states, this`directives, this`streamEndProduced, this`error
      ensures Advanced(Between, old(Measure()), old(Left()), r)
      ensures r.Got? ==> DirectivesOk(InDocument(Now()), directives)
    {
      ReadNoDirectives();
      NothingKept(Left(), DocumentStart(true), Left());
      OpenDocument(AtBlockNode);
      r := Got(DocumentStart(true));
    }

    /** Where there are no directives the default ones apply. */
    method ReadNoDirectives()
      requires !error && !streamEndProduced && directives == [] && active == WithDefaults([]) && tokens != []
      requires !tokens[0].VersionDirective? && !tokens[0].TagDirective?
      modifies this`tokens, this`directives, this`streamEndProduced, this`error
      ensures !error && !streamEndProduced && tokens == old(tokens) && directives == active
        && DirectivesOk(true, directives)
    {
      var ok;
      ghost var pending;
      ok, pending := ProcessDirectives();
    }

    method BeginExplicit() returns (r: Outcome)
      requires Good() && directives == [] && (state == AtImplicitDocumentStart || state == AtDocumentStart)
        && tokens != []
      modifies this`tokens, this`state, this`states, this`directives, this`active, this`streamEndProduced, this`error
      ensures Advanced(Between, old(Measure()), old(Left()), r)
      ensures r.Got? ==> DirectivesOk(InDocument(Now()), directives)
    {
      var ok := ReadHead();
      if !ok {
        return Failed;
      }
      NothingKept(old(Left()), DocumentStart(false), Left());
      OpenDocument(AtDocumentContent);
      r := Got(DocumentStart(false));
    }

    /** Directives and DOCUMENT-START: from here on tags refer to these directives. */
    method ReadHead() returns (ok: bool)
      requires !error && !streamEndProduced && directives == [] && tokens != []
      modifies this`tokens, this`directives, this`active, this`streamEndProduced, this`error
      ensures !streamEndProduced && error == !ok
      ensures ok ==>
        |tokens| < |old(tokens)| && directives == active && DirectivesOk(true, directives) && Same(old(Left()), Left())
    {
      ghost var pending;
      ok, pending := ProcessDirectives();
      if !ok {
        return;
      }
      if tokens[0] != DocumentStartToken {
        error := true;
        return false;
      }
      DocumentStarted(old(Left()), pending, Left());
      Skip();
      active := directives;
    }

    method ParseDocumentContent() returns (r: Outcome)
      requires Good() && state == AtDocumentContent
      modifies this`tokens, this`state, this`states, this`streamEndProduced, this`error
      ensures Advanced(old(Now()), old(Measure()), old(Left()), r)
    {
      RootStack();
      var ok := Peek();
      if !ok {
        return Failed;
      }
      var t := tokens[0];
      if t.VersionDirective? || t.TagDirective? || t == DocumentStartToken || t == DocumentEndToken
        || t == StreamEndToken {
        Pop();
        r := Got(EmptyScalar);
        NothingKept(old(Left()), EmptyScalar, Left());
      } else {
        r := ParseNode(true, false);
      }
    }

    method ParseDocumentEnd() returns (r: Outcome)
      requires Good() && state == AtDocumentEnd
      modifies this`tokens, this`state, this`directives, this`streamEndProduced, this`error
      ensures Advanced(old(Now()), old(Measure()), old(Left()), r)
      ensures r.Got? ==> directives == [] && state == AtDocumentStart
    {
      var ok := Peek();
      if !ok {
        return Failed;
      }
      var implicit := true;
      if tokens[0] == DocumentEndToken {
        SilentSkipped(Left());
        Skip();
        implicit := false;
      }
      NothingKept(old(Left()), DocumentEnd(implicit), Left());
      directives := [];
      state := AtDocumentStart;
      r := Got(DocumentEnd(implicit));
    }

    /** TAG ANCHOR? | ANCHOR TAG?, if present. */
    method ReadProperties() returns (ok: bool, anchor: Option<string>, tag: Option<Token>)
      requires tokens != [] && !error && !streamEndProduced
      modifies this`tokens, this`streamEndProduced, this`error
      ensures !streamEndProduced && (if ok then !error && tokens != [] else error)
      ensures ok ==> if anchor.None? && tag.None? then tokens == old(tokens) else |tokens| < |old(tokens)|
      ensures tag.Some? ==> tag.value.TagToken?
      ensures ok ==> PropertiesMet(old(Left()), anchor, tag, Left())
    {
      ok, anchor, tag := true, None, None;
      NoProperties(Left());
      if tokens[0].AnchorToken? {
        anchor := Some(tokens[0].name);
        AnchorMet(Left(), tag, Left());
        Skip();
        ok := Peek();
        if ok && tokens[0].TagToken? {
          tag := Some(tokens[0]);
          TagMet(old(Left()), anchor, Left());
          Skip();
          ok := Peek();
        }
      } else if tokens[0].TagToken? {
        tag := Some(tokens[0]);
        TagMet(Left(), anchor, Left());
        Skip();
        ok := Peek();
        if ok && tokens[0].AnchorToken? {
          anchor := Some(tokens[0].name);
          AnchorMet(old(Left()), tag, Left());
          Skip();
          ok := Peek();
        }
      }
    }

    /** The full tag of a tag token; an undefined handle is an error, the two standard ones never are. */
    method ResolveTag(t: Token) returns (ok: bool, tag: Option<string>)
      requires t.TagToken? && !error
      modifies this`error
      ensures ok <==> !error
      ensures ok <==> tag.Some?
      ensures tag == FullTag(directives, t.handle, t.suffix)
      ensures ok <==> t.handle == "" || exists d :: d in directives && d.handle == t.handle
      ensures ok ==> if t.handle == "" then tag == Some(t.suffix)
                     else exists prefix :: Directive(t.handle, prefix) in directives && tag == Some(prefix + t.suffix)
    {
      if t.handle == "" {
        return true, Some(t.suffix);
      }
      var i := 0;
      while i < |directives|
        invariant 0 <= i <= |directives| && !error
        invariant forall j :: 0 <= j < i ==> directives[j].handle != t.handle
        invariant Resolve(directives[i..], t.handle) == Resolve(directives, t.handle)
      {
        if directives[i].handle == t.handle {
          assert Directive(t.handle, directives[i].prefix) in directives;
          return true, Some(directives[i].prefix + t.suffix);
        }
        assert directives[i..][1..] == directives[i + 1..];
        i := i + 1;
      }
      error := true;
      return false, None;
    }

    /** A node is complete: the parser goes on in the state on top of the stack. */
    method Finish(e: Event) returns (r: Outcome)
      requires Reading() && (e.Alias? || e.Scalar?)
      modifies this`state, this`states
      ensures r == Got(e) && Good() && Consume(old(Within(Pending(states))), e) == ProgressOf(state, states)
      ensures Weight(states) + Rank(state) == old(Weight(states))
    {
      Pop();
      r := Got(e);
    }

    method ParseNode(block: bool, indentless: bool) returns (r: Outcome)
      requires Reading()
      modifies this`tokens, this`state, this`states, this`streamEndProduced, this`error
      ensures Advanced(old(Within(Pending(states))),
                       1 + 4 * |old(tokens)| + old(Weight(states)) + (if indentless then 1 else 0), old(Left()), r)
    {
      var ok := Peek();
      if !ok {
        return Failed;
      }
      if tokens[0].AliasToken? {
        var name := tokens[0].name;
        AliasKept(Left());
        Skip();
        r := Finish(Alias(name));
        return;
      }
      var anchor, tag;
      ok, anchor, tag := ReadResolved();
      if !ok {
        return Failed;
      }
      r := ParseContent(block, indentless, anchor, tag, old(Left()));
    }

    /** The properties of a node, with its tag in full. */
    method ReadResolved() returns (ok: bool, anchor: Option<string>, tag: Option<string>)
      requires tokens != [] && !error && !streamEndProduced && directives == active
      modifies this`tokens, this`streamEndProduced, this`error
      ensures !streamEndProduced && (if ok then !error && tokens != [] else error)
      ensures ok ==> if anchor.None? && tag.None? then tokens == old(tokens) else |tokens| < |old(tokens)|
      ensures ok ==> PropertiesRead(old(Left()), anchor, tag, Left())
    {
      var tagToken;
      ok, anchor, tagToken := ReadProperties();
      tag := None;
      if ok && tagToken.Some? {
        ok, tag := ResolveTag(tagToken.value);
      }
      if ok {
        PropertiesResolved(old(Left()), anchor, tagToken, tag, Left());
      }
    }

    /** A collection begins. */
    method Start(first: State, e: Event) returns (r: Outcome)
      requires Reading() && FirstToken(first, tokens) && (First(first) || first == IndentlessSequenceEntry)
      requires (e.SequenceStart? && Frames(first) == [InSequence]) || (e.MappingStart? && Frames(first) == [AwaitKey])
      modifies this`state
      ensures r == Got(e) && state == first && Good() && Consume(old(Within(Pending(states))), e) == Now()
    {
      state := first;
      r := Got(e);
    }

    method ParseContent(block: bool, indentless: bool, anchor: Option<string>, tag: Option<string>, ghost from: Unread)
      returns (r: Outcome)
      requires Reading() && tokens != [] && |tokens| <= |from.tokens|
        && (anchor.Some? || tag.Some? ==> |tokens| < |from.tokens|)
      requires PropertiesRead(from, anchor, tag, Left())
      modifies this`tokens, this`state, this`states, this`streamEndProduced, this`error
      ensures Advanced(old(Within(Pending(states))),
                       1 + 4 * |from.tokens| + old(Weight(states)) + (if indentless then 1 else 0), from, r)
    {
      var first := Opening(tokens[0], block, indentless);
      if first.Some? {
        r := StartCollection(first.value, anchor, tag, from);
      } else {
        r := ParseScalar(anchor, tag, from);
      }
    }

    method StartCollection(first: State, anchor: Option<string>, tag: Option<string>, ghost from: Unread)
      returns (r: Outcome)
      requires Reading() && FirstToken(first, tokens) && (First(first) || first == IndentlessSequenceEntry)
      requires Frames(first) == [if IsSequence(first) then InSequence else AwaitKey]
        && PropertiesRead(from, anchor, tag, Left())
      modifies this`state
      ensures r.Got? && Good() && state == first && Consume(old(Within(Pending(states))), r.event) == Now()
        && Kept(from, r.event, Left())
    {
      var implicit := tag.None? || tag.value == "";
      PropertiesKept(from, anchor, tag, implicit, Left());
      r := Start(first, if IsSequence(first) then SequenceStart(anchor, tag, implicit)
                 else MappingStart(anchor, tag, implicit));
    }

    /** A scalar, or an empty one that has properties. */
    method ParseScalar(anchor: Option<string>, tag: Option<string>, ghost from: Unread) returns (r: Outcome)
      requires Reading() && tokens != [] && |tokens| <= |from.tokens|
        && (anchor.Some? || tag.Some? ==> |tokens| < |from.tokens|)
      requires PropertiesRead(from, anchor, tag, Left())
      modifies this`tokens, this`state, this`states, this`streamEndProduced, this`error
      ensures Advanced(old(Within(Pending(states))), 1 + 4 * |from.tokens| + old(Weight(states)), from, r)
    {
      var t := tokens[0];
      if t.ScalarToken? {
        var plainImplicit := (t.plain && tag.None?) || tag == Some("!");
        ValueKept(from, anchor, tag, t, Left(), plainImplicit);
        Skip();
        r := Finish(Scalar(anchor, tag, t.value, plainImplicit, !plainImplicit && tag.None?));
      } else if anchor.Some? || tag.Some? {
        var implicit := tag.None? || tag.value == "";
        PropertiesKept(from, anchor, tag, implicit, Left());
        r := Finish(Scalar(anchor, tag, "", implicit, false));
      } else {
        error := true;
        r := Failed;
      }
    }

    /** Pushes the state to go on in and reads a node. */
    method ParseNodeThen(next: State, block: bool, indentless: bool) returns (r: Outcome)
      requires Inside() && |marks| == MarkCount(states) + Marked(next) && Continuation(next)
        && Awaiting(next) == Frames(state)
      modifies this`tokens, this`state, this`states, this`streamEndProduced, this`error
      ensures Advanced(old(Now()), 1 + 4 * |old(tokens)| + old(Weight(states)) + Rank(next)
                                   + (if indentless then 1 else 0), old(Left()), r)
    {
      Pushed(states, next);
      states := states + [next];
      r := ParseNode(block, indentless);
    }

    /** An empty node stands where a node is due. */
    method EmptyThen(next: State) returns (r: Outcome)
      requires Inside() && Continuation(next) && Awaiting(next) == Frames(state) && Marked(next) == Marked(state)
      modifies this`state
      ensures r == Got(EmptyScalar) && Good() && state == next && Kept(Left(), EmptyScalar, Left())
      ensures Consume(old(Now()), r.event) == ProgressOf(state, states)
    {
      NothingKept(Left(), EmptyScalar, Left());
      EmptyNode(states, state, next, EmptyScalar);
      SameShape(state, next, states);
      state := next;
      r := Got(EmptyScalar);
    }

    /** A node, or an empty one where a token that cannot begin a node is next. */
    method NodeOrEmpty(next: State, block: bool, indentless: bool, empty: bool) returns (r: Outcome)
      requires Inside() && Marked(state) == Marked(next) && Continuation(next) && Awaiting(next) == Frames(state)
      modifies this`tokens, this`state, this`states, this`streamEndProduced, this`error
      ensures Advanced(old(Now()), 1 + 4 * |old(tokens)| + old(Weight(states)) + Rank(next)
                                   + (if indentless then 1 else 0), old(Left()), r)
    {
      if empty {
        r := EmptyThen(next);
      } else {
        r := ParseNodeThen(next, block, indentless);
      }
    }

    /** The same after an indicator, with the tokens that cannot begin a node. */
    method NodeAfter(next: State, block: bool, indentless: bool, enders: set<Token>) returns (r: Outcome)
      requires Inside() && !First(state) && tokens != [] && tokens[0] != StreamEndToken && Silent(tokens[0])
      requires Marked(state) == Marked(next) && Continuation(next) && Awaiting(next) == Frames(state)
      modifies this`tokens, this`state, this`states, this`streamEndProduced, this`error
      ensures Advanced(old(Now()), 4 * |old(tokens)| - 3 + old(Weight(states)) + Rank(next)
                                   + (if indentless then 1 else 0), old(Left()), r)
    {
      var ok := Next();
      if !ok {
        return Failed;
      }
      r := NodeOrEmpty(next, block, indentless, tokens[0] in enders);
    }

    /** Records the mark of a collection and skips its first token. */
    method Enter(next: State)
      requires Inside() && Marked(state) == 0 && Marked(next) == 1 && Frames(next) == Frames(state)
        && Continuation(next)
      requires tokens != [] && tokens[0] != StreamEndToken && Silent(tokens[0])
      modifies this`tokens, this`state, this`marks, this`streamEndProduced
      ensures Inside() && state == next && tokens == old(tokens)[1..] && Same(old(Left()), Left())
    {
      SilentSkipped(Left());
      marks := marks + [|tokens|];
      Skip();
      state := next;
    }

    /** A collection ends and the parser goes on in the state on top of the stack. */
    method Close(e: Event)
      requires StackOk(states)
      requires (e == SequenceEnd && Frames(state) == [InSequence]) || (e == MappingEnd && Frames(state) == [AwaitKey])
      modifies this`state, this`states
      ensures Shape(state, states) && !First(state) && state != AtEnd && !Early(state)
        && Consume(old(Now()), e) == Now()
      ensures MarkCount(states) + Marked(state) == old(MarkCount(states))
        && Weight(states) + Rank(state) == old(Weight(states))
    {
      Closed(states, e);
      Pop();
    }

    /** An indentless sequence ends before a token that it does not consume. */
    method LeaveIndentless() returns (r: Outcome)
      requires Inside() && state == IndentlessSequenceEntry
      modifies this`state, this`states
      ensures r == Got(SequenceEnd) && Advanced(old(Now()), old(Measure()), old(Left()), r)
    {
      NothingKept(Left(), SequenceEnd, Left());
      Close(SequenceEnd);
      r := Got(SequenceEnd);
    }

    /** A marked collection ends with the token read. */
    method Leave(e: Event) returns (r: Outcome)
      requires Inside() && Marked(state) == 1 && tokens != [] && tokens[0] != StreamEndToken && Silent(tokens[0])
      requires (e == SequenceEnd && Frames(state) == [InSequence]) || (e == MappingEnd && Frames(state) == [AwaitKey])
      modifies this`tokens, this`state, this`states, this`marks, this`streamEndProduced
      ensures r == Got(e) && Good() && Consume(old(Now()), e) == ProgressOf(state, states)
      ensures Measure() < old(Measure()) && Kept(old(Left()), e, Left())
    {
      CloseMarked(e);
      SilentSkipped(old(Left()));
      NothingKept(old(Left()), e, Left());
      r := Got(e);
    }

    method CloseMarked(e: Event)
      requires Inside() && Marked(state) == 1 && tokens != [] && tokens[0] != StreamEndToken
      requires (e == SequenceEnd && Frames(state) == [InSequence]) || (e == MappingEnd && Frames(state) == [AwaitKey])
      modifies this`tokens, this`state, this`states, this`marks, this`streamEndProduced
      ensures Good() && Consume(old(Now()), e) == Now() && Measure() < old(Measure()) && tokens == old(tokens)[1..]
    {
      Unmark(e);
      Skip();
    }

    method Unmark(e: Event)
      requires StackOk(states) && |marks| == MarkCount(states) + 1
      requires (e == SequenceEnd && Frames(state) == [InSequence]) || (e == MappingEnd && Frames(state) == [AwaitKey])
      modifies this`state, this`states, this`marks
      ensures Shape(state, states) && !First(state) && state != AtEnd && !Early(state)
        && |marks| == MarkCount(states) + Marked(state)
      ensures Consume(old(Now()), e) == Now() && Weight(states) + Rank(state) == old(Weight(states))
    {
      PopMark();
      Close(e);
    }

    method ParseBlockSequenceEntry(first: bool) returns (r: Outcome)
      requires Good() && state == if first then BlockSequenceFirstEntry else BlockSequenceEntry
      modifies this`tokens, this`state, this`states, this`marks, this`streamEndProduced, this`error
      ensures Advanced(old(Now()), old(Measure()), old(Left()), r)
    {
      if first {
        Enter(BlockSequenceEntry);
      }
      var ok := Peek();
      if !ok {
        return Failed;
      }
      if tokens[0] == BlockEntry {
        r := NodeAfter(BlockSequenceEntry, true, false, {BlockEntry, BlockEnd});
      } else if tokens[0] == BlockEnd {
        r := Leave(SequenceEnd);
      } else {
        PopMark();
        error := true;
        r := Failed;
      }
    }

    method ParseIndentlessSequenceEntry() returns (r: Outcome)
      requires Good() && state == IndentlessSequenceEntry
      modifies this`tokens, this`state, this`states, this`streamEndProduced, this`error
      ensures Advanced(old(Now()), old(Measure()), old(Left()), r)
    {
      var ok := Peek();
      if !ok {
        return Failed;
      }
      if tokens[0] == BlockEntry {
        r := NodeAfter(IndentlessSequenceEntry, true, false, {BlockEntry, Key, Value, BlockEnd});
      } else {
        r := LeaveIndentless();
      }
    }

    method ParseBlockMappingKey(first: bool) returns (r: Outcome)
      requires Good() && state == if first then BlockMappingFirstKey else BlockMappingKey
      modifies this`tokens, this`state, this`states, this`marks, this`streamEndProduced, this`error
      ensures Advanced(old(Now()), old(Measure()), old(Left()), r)
    {
      if first {
        Enter(BlockMappingKey);
      }
      var ok := Peek();
      if !ok {
        return Failed;
      }
      if tokens[0] == Key {
        r := NodeAfter(BlockMappingValue, true, true, {Key, Value, BlockEnd});
      } else if tokens[0] == BlockEnd {
        r := Leave(MappingEnd);
      } else {
        PopMark();
        error := true;
        r := Failed;
      }
    }

    method ParseBlockMappingValue() returns (r: Outcome)
      requires Good() && state == BlockMappingValue
      modifies this`tokens, this`state, this`states, this`streamEndProduced, this`error
      ensures Advanced(old(Now()), old(Measure()), old(Left()), r)
    {
      var ok := Peek();
      if !ok {
        return Failed;
      }
      if tokens[0] == Value {
        r := NodeAfter(BlockMappingKey, true, true, {Key, Value, BlockEnd});
      } else {
        r := EmptyThen(BlockMappingKey);
      }
    }

    /** A comma is due between entries. */
    method SkipFlowEntry() returns (ok: bool)
      requires Inside() && Marked(state) == 1 && tokens != []
      modifies this`tokens, this`marks, this`streamEndProduced, this`error
      ensures if ok then Inside() && tokens == old(tokens)[1..] && tokens != [] && Same(old(Left()), Left())
        else error && !streamEndProduced
    {
      if tokens[0] != FlowEntry {
        PopMark();
        error := true;
        return false;
      }
      ok := Next();
    }

    /** At an entry of a flow collection: the mark and the first token, or the comma that is due unless the collection
        ends. */
    method BeginFlowEntry(first: bool, entry: State, end: Token) returns (ok: bool)
      requires Inside() && Marked(entry) == 1 && Continuation(entry) && Frames(entry) == Frames(state)
      requires if first then First(state) && Marked(state) == 0 && Silent(Opener(state)) else state == entry
      modifies this`tokens, this`state, this`marks, this`streamEndProduced, this`error
      ensures if ok then Inside() && state == entry && tokens != [] && Same(old(Left()), Left())
        else error && !streamEndProduced
      ensures ok ==> |tokens| <= |old(tokens)| && (tokens[0] != end ==> |tokens| < |old(tokens)|)
    {
      if first {
        Enter(entry);
      }
      ok := Peek();
      if ok && tokens[0] != end && !first {
        ok := SkipFlowEntry();
      }
    }

    method ParseFlowSequenceEntry(first: bool) returns (r: Outcome)
      requires Good() && state == if first then FlowSequenceFirstEntry else FlowSequenceEntry
      modifies this`tokens, this`state, this`states, this`marks, this`streamEndProduced, this`error
      ensures Advanced(old(Now()), old(Measure()), old(Left()), r)
    {
      var ok := BeginFlowEntry(first, FlowSequenceEntry, FlowSequenceEnd);
      if !ok {
        return Failed;
      }
      if tokens[0] == Key {
        r := StartEntryMapping();
      } else if tokens[0] != FlowSequenceEnd {
        r := ParseNodeThen(FlowSequenceEntry, false, false);
      } else {
        r := Leave(SequenceEnd);
      }
    }

    /** KEY begins a mapping of a single pair inside a flow sequence. */
    method StartEntryMapping() returns (r: Outcome)
      requires Inside() && state == FlowSequenceEntry && tokens != [] && tokens[0] == Key
      modifies this`tokens, this`state, this`streamEndProduced
      ensures Advanced(old(Now()), old(Measure()), old(Left()), r)
    {
      var e := MappingStart(None, None, true);
      EntryMappingStarts(states, state, e);
      SilentSkipped(Left());
      NothingKept(Left(), e, Unread(tokens[1..], active));
      state := FlowEntryMappingKey;
      Skip();
      r := Got(e);
    }

    /** The key of a single pair. Where it is missing the token after it is skipped whatever it is: also the bracket
        that ends the sequence. */
    method ParseFlowEntryMappingKey() returns (r: Outcome)
      requires Good() && state == FlowEntryMappingKey
      modifies this`tokens, this`state, this`states, this`streamEndProduced, this`error
      ensures Advanced(old(Now()), old(Measure()), old(Left()), r)
      ensures old(tokens) != [] && old(tokens)[0] in {Value, FlowEntry, FlowSequenceEnd} ==>
        r == Got(EmptyScalar) && state == FlowEntryMappingValue && tokens == old(tokens)[1..]
    {
      var ok := Peek();
      if !ok {
        return Failed;
      }
      if tokens[0] != Value && tokens[0] != FlowEntry && tokens[0] != FlowSequenceEnd {
        r := ParseNodeThen(FlowEntryMappingValue, false, false);
      } else {
        r := SkipMissingKey();
      }
    }

    method SkipMissingKey() returns (r: Outcome)
      requires Inside() && state == FlowEntryMappingKey && tokens != [] && Silent(tokens[0])
      modifies this`tokens, this`state, this`streamEndProduced
      ensures r == Got(EmptyScalar) && Good() && state == FlowEntryMappingValue && tokens == old(tokens)[1..]
      ensures Consume(old(Now()), EmptyScalar) == Now() && Kept(old(Left()), EmptyScalar, Left())
    {
      SilentSkipped(Left());
      Skip();
      r := EmptyThen(FlowEntryMappingValue);
    }

    method ParseFlowEntryMappingValue() returns (r: Outcome)
      requires Good() && state == FlowEntryMappingValue
      modifies this`tokens, this`state, this`states, this`streamEndProduced, this`error
      ensures Advanced(old(Now()), old(Measure()), old(Left()), r)
    {
      var ok := Peek();
      if !ok {
        return Failed;
      }
      if tokens[0] == Value {
        r := NodeAfter(FlowEntryMappingEnd, false, false, {FlowEntry, FlowSequenceEnd});
      } else {
        r := EmptyThen(FlowEntryMappingEnd);
      }
    }

    method ParseFlowEntryMappingEnd() returns (r: Outcome)
      requires Good() && state == FlowEntryMappingEnd
      modifies this`state, this`error
      ensures Advanced(old(Now()), old(Measure()), old(Left()), r)
    {
      var ok := Peek();
      if !ok {
        return Failed;
      }
      EntryMappingEnds(states);
      NothingKept(Left(), MappingEnd, Left());
      state := FlowSequenceEntry;
      r := Got(MappingEnd);
    }

    method ParseFlowMappingKey(first: bool) returns (r: Outcome)
      requires Good() && state == if first then FlowMappingFirstKey else FlowMappingKey
      modifies this`tokens, this`state, this`states, this`marks, this`streamEndProduced, this`error
      ensures Advanced(old(Now()), old(Measure()), old(Left()), r)
    {
      var ok := BeginFlowEntry(first, FlowMappingKey, FlowMappingEnd);
      if !ok {
        return Failed;
      }
      if tokens[0] != FlowMappingEnd {
        r := ParseFlowKeyOrNode();
      } else {
        r := Leave(MappingEnd);
      }
    }

    method ParseFlowKeyOrNode() returns (r: Outcome)
      requires Inside() && state == FlowMappingKey && tokens != [] && tokens[0] != FlowMappingEnd
      modifies this`tokens, this`state, this`states, this`streamEndProduced, this`error
      ensures Advanced(old(Now()), old(Measure()) + 2, old(Left()), r)
    {
      if tokens[0] == Key {
        r := ParseFlowKey();
      } else {
        r := ParseNodeThen(FlowMappingEmptyValue, false, false);
      }
    }

    /** KEY flow_node? in a flow mapping. */
    method ParseFlowKey() returns (r: Outcome)
      requires Inside() && state == FlowMappingKey && tokens != [] && tokens[0] == Key
      modifies this`tokens, this`state, this`states, this`streamEndProduced, this`error
      ensures Advanced(old(Now()), old(Measure()), old(Left()), r)
    {
      r := NodeAfter(FlowMappingValue, false, false, {Value, FlowEntry, FlowMappingEnd});
    }

    method ParseFlowMappingValue(empty: bool) returns (r: Outcome)
      requires Good() && state == if empty then FlowMappingEmptyValue else FlowMappingValue
      modifies this`tokens, this`state, this`states, this`streamEndProduced, this`error
      ensures Advanced(old(Now()), old(Measure()), old(Left()), r)
    {
      var ok := Peek();
      if !ok {
        return Failed;
      }
      if !empty && tokens[0] == Value {
        r := NodeAfter(FlowMappingKey, false, false, {FlowEntry, FlowMappingEnd});
      } else {
        r := EmptyThen(FlowMappingKey);
      }
    }

    /** Reads the directives before a document, `pending`, and adds the default ones. */
    method ProcessDirectives() returns (ok: bool, ghost pending: seq<Directive>)
      requires tokens != [] && !error && !streamEndProduced && directives == []
      modifies this`tokens, this`directives, this`streamEndProduced, this`error
      ensures if ok then !error && tokens != [] && DirectivesOk(true, directives) && directives == WithDefaults(pending)
        else error
      ensures !streamEndProduced && |tokens| <= |old(tokens)| && (ok ==> DirectivesRead(old(Left()), pending, Left()))
      ensures !old(tokens[0]).VersionDirective? && !old(tokens[0]).TagDirective? ==>
        ok && pending == [] && tokens == old(tokens)
    {
      ok := ReadDirectives();
      pending := directives;
      if ok {
        AppendDefaults();
      }
    }

    method AppendDefaults()
      requires !error && DistinctHandles(directives)
      modifies this`directives, this`error
      ensures !error && DirectivesOk(true, directives) && directives == WithDefaults(old(directives))
    {
      var first := AppendDirective(Directive("!", "!"), true);
      var second := AppendDirective(Directive("!!", "tag:yaml.org,2002:"), true);
      assert StandardHandle(true) == "!!" && StandardHandle(false) == "!";
    }

    method ReadDirectives() returns (ok: bool)
      requires tokens != [] && !error && !streamEndProduced && directives == []
      modifies this`tokens, this`directives, this`streamEndProduced, this`error
      ensures if ok then !error && tokens != [] && DistinctHandles(directives) else error
      ensures !streamEndProduced && |tokens| <= |old(tokens)|
        && (ok ==> DirectivesRead(old(Left()), directives, Left()))
      ensures !old(tokens[0]).VersionDirective? && !old(tokens[0]).TagDirective? ==>
        ok && directives == [] && tokens == old(tokens)
    {
      var version := false;
      ok := true;
      while tokens[0].VersionDirective? || tokens[0].TagDirective?
        invariant tokens != [] && !error && !streamEndProduced && DistinctHandles(directives)
          && |tokens| <= |old(tokens)| && ok
        invariant DirectivesRead(old(Left()), directives, Left())
        invariant !old(tokens[0]).VersionDirective? && !old(tokens[0]).TagDirective? ==>
          directives == [] && tokens == old(tokens)
        decreases |tokens|
      {
        ok, version := ReadDirective(version, old(Left()));
        if !ok {
          return;
        }
      }
    }

    method ReadDirective(version: bool, ghost from: Unread) returns (ok: bool, version': bool)
      requires tokens != [] && !error && !streamEndProduced && DistinctHandles(directives)
        && DirectivesRead(from, directives, Left())
      requires tokens[0].VersionDirective? || tokens[0].TagDirective?
      modifies this`tokens, this`directives, this`streamEndProduced, this`error
      ensures error == !ok
      ensures ok ==> tokens != [] && DistinctHandles(directives) && DirectivesRead(from, directives, Left())
      ensures !streamEndProduced && (ok ==> |tokens| < |old(tokens)|) && |tokens| <= |old(tokens)|
    {
      version' := version;
      DirectiveSkipped(from, directives, Left());
      if tokens[0].VersionDirective? {
        if version || tokens[0].major != 1 || (tokens[0].minor != 1 && tokens[0].minor != 2) {
          error := true;
          return false, version;
        }
        version' := true;
      } else {
        ok := AppendDirective(tokens[0].directive, false);
        if !ok {
          return;
        }
      }
      Skip();
      ok := Peek();
    }

    /** Handles stay distinct: a second directive for a handle is refused, or ignored where duplicates are allowed. */
    method AppendDirective(value: Directive, allowDuplicates: bool) returns (ok: bool)
      requires !error && DistinctHandles(directives)
      modifies this`directives, this`error
      ensures error == !ok && DistinctHandles(directives)
      ensures ok <==> allowDuplicates || old(Resolve(directives, value.handle)).None?
      ensures directives == Added(old(directives), value)
      ensures ok ==> Resolve(directives, value.handle).Some?
      ensures ok ==> forall h :: old(Resolve(directives, h)).Some? ==> Resolve(directives, h).Some?
    {
      var i := 0;
      while i < |directives|
        invariant 0 <= i <= |directives|
        invariant forall j :: 0 <= j < i ==> directives[j].handle != value.handle
      {
        if directives[i].handle == value.handle {
          assert directives[i] in directives;
          ok := allowDuplicates;
          error := !ok;
          return;
        }
        i := i + 1;
      }
      ResolveGrows(directives, value);
      directives := directives + [value];
      ok := true;
    }
  }

  lemma ResolveGrows(ds: seq<Directive>, d: Directive)
    ensures Resolve(ds + [d], d.handle).Some?
    ensures forall h :: Resolve(ds, h).Some? ==> Resolve(ds + [d], h).Some?
  {
    assert d in ds + [d];
    forall h | Resolve(ds, h).Some? ensures Resolve(ds + [d], h).Some? {
      assert Directive(h, Resolve(ds, h).value) in ds + [d];
    }
  }

  lemma FinalIsEnd(es: seq<Event>)
    requires Run(Initial, es) == Final
    ensures es != [] && es[|es| - 1] == StreamEnd
  {
    var n := |es| - 1;
    assert es == es[..n] + [es[n]];
    RunSnoc(Initial, es[..n], es[n]);
  }

  lemma PropertiesKept(from: Unread, anchor: Option<string>, tag: Option<string>, implicit: bool, u: Unread)
    requires PropertiesRead(from, anchor, tag, u)
    ensures Kept(from, SequenceStart(anchor, tag, implicit), u) && Kept(from, MappingStart(anchor, tag, implicit), u)
    ensures Kept(from, Scalar(anchor, tag, "", implicit, false), u)
  {
    assert AnchorMentions(anchor) + [] == AnchorMentions(anchor);
  }

  /** A scalar event tells its properties and its value. */
  lemma ValueKept(from: Unread, anchor: Option<string>, tag: Option<string>, t: Token, u: Unread, plain: bool)
    requires PropertiesRead(from, anchor, tag, u) && u.tokens != [] && u.tokens[0] == t && t.ScalarToken?
    ensures Kept(from, Scalar(anchor, tag, t.value, plain, !plain && tag.None?), u.(tokens := u.tokens[1..]))
  {
    var ts := u.tokens;
    assert AnchorMentions(anchor) + (ValueMentions(t.value) + TokenMentions(ts[1..]))
        == AnchorMentions(anchor) + ValueMentions(t.value) + TokenMentions(ts[1..]);
  }

  lemma ConsumedIsNotStuck(s: State, states: seq<State>)
    ensures ProgressOf(s, states) != Stuck
  {
  }

  /** Parses a whole token stream. On one that ends, the end of the stream or an error is reached after boundedly many
      events, and the events are a beginning of STREAM-START (DOCUMENT-START node DOCUMENT-END)* STREAM-END, all of it
      without an error; every anchor, alias and value of the tokens is then in the events, in order and nothing else,
      and so is every tag, in full as the directives of its document say. Before an error the events tell a beginning of
      that. */
  method ParseAll(tokens: seq<Token>) returns (ok: bool, events: seq<Event>)
    ensures |events| <= 4 * |tokens|
    ensures exists more, ds :: (forall d :: d in ds ==> DocumentOk(d)) && events + more == StreamEvents(ds)
    ensures ok <==> exists ds :: (forall d :: d in ds ==> DocumentOk(d)) && events == StreamEvents(ds)
    ensures ok && tokens != [] && StreamEndToken !in tokens[..|tokens| - 1] ==>
      TokenMentions(tokens) == Mentions(events) && TokenTags(tokens, WithDefaults([]), []) == Tags(events)
    ensures Mentions(events) <= TokenMentions(tokens) && Tags(events) <= TokenTags(tokens, WithDefaults([]), [])
  {
    var parser := new Parser(tokens);
    events := [];
    while parser.state != AtEnd && !parser.error
      invariant parser.Valid() && fresh(parser) && events == parser.events && parser.input == tokens
      invariant !parser.error ==> parser.NothingLost()
      invariant Mentions(events) <= TokenMentions(tokens) && Tags(events) <= TokenTags(tokens, WithDefaults([]), [])
      invariant |events| + parser.Measure() <= 4 * |tokens| || parser.error
      invariant |events| <= 4 * |tokens|
      decreases !parser.error, parser.Measure()
    {
      var r := parser.ParseKeeping();
      if r.Got? {
        events := events + [r.event];
      }
    }
    ok := !parser.error;
    if ok && tokens != [] && StreamEndToken !in tokens[..|tokens| - 1] {
      FinalIsEnd(events);
      ConservedAll(Unread(tokens, WithDefaults([])), events, parser.Left());
    }
    UnstuckArePrefixes(events);
    AcceptedAreStreams(events);
  }
}
