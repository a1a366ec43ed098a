/** Documents and how they are composed from events (loader.c). */
module YamlComposer {
  import opened Wrappers
  import opened YamlEvents

  /** Nodes are numbered from 1; a pair whose value is 0 still waits for it. */
  datatype Pair = Pair(key: nat, value: nat)

  datatype DocNode =
    | ScalarNode(tag: string, value: string)
    | SequenceNode(tag: string, items: seq<nat>)
    | MappingNode(tag: string, pairs: seq<Pair>)

  datatype AliasData = AliasData(anchor: string, index: nat)

  /** A document under construction: its nodes, the anchors met, and the collections not yet ended. */
  datatype Composer = Composer(nodes: seq<DocNode>, aliases: seq<AliasData>, open: seq<nat>)

  datatype Composed = Composed(c: Composer) | ComposerError | AssertionFails

  datatype NodeKind = ScalarKind | SequenceKind | MappingKind

  function DefaultTag(kind: NodeKind): string
  {
    match kind
    case ScalarKind => "tag:yaml.org,2002:str"
    case SequenceKind => "tag:yaml.org,2002:seq"
    case MappingKind => "tag:yaml.org,2002:map"
  }

  function LoadedTag(tag: Option<string>, kind: NodeKind): string
  {
    if tag.None? || tag.value == "!" then DefaultTag(kind) else tag.value
  }

  /** The node with the anchor, or 0. */
  function FindAlias(aliases: seq<AliasData>, anchor: string): nat
  {
    if aliases == [] then 0
    else if aliases[0].anchor == anchor then aliases[0].index
    else FindAlias(aliases[1..], anchor)
  }

  predicate Registered(aliases: seq<AliasData>, anchor: string)
  {
    exists k :: 0 <= k < |aliases| && aliases[k].anchor == anchor
  }

  predicate Incomplete(n: DocNode)
  {
    n.MappingNode? && n.pairs != [] && n.pairs[|n.pairs| - 1].key != 0 && n.pairs[|n.pairs| - 1].value == 0
  }

  function WithChild(n: DocNode, i: nat): DocNode
    requires !n.ScalarNode?
  {
    if n.SequenceNode? then n.(items := n.items + [i])
    else if Incomplete(n) then n.(pairs := n.pairs[|n.pairs| - 1 := n.pairs[|n.pairs| - 1].(value := i)])
    else n.(pairs := n.pairs + [Pair(i, 0)])
  }

  function NodeAdd(c: Composer, i: nat): Composed
  {
    if c.open == [] then Composed(c)
    else
      var parent := c.open[|c.open| - 1];
      if !(1 <= parent <= |c.nodes|) || c.nodes[parent - 1].ScalarNode? then AssertionFails
      else Composed(c.(nodes := c.nodes[parent - 1 := WithChild(c.nodes[parent - 1], i)]))
  }

  function NodePush(c: Composer, n: DocNode, anchor: Option<string>): Composed
  {
    var i := |c.nodes| + 1;
    if anchor.Some? && Registered(c.aliases, anchor.value) then ComposerError
    else
      var aliases := if anchor.None? then c.aliases else c.aliases + [AliasData(anchor.value, i)];
      NodeAdd(c.(nodes := c.nodes + [n], aliases := aliases), i)
  }

  function Opened(r: Composed, i: nat): Composed
  {
    if r.Composed? then Composed(r.c.(open := r.c.open + [i])) else r
  }

  /** One event of a document, its end excepted. */
  function LoadEvent(c: Composer, e: Event): Composed
  {
    match e
    case Alias(name) =>
      if Registered(c.aliases, name) then NodeAdd(c, FindAlias(c.aliases, name)) else ComposerError
    case Scalar(anchor, tag, value, _, _) => NodePush(c, ScalarNode(LoadedTag(tag, ScalarKind), value), anchor)
    case SequenceStart(anchor, tag, _) =>
      Opened(NodePush(c, SequenceNode(LoadedTag(tag, SequenceKind), []), anchor), |c.nodes| + 1)
    case MappingStart(anchor, tag, _) =>
      Opened(NodePush(c, MappingNode(LoadedTag(tag, MappingKind), []), anchor), |c.nodes| + 1)
    case SequenceEnd =>
      if c.open == [] || !(1 <= c.open[|c.open| - 1] <= |c.nodes|) || !c.nodes[c.open[|c.open| - 1] - 1].SequenceNode?
      then AssertionFails else Composed(c.(open := c.open[..|c.open| - 1]))
    case MappingEnd =>
      if c.open == [] || !(1 <= c.open[|c.open| - 1] <= |c.nodes|) || !c.nodes[c.open[|c.open| - 1] - 1].MappingNode?
      then AssertionFails else Composed(c.(open := c.open[..|c.open| - 1]))
    case _ => AssertionFails
  }

  /** A run of events. */
  function LoadAll(c: Composer, es: seq<Event>): Composed
    decreases |es|
  {
    if es == [] then Composed(c)
    else
      var r := LoadEvent(c, es[0]);
      if r.Composed? then LoadAll(r.c, es[1..]) else r
  }

  lemma {:induction false} LoadConcat(c: Composer, a: seq<Event>, b: seq<Event>)
    requires LoadAll(c, a).Composed?
    ensures LoadAll(c, a + b) == LoadAll(LoadAll(c, a).c, b)
    decreases |a|
  {
    if a == [] {
      assert a + b == b;
    } else {
      assert (a + b)[0] == a[0] && (a + b)[1..] == a[1..] + b;
      LoadConcat(LoadEvent(c, a[0]).c, a[1..], b);
    }
  }

  lemma LoadSnoc(c: Composer, a: seq<Event>, e: Event)
    requires LoadAll(c, a).Composed?
    ensures LoadAll(c, a + [e]) == LoadEvent(LoadAll(c, a).c, e)
  {
    LoadConcat(c, a, [e]);
    var r := LoadEvent(LoadAll(c, a).c, e);
    assert r.Composed? ==> LoadAll(r.c, []) == r;
  }

  // What holds while a document is composed.

  predicate Within1(i: nat, n: nat)
  {
    1 <= i <= n
  }

  /** Every index is that of a node; only the value of the last pair may be missing. */
  ghost predicate IndicesOk(n: DocNode, count: nat)
  {
    match n
    case ScalarNode(_, _) => true
    case SequenceNode(_, items) => forall k :: 0 <= k < |items| ==> Within1(items[k], count)
    case MappingNode(_, pairs) =>
      && (forall k :: 0 <= k < |pairs| ==> Within1(pairs[k].key, count))
      && (forall k :: 0 <= k < |pairs| ==> Within1(pairs[k].value, count) || (k == |pairs| - 1 && pairs[k].value == 0))
  }

  /** The node of an open collection is what its frame says; a key or value in progress has already been added. */
  ghost predicate FrameFits(f: Frame, n: DocNode, top: bool)
  {
    match f
    case InSequence => n.SequenceNode?
    case AwaitKey => n.MappingNode? && Incomplete(n) == !top
    case AwaitValue => n.MappingNode? && Incomplete(n) == top
  }

  ghost predicate OpenFits(c: Composer, frames: seq<Frame>, k: nat, top: bool)
    requires k < |c.open| == |frames|
  {
    && Within1(c.open[k], |c.nodes|)
    && FrameFits(frames[k], c.nodes[c.open[k] - 1], top)
    && (k > 0 ==> c.open[k - 1] < c.open[k])
  }

  ghost predicate DueAt(c: Composer, frames: seq<Frame>, k: nat)
    requires k < |c.open| == |frames|
  {
    OpenFits(c, frames, k, k == |frames| - 1)
  }

  ghost predicate NodeFits(c: Composer, j: nat)
    requires j < |c.nodes|
  {
    IndicesOk(c.nodes[j], |c.nodes|) && (Incomplete(c.nodes[j]) ==> j + 1 in c.open)
  }

  ghost predicate NodesFit(c: Composer)
  {
    forall j {:trigger NodeFits(c, j)} :: 0 <= j < |c.nodes| ==> NodeFits(c, j)
  }

  ghost predicate AliasesFit(c: Composer)
  {
    forall k :: 0 <= k < |c.aliases| ==> Within1(c.aliases[k].index, |c.nodes|)
  }

  /** The next node is still due in the innermost collection. */
  ghost predicate Due(c: Composer, frames: seq<Frame>)
  {
    && |c.open| == |frames|
    && forall k {:trigger DueAt(c, frames, k)} :: 0 <= k < |frames| ==> DueAt(c, frames, k)
  }

  /** A node has been added to the innermost collection but is not complete. */
  ghost predicate Added(c: Composer, frames: seq<Frame>)
  {
    && |c.open| == |frames|
    && forall k {:trigger OpenFits(c, frames, k, false)} :: 0 <= k < |frames| ==> OpenFits(c, frames, k, false)
  }

  ghost predicate Fits(c: Composer, p: Progress)
  {
    && NodesFit(c) && AliasesFit(c)
    && match p
       case Within(frames) => Due(c, frames) && (frames == [] ==> c.nodes == [])
       case RootDone => c.open == [] && c.nodes != []
       case _ => false
  }

  lemma WithChildFits(n: DocNode, i: nat, count: nat)
    requires !n.ScalarNode? && IndicesOk(n, count) && Within1(i, count)
    ensures var n' := WithChild(n, i);
      && IndicesOk(n', count) && n'.SequenceNode? == n.SequenceNode?
      && (n.MappingNode? ==> n'.MappingNode? && Incomplete(n') == !Incomplete(n))
  {
  }

  lemma IndicesGrow(n: DocNode, count: nat, count': nat)
    requires IndicesOk(n, count) && count <= count'
    ensures IndicesOk(n, count')
  {
  }

  ghost predicate StepsUp(open: seq<nat>, i: nat)
    requires 0 < i < |open|
  {
    open[i - 1] < open[i]
  }

  /** The open collections come in the order of their nodes. */
  lemma {:induction false} OpenIncreases(open: seq<nat>, k: nat, m: nat)
    requires k < m < |open|
    requires forall i {:trigger StepsUp(open, i)} :: 0 < i < |open| ==> StepsUp(open, i)
    ensures open[k] < open[m]
    decreases m
  {
    assert StepsUp(open, m);
    if k < m - 1 {
      OpenIncreases(open, k, m - 1);
    }
  }

  /** Adding a node to the innermost collection. */
  lemma AddFits(c: Composer, frames: seq<Frame>, i: nat)
    requires NodesFit(c) && AliasesFit(c) && Due(c, frames) && Within1(i, |c.nodes|)
    ensures NodeAdd(c, i).Composed?
    ensures var c' := NodeAdd(c, i).c;
      && NodesFit(c') && AliasesFit(c') && Added(c', frames) && |c'.nodes| == |c.nodes| && c'.open == c.open
      && c'.aliases == c.aliases
  {
    if frames != [] {
      var m := |frames| - 1;
      assert DueAt(c, frames, m);
      var parent := c.open[m];
      assert NodeFits(c, parent - 1);
      WithChildFits(c.nodes[parent - 1], i, |c.nodes|);
      var c' := NodeAdd(c, i).c;
      forall j {:trigger NodeFits(c', j)} | 0 <= j < |c'.nodes| ensures NodeFits(c', j) {
        assert NodeFits(c, j);
        assert c.open[m] in c.open;
      }
      forall k {:trigger OpenFits(c', frames, k, false)} | 0 <= k < |frames| ensures OpenFits(c', frames, k, false) {
        assert DueAt(c, frames, k);
        AddKeepsOthers(c, frames, i, k);
      }
    }
  }

  lemma AddKeepsOthers(c: Composer, frames: seq<Frame>, i: nat, k: nat)
    requires Due(c, frames) && frames != [] && NodeAdd(c, i).Composed? && k < |frames|
    requires k == |frames| - 1 ==> FrameFits(frames[k], NodeAdd(c, i).c.nodes[c.open[k] - 1], false)
    ensures OpenFits(NodeAdd(c, i).c, frames, k, false)
  {
    assert DueAt(c, frames, k);
    var m := |frames| - 1;
    if k < m {
      forall i {:trigger StepsUp(c.open, i)} | 0 < i < |c.open| ensures StepsUp(c.open, i) {
        assert DueAt(c, frames, i);
      }
      OpenIncreases(c.open, k, m);
    }
  }

  /** A node that has been added is complete. */
  lemma AddedIsDone(c: Composer, frames: seq<Frame>)
    requires NodesFit(c) && AliasesFit(c) && Added(c, frames) && c.nodes != []
    ensures Fits(c, NodeDone(frames))
  {
    if frames != [] {
      var frames' := NodeDone(frames).open;
      forall k {:trigger DueAt(c, frames', k)} | 0 <= k < |frames'|
        ensures DueAt(c, frames', k)
      {
        assert OpenFits(c, frames, k, false);
      }
    }
  }

  lemma PushFits(c: Composer, frames: seq<Frame>, n: DocNode, anchor: Option<string>)
    requires NodesFit(c) && AliasesFit(c) && Due(c, frames)
    requires IndicesOk(n, |c.nodes| + 1) && !Incomplete(n)
    ensures !NodePush(c, n, anchor).AssertionFails?
    ensures NodePush(c, n, anchor).ComposerError? <==> anchor.Some? && Registered(c.aliases, anchor.value)
    ensures NodePush(c, n, anchor).Composed? ==>
      (var c' := NodePush(c, n, anchor).c;
       && NodesFit(c') && AliasesFit(c') && Added(c', frames) && |c'.nodes| == |c.nodes| + 1 && c'.open == c.open
       && (forall k :: 0 <= k < |c.open| ==> c.open[k] <= |c.nodes|) && c'.nodes[|c.nodes|] == n)
  {
    if anchor.None? || !Registered(c.aliases, anchor.value) {
      var i := |c.nodes| + 1;
      var aliases := if anchor.None? then c.aliases else c.aliases + [AliasData(anchor.value, i)];
      var c1 := c.(nodes := c.nodes + [n], aliases := aliases);
      forall j {:trigger NodeFits(c1, j)} | 0 <= j < |c1.nodes| ensures NodeFits(c1, j) {
        if j < |c.nodes| {
          assert NodeFits(c, j);
          IndicesGrow(c.nodes[j], |c.nodes|, |c1.nodes|);
        }
      }
      forall k {:trigger DueAt(c1, frames, k)} | 0 <= k < |frames|
        ensures DueAt(c1, frames, k)
      {
        assert DueAt(c, frames, k);
      }
      AddFits(c1, frames, i);
      forall k | 0 <= k < |c.open| ensures c.open[k] <= |c.nodes| {
        assert DueAt(c, frames, k);
      }
    }
  }

  lemma StartFits(c: Composer, frames: seq<Frame>, n: DocNode, anchor: Option<string>, f: Frame)
    requires NodesFit(c) && AliasesFit(c) && Due(c, frames) && NodePush(c, n, anchor).Composed?
    requires (n.SequenceNode? && n.items == [] && f == InSequence) || (n.MappingNode? && n.pairs == [] && f == AwaitKey)
    ensures Fits(NodePush(c, n, anchor).c.(open := c.open + [|c.nodes| + 1]), Within(frames + [f]))
  {
    PushFits(c, frames, n, anchor);
    var c1 := NodePush(c, n, anchor).c;
    var c', frames' := c1.(open := c.open + [|c.nodes| + 1]), frames + [f];
    forall j {:trigger NodeFits(c', j)} | 0 <= j < |c'.nodes| ensures NodeFits(c', j) {
      assert NodeFits(c1, j);
    }
    forall k {:trigger DueAt(c', frames', k)} | 0 <= k < |frames'|
      ensures DueAt(c', frames', k)
    {
      if k < |frames| {
        assert OpenFits(c1, frames, k, false);
      }
    }
  }

  lemma EndFits(c: Composer, frames: seq<Frame>)
    requires NodesFit(c) && AliasesFit(c) && Due(c, frames) && frames != [] && frames[|frames| - 1] != AwaitValue
    ensures Fits(c.(open := c.open[..|frames| - 1]), NodeDone(frames[..|frames| - 1]))
  {
    var m := |frames| - 1;
    var c', rest := c.(open := c.open[..m]), frames[..m];
    assert DueAt(c, frames, m);
    forall j {:trigger NodeFits(c', j)} | 0 <= j < |c'.nodes| ensures NodeFits(c', j) {
      assert NodeFits(c, j);
      if Incomplete(c.nodes[j]) {
        var k :| 0 <= k < |c.open| && c.open[k] == j + 1;
        assert c'.open[k] == j + 1;
      }
    }
    forall k {:trigger OpenFits(c', rest, k, false)} | 0 <= k < |rest| ensures OpenFits(c', rest, k, false) {
      assert DueAt(c, frames, k);
    }
    AddedIsDone(c', rest);
  }

  lemma {:induction false} FindAliasFits(aliases: seq<AliasData>, name: string, count: nat)
    requires Registered(aliases, name) && forall k :: 0 <= k < |aliases| ==> Within1(aliases[k].index, count)
    ensures Within1(FindAlias(aliases, name), count)
    decreases |aliases|
  {
    if aliases[0].anchor != name {
      var k :| 0 <= k < |aliases| && aliases[k].anchor == name;
      assert aliases[1..][k - 1].anchor == name;
      FindAliasFits(aliases[1..], name, count);
    }
  }

  /** No event that the automaton accepts makes an assertion fail, and composing it keeps the document in step. */
  lemma LoadFits(c: Composer, p: Progress, e: Event)
    requires Fits(c, p) && p.Within? && Consume(p, e) != Stuck
    ensures !LoadEvent(c, e).AssertionFails?
    ensures LoadEvent(c, e).Composed? ==> Fits(LoadEvent(c, e).c, Consume(p, e))
  {
    var frames := p.open;
    match e
    case Alias(name) =>
      if Registered(c.aliases, name) {
        FindAliasFits(c.aliases, name, |c.nodes|);
        AddFits(c, frames, FindAlias(c.aliases, name));
        AddedIsDone(NodeAdd(c, FindAlias(c.aliases, name)).c, frames);
      }
    case Scalar(anchor, tag, value, _, _) =>
      var n := ScalarNode(LoadedTag(tag, ScalarKind), value);
      PushFits(c, frames, n, anchor);
      if NodePush(c, n, anchor).Composed? {
        AddedIsDone(NodePush(c, n, anchor).c, frames);
      }
    case SequenceStart(anchor, tag, _) =>
      var n := SequenceNode(LoadedTag(tag, SequenceKind), []);
      PushFits(c, frames, n, anchor);
      if NodePush(c, n, anchor).Composed? {
        StartFits(c, frames, n, anchor, InSequence);
      }
    case MappingStart(anchor, tag, _) =>
      var n := MappingNode(LoadedTag(tag, MappingKind), []);
      PushFits(c, frames, n, anchor);
      if NodePush(c, n, anchor).Composed? {
        StartFits(c, frames, n, anchor, AwaitKey);
      }
    case SequenceEnd =>
      assert DueAt(c, frames, |frames| - 1);
      EndFits(c, frames);
    case MappingEnd =>
      assert DueAt(c, frames, |frames| - 1);
      EndFits(c, frames);
  }

  /** A finished document: a root, every index valid, every pair with both key and value. */
  ghost predicate DocumentFits(nodes: seq<DocNode>)
  {
    nodes != [] && forall j {:trigger nodes[j]} ::
      0 <= j < |nodes| ==> IndicesOk(nodes[j], |nodes|) && !Incomplete(nodes[j])
  }

  lemma DoneFits(c: Composer)
    requires Fits(c, RootDone)
    ensures DocumentFits(c.nodes)
  {
    forall j {:trigger c.nodes[j]} | 0 <= j < |c.nodes| ensures IndicesOk(c.nodes[j], |c.nodes|)
      && !Incomplete(c.nodes[j]) {
      assert NodeFits(c, j);
    }
  }

  /** In a finished document every pair has a key and a value that are nodes. */
  lemma PairsAreComplete(nodes: seq<DocNode>, j: nat, k: nat)
    requires DocumentFits(nodes) && j < |nodes| && nodes[j].MappingNode? && k < |nodes[j].pairs|
    ensures 1 <= nodes[j].pairs[k].key <= |nodes| && 1 <= nodes[j].pairs[k].value <= |nodes|
  {
    assert IndicesOk(nodes[j], |nodes|);
    assert Within1(nodes[j].pairs[k].key, |nodes|);
    assert k == |nodes[j].pairs| - 1 ==> nodes[j].pairs[k].value != 0;
  }
}

/** Loading documents from a parser (loader.c). */
module YamlLoader {
  import opened Wrappers
  import opened YamlEvents
  import opened YamlComposer
  import opened YamlParserStates
  import opened YamlParser

  datatype Loaded = Loaded(nodes: seq<DocNode>) | EndOfStream | LoadError | LoadAssertion

  lemma InDocumentNext(p: Progress, e: Event)
    requires InDocument(p) && Consume(p, e) != Stuck
    ensures e.DocumentEnd? ==> p == RootDone && Consume(p, e) == Between
    ensures !e.DocumentEnd? ==> p.Within? && InDocument(Consume(p, e))
  {
  }

  /** Which events are allowed between documents. */
  lemma EventPlace(p: Progress, e: Event)
    requires Consume(p, e) != Stuck && p != Initial
    ensures e.DocumentStart? ==> p == Between && Consume(p, e) == Within([])
    ensures e == StreamEnd ==> p == Between && Consume(p, e) == Final
    ensures !e.DocumentStart? && e != StreamEnd ==> InDocument(p)
  {
  }

  class Loader {
    const parser: Parser
    var nodes: seq<DocNode>
    var aliases: seq<AliasData>
    var open: seq<nat>

    constructor (parser: Parser)
      ensures this.parser == parser
    {
      this.parser, nodes, aliases, open := parser, [], [], [];
    }

    ghost function View(): Composer
      reads this
    {
      Composer(nodes, aliases, open)
    }

    /** Whether the step went as the composer says. */
    ghost predicate Went(r: Composed, ok: bool)
      reads this
    {
      !r.AssertionFails? && ok == r.Composed? && (ok ==> View() == r.c)
    }

    method RegisterAnchor(i: nat, anchor: Option<string>) returns (ok: bool)
      modifies this`aliases
      ensures ok == !(anchor.Some? && old(Registered(aliases, anchor.value)))
      ensures ok ==> aliases == if anchor.None? then old(aliases) else old(aliases) + [AliasData(anchor.value, i)]
    {
      if anchor.None? {
        return true;
      }
      var k := 0;
      while k < |aliases|
        invariant 0 <= k <= |aliases| && forall j :: 0 <= j < k ==> aliases[j].anchor != anchor.value
      {
        if aliases[k].anchor == anchor.value {
          return false;
        }
        k := k + 1;
      }
      aliases := aliases + [AliasData(anchor.value, i)];
      ok := true;
    }

    method LoadNodeAdd(i: nat)
      requires NodeAdd(View(), i).Composed?
      modifies this`nodes
      ensures View() == NodeAdd(old(View()), i).c
    {
      if open != [] {
        var parent := open[|open| - 1];
        var n := nodes[parent - 1];
        if n.SequenceNode? {
          nodes := nodes[parent - 1 := n.(items := n.items + [i])];
        } else {
          var last := |n.pairs| - 1;
          if n.pairs != [] && n.pairs[last].key != 0 && n.pairs[last].value == 0 {
            nodes := nodes[parent - 1 := n.(pairs := n.pairs[last := n.pairs[last].(value := i)])];
          } else {
            nodes := nodes[parent - 1 := n.(pairs := n.pairs + [Pair(i, 0)])];
          }
        }
      }
    }

    method LoadAlias(name: string) returns (ok: bool)
      requires !LoadEvent(View(), Alias(name)).AssertionFails?
      modifies this`nodes
      ensures Went(LoadEvent(old(View()), Alias(name)), ok)
    {
      var k := 0;
      while k < |aliases|
        invariant 0 <= k <= |aliases| && forall j :: 0 <= j < k ==> aliases[j].anchor != name
        invariant FindAlias(aliases, name) == FindAlias(aliases[k..], name)
      {
        if aliases[k].anchor == name {
          LoadNodeAdd(aliases[k].index);
          return true;
        }
        assert aliases[k..][1..] == aliases[k + 1..];
        k := k + 1;
      }
      ok := false;
    }

    /** Pushes a node, registers its anchor and adds it to its parent. */
    method LoadPush(n: DocNode, anchor: Option<string>) returns (ok: bool)
      requires !NodePush(View(), n, anchor).AssertionFails?
      modifies this`nodes, this`aliases
      ensures Went(NodePush(old(View()), n, anchor), ok)
    {
      nodes := nodes + [n];
      var i := |nodes|;
      ok := RegisterAnchor(i, anchor);
      if ok {
        LoadNodeAdd(i);
      }
    }

    method LoadOne(e: Event) returns (ok: bool)
      requires !LoadEvent(View(), e).AssertionFails?
      modifies this
      ensures Went(LoadEvent(old(View()), e), ok)
    {
      ok := true;
      match e
      case Alias(name) => ok := LoadAlias(name);
      case Scalar(anchor, tag, value, _, _) => ok := LoadPush(ScalarNode(LoadedTag(tag, ScalarKind), value), anchor);
      case SequenceStart(anchor, tag, _) =>
        var i := |nodes| + 1;
        ok := LoadPush(SequenceNode(LoadedTag(tag, SequenceKind), []), anchor);
        if ok {
          open := open + [i];
        }
      case MappingStart(anchor, tag, _) =>
        var i := |nodes| + 1;
        ok := LoadPush(MappingNode(LoadedTag(tag, MappingKind), []), anchor);
        if ok {
          open := open + [i];
        }
      case SequenceEnd => open := open[..|open| - 1];
      case MappingEnd => open := open[..|open| - 1];
    }

    /** One turn of the loading loop. */
    method LoadNext() returns (ok: bool, e: Event)
      requires parser.Valid() && !parser.error && InDocument(parser.Now()) && Fits(View(), parser.Now())
      modifies this, parser
      ensures parser.Valid() && ok == !parser.error
      ensures ok ==> parser.Measure() < old(parser.Measure()) && parser.events == old(parser.events) + [e]
      ensures ok && e.DocumentEnd? ==> parser.Now() == Between && old(parser.Now()) == RootDone && View() == old(View())
      ensures ok && !e.DocumentEnd? ==> InDocument(parser.Now()) && Fits(View(), parser.Now())
      ensures ok && !e.DocumentEnd? ==> LoadEvent(old(View()), e) == Composed(View())
    {
      ghost var p := parser.Now();
      ok, e := ParseWithin();
      if ok && !e.DocumentEnd? {
        ok := LoadInto(e, p);
      }
    }

    /** The next event inside a document. */
    method ParseWithin() returns (ok: bool, e: Event)
      requires parser.Valid() && !parser.error && InDocument(parser.Now())
      modifies parser
      ensures parser.Valid() && ok == !parser.error
      ensures ok ==> parser.Measure() < old(parser.Measure()) && parser.events == old(parser.events) + [e]
      ensures ok && e.DocumentEnd? ==> old(parser.Now()) == RootDone && parser.Now() == Between
      ensures ok && !e.DocumentEnd? ==> old(parser.Now()).Within? && InDocument(parser.Now())
      ensures ok && !e.DocumentEnd? ==> parser.Now() == Consume(old(parser.Now()), e) != Stuck
    {
      ghost var p := parser.Now();
      var r := ParseNext();
      if r.Failed? {
        return false, StreamEnd;
      }
      InDocumentNext(p, r.event);
      return true, r.event;
    }

    /** The event that led from `p` to where the parser is enters the document, or stops the parser. */
    method LoadInto(e: Event, ghost p: Progress) returns (ok: bool)
      requires parser.Valid() && !parser.error && p.Within? && Fits(View(), p) && InDocument(parser.Now())
      requires parser.Now() == Consume(p, e) != Stuck
      modifies this, parser`error
      ensures parser.Valid() && ok == !parser.error
      ensures ok ==> Fits(View(), parser.Now()) && LoadEvent(old(View()), e) == Composed(View())
    {
      LoadFits(View(), p, e);
      ok := LoadOne(e);
      if !ok {
        parser.Abort();
      }
    }

    /** The document so far is what the events `es` describe. */
    ghost predicate Composing(before: seq<Event>, es: seq<Event>)
      reads this, parser
    {
      && parser.Valid() && !parser.error && InDocument(parser.Now()) && Fits(View(), parser.Now())
      && LoadAll(Composer([], [], []), es) == Composed(View()) && parser.events == before + es
    }

    method LoadMore(ghost before: seq<Event>, ghost es: seq<Event>) returns (ok: bool, e: Event)
      requires Composing(before, es)
      modifies this, parser
      ensures parser.Valid() && ok == !parser.error && (ok ==> parser.Measure() < old(parser.Measure()))
      ensures ok && !e.DocumentEnd? ==> Composing(before, es + [e])
      ensures ok && e.DocumentEnd? ==>
        DocumentFits(nodes) && parser.Now() == Between && parser.events == before + es + [e]
      ensures ok && e.DocumentEnd? ==> LoadAll(Composer([], [], []), es) == Composed(View())
    {
      ghost var c := View();
      ok, e := LoadNext();
      if ok && e.DocumentEnd? {
        DoneFits(c);
      } else if ok {
        LoadSnoc(Composer([], [], []), es, e);
        assert before + es + [e] == before + (es + [e]);
      }
    }

    /** Loads up to the end of the document: no assertion fails, and what comes out is what the events describe, a
        finished document. */
    method LoadNodes() returns (ok: bool, ghost es: seq<Event>, ghost end: Event)
      requires parser.Valid() && !parser.error && parser.Now() == Within([]) && View() == Composer([], [], [])
      modifies this, parser
      ensures parser.Valid() && ok == !parser.error
      ensures ok ==> DocumentFits(nodes) && parser.Now() == Between
      ensures ok ==> LoadAll(Composer([], [], []), es) == Composed(View())
      ensures ok ==> end.DocumentEnd? && parser.events == old(parser.events) + es + [end]
    {
      es := [];
      ghost var before := parser.events;
      while true
        invariant Composing(before, es)
        decreases parser.Measure()
      {
        var e;
        ok, e := LoadMore(before, es);
        end := e;
        if !ok || e.DocumentEnd? {
          return;
        }
        es := es + [e];
      }
    }

    /** The next event, and where it leads. */
    method ParseNext() returns (r: Outcome)
      requires parser.Valid()
      modifies parser
      ensures parser.Valid() && (r == Nothing <==> old(parser.error || parser.state == AtEnd))
        && (r.Failed? ==> parser.error)
      ensures r == Nothing ==>
        parser.error == old(parser.error) && parser.Now() == old(parser.Now()) && parser.events == old(parser.events)
      ensures r.Got? ==>
        !parser.error && parser.events == old(parser.events) + [r.event] && parser.Measure() < old(parser.Measure())
      ensures r.Got? ==> parser.Now() == Consume(old(parser.Now()), r.event) != Stuck
    {
      ghost var before := parser.events;
      r := parser.Parse();
      if r.Got? {
        RunSnoc(Initial, before, r.event);
      }
    }

    /** The events of a document: a start, those that describe its nodes, and an end. */
    ghost predicate Describes(start: Event, es: seq<Event>, end: Event, nodes: seq<DocNode>)
    {
      && start.DocumentStart? && end.DocumentEnd? && DocumentFits(nodes)
      && LoadAll(Composer([], [], []), es).Composed? && LoadAll(Composer([], [], []), es).c.nodes == nodes
    }

    /** Loads the next document: its nodes are those that its events describe. An assertion fails exactly when the
        caller goes on after an error, or has taken events of the document from the parser itself and the next event
        comes. */
    method Load() returns (r: Loaded, ghost start: Event, ghost es: seq<Event>, ghost end: Event)
      requires parser.Valid()
      modifies this, parser
      ensures parser.Valid()
      ensures r.LoadAssertion? <==> old(parser.error) || (old(InDocument(parser.Now())) && !parser.error)
      ensures r.LoadError? <==> !old(parser.error) && parser.error
      ensures r.Loaded? ==> parser.Now() == Between && Describes(start, es, end, r.nodes)
      ensures r.Loaded? ==>
        parser.events == old(parser.events) + (if old(parser.state) == AtStreamStart then [StreamStart] else [])
          + [start] + es + [end]
      ensures r.EndOfStream? ==> parser.Now() == Final
    {
      start, es, end := StreamStart, [], StreamEnd;
      if parser.state == AtStreamStart {
        var first := ParseNext();
        if first.Failed? {
          r := LoadError;
          return;
        }
        if first == Nothing || first.event != StreamStart {
          r := LoadAssertion;
          return;
        }
      }
      r, start, es, end := LoadHere();
    }

    /** The same, once the stream has started. */
    method LoadHere() returns (r: Loaded, ghost start: Event, ghost es: seq<Event>, ghost end: Event)
      requires parser.Valid() && parser.Now() != Initial
      modifies this, parser
      ensures parser.Valid()
      ensures r.LoadAssertion? <==> old(parser.error) || (old(InDocument(parser.Now())) && !parser.error)
      ensures r.LoadError? <==> !old(parser.error) && parser.error
      ensures r.Loaded? ==> parser.Now() == Between && Describes(start, es, end, r.nodes)
      ensures r.Loaded? ==> parser.events == old(parser.events) + [start] + es + [end]
      ensures r.EndOfStream? ==> parser.Now() == Final
    {
      start, es, end := StreamStart, [], StreamEnd;
      if parser.streamEndProduced {
        r := EndOfStream;
        return;
      }
      ghost var p := parser.Now();
      var next := ParseNext();
      if next.Failed? {
        r := LoadError;
        return;
      }
      if next.Got? {
        EventPlace(p, next.event);
      }
      if next.Got? && next.event == StreamEnd {
        r := EndOfStream;
        return;
      }
      if next == Nothing || !next.event.DocumentStart? {
        r := LoadAssertion;
        return;
      }
      start := next.event;
      r, es, end := LoadDocument(next.event);
    }

    /** The document that has just started. */
    method LoadDocument(start: Event) returns (r: Loaded, ghost es: seq<Event>, ghost end: Event)
      requires parser.Valid() && !parser.error && parser.Now() == Within([]) && start.DocumentStart?
      modifies this, parser
      ensures parser.Valid() && (if parser.error then r == LoadError else r.Loaded?)
      ensures r.Loaded? ==> parser.Now() == Between && Describes(start, es, end, r.nodes)
      ensures r.Loaded? ==> parser.events == old(parser.events) + es + [end]
    {
      nodes, aliases, open := [], [], [];
      var ok;
      ok, es, end := LoadNodes();
      r := if ok then Loaded(nodes) else LoadError;
    }
  }
}
