/** What the dumper writes for a document, and what the loader makes of it (dumper.c, loader.c). */
module YamlDump {
  import opened Wrappers
  import opened YamlEvents
  import opened YamlComposer
  import opened YamlTour

  // Anchor names: "id%03d".

  function Digits(n: nat): string
  {
    if n < 10 then ['0' + n as char] else Digits(n / 10) + ['0' + (n % 10) as char]
  }

  function AnchorName(id: nat): string
  {
    "id" + (if id < 10 then "00" else if id < 100 then "0" else "") + Digits(id)
  }

  function ValueOf(s: string): int
  {
    if s == "" then 0 else 10 * ValueOf(s[..|s| - 1]) + (s[|s| - 1] as int - '0' as int)
  }

  lemma {:induction false} DigitsValue(n: nat)
    ensures ValueOf(Digits(n)) == n
  {
    var s := Digits(n);
    if n < 10 {
      assert s[..0] == "";
    } else {
      assert s[..|s| - 1] == Digits(n / 10);
      DigitsValue(n / 10);
    }
  }

  lemma {:induction false} LeadingZero(s: string)
    ensures ValueOf("0" + s) == ValueOf(s)
    decreases |s|
  {
    if s == "" {
      assert "0" + s == "0" && "0"[..0] == "";
    } else {
      assert ("0" + s)[..|s|] == "0" + s[..|s| - 1];
      LeadingZero(s[..|s| - 1]);
    }
  }

  /** Different ids give different names. */
  lemma AnchorNameInjective(a: nat, b: nat)
    requires AnchorName(a) == AnchorName(b)
    ensures a == b
  {
    AnchorValue(a);
    AnchorValue(b);
  }

  lemma AnchorValue(id: nat)
    ensures |AnchorName(id)| >= 2 && ValueOf(AnchorName(id)[2..]) == id
  {
    var s := Digits(id);
    DigitsValue(id);
    LeadingZero(s);
    LeadingZero("0" + s);
    assert "00" + s == "0" + ("0" + s);
    assert AnchorName(id)[2..] == (if id < 10 then "00" else if id < 100 then "0" else "") + s;
  }

  // Events.

  function AnchorOf(ids: seq<nat>, i: nat): Option<string>
    requires Within1(i, |ids|)
  {
    if ids[i - 1] == 0 then None else Some(AnchorName(ids[i - 1]))
  }

  function StartEvent(n: DocNode, anchor: Option<string>): Event
  {
    match n
    case ScalarNode(tag, value) => Scalar(anchor, Some(tag), value, tag == DefaultTag(ScalarKind),
                                          tag == DefaultTag(ScalarKind))
    case SequenceNode(tag, _) => SequenceStart(anchor, Some(tag), tag == DefaultTag(SequenceKind))
    case MappingNode(tag, _) => MappingStart(anchor, Some(tag), tag == DefaultTag(MappingKind))
  }

  function EndEvents(n: DocNode): seq<Event>
  {
    match n
    case ScalarNode(_, _) => []
    case SequenceNode(_, _) => [SequenceEnd]
    case MappingNode(_, _) => [MappingEnd]
  }

  /** What is written for a node when the nodes of the tour have been written. */
  ghost function NodeText(doc: seq<DocNode>, ids: seq<nat>, i: nat, t: Tour): seq<Event>
    requires Closed(doc) && Within1(i, |doc|) && |ids| == |doc|
    decreases |Unvisited(doc, t)|, 0
  {
    if i in t.order then [Alias(AnchorName(ids[i - 1]))]
    else
      var t1 := Tour(t.order + [i], t.repeated);
      FirstVisit(doc, i, t, t1);
      assert ChildrenOk(doc, i - 1);
      [StartEvent(doc[i - 1], AnchorOf(ids, i))] + AllText(doc, ids, Children(doc[i - 1]), t1) + EndEvents(doc[i - 1])
  }

  ghost function AllText(doc: seq<DocNode>, ids: seq<nat>, ks: seq<nat>, t: Tour): seq<Event>
    requires Closed(doc) && AllWithin(ks, |doc|) && |ids| == |doc|
    decreases |Unvisited(doc, t)|, 1 + |ks|
  {
    if ks == [] then []
    else
      var t1 := Visit(doc, ks[0], t);
      NoMoreUnvisited(doc, t, t1);
      NodeText(doc, ids, ks[0], t) + AllText(doc, ids, ks[1..], t1)
  }

  // Where a node ends up.

  /** The position of a node in the order of the first visits, from 1, or 0. */
  function Index(order: seq<nat>, i: nat): nat
  {
    if order == [] then 0
    else if order[0] == i then 1
    else
      var k := Index(order[1..], i);
      if k == 0 then 0 else k + 1
  }

  lemma {:induction false} IndexFinds(order: seq<nat>, i: nat)
    ensures Index(order, i) <= |order| && (Index(order, i) == 0 <==> i !in order)
    ensures i in order ==> order[Index(order, i) - 1] == i
    decreases |order|
  {
    if order != [] {
      IndexFinds(order[1..], i);
    }
  }

  lemma {:induction false} IndexStays(order: seq<nat>, order': seq<nat>, i: nat)
    requires order <= order' && i in order
    ensures Index(order', i) == Index(order, i)
    decreases |order|
  {
    if order[0] != i {
      IndexStays(order[1..], order'[1..], i);
      IndexFinds(order[1..], i);
    }
  }

  lemma {:induction false} IndexOfNew(order: seq<nat>, i: nat)
    requires i !in order
    ensures Index(order + [i], i) == |order| + 1
    decreases |order|
  {
    if order != [] {
      assert (order + [i])[1..] == order[1..] + [i];
      IndexOfNew(order[1..], i);
    }
  }

  function Indices(order: seq<nat>, ks: seq<nat>): (r: seq<nat>)
    ensures |r| == |ks| && forall k :: 0 <= k < |ks| ==> r[k] == Index(order, ks[k])
  {
    seq(|ks|, k requires 0 <= k < |ks| => Index(order, ks[k]))
  }

  // What the loader makes of a node.

  function Blank(n: DocNode): DocNode
  {
    match n
    case ScalarNode(tag, value) => ScalarNode(LoadedTag(Some(tag), ScalarKind), value)
    case SequenceNode(tag, _) => SequenceNode(LoadedTag(Some(tag), SequenceKind), [])
    case MappingNode(tag, _) => MappingNode(LoadedTag(Some(tag), MappingKind), [])
  }

  function Fill(n: DocNode, ks: seq<nat>): (r: DocNode)
    requires n.ScalarNode? ==> ks == []
    ensures r.ScalarNode? == n.ScalarNode? && r.SequenceNode? == n.SequenceNode?
    decreases |ks|
  {
    if ks == [] then n else Fill(WithChild(n, ks[0]), ks[1..])
  }

  /** The node as it is loaded when its children are where the order says. */
  function Image(doc: seq<DocNode>, order: seq<nat>, i: nat): DocNode
    requires Within1(i, |doc|)
  {
    Fill(Blank(doc[i - 1]), Indices(order, Children(doc[i - 1])))
  }

  ghost predicate AllIn(order: seq<nat>, n: nat)
  {
    forall k :: 0 <= k < |order| ==> Within1(order[k], n)
  }

  ghost function Images(doc: seq<DocNode>, order: seq<nat>, from: nat): (r: seq<DocNode>)
    requires AllIn(order, |doc|) && from <= |order|
    ensures |r| == |order| - from
  {
    seq(|order| - from, k requires 0 <= k < |order| - from => Image(doc, order, order[from + k]))
  }

  lemma ImageStays(doc: seq<DocNode>, order: seq<nat>, order': seq<nat>, k: nat)
    requires order <= order' && k < |order| && Done(doc, order, k)
    ensures Image(doc, order', order[k]) == Image(doc, order, order[k])
  {
    var kids := Children(doc[order[k] - 1]);
    forall m | 0 <= m < |kids| ensures Index(order', kids[m]) == Index(order, kids[m]) {
      assert kids[m] in order;
      IndexStays(order, order', kids[m]);
    }
    assert Indices(order', kids) == Indices(order, kids);
  }

  lemma ImagesJoin(doc: seq<DocNode>, a: seq<nat>, b: seq<nat>, from: nat)
    requires AllIn(b, |doc|) && from <= |a| && a <= b && AllIn(a, |doc|) && DoneSince(doc, a, from)
    ensures Images(doc, a, from) + Images(doc, b, |a|) == Images(doc, b, from)
  {
    var left, more, right := Images(doc, a, from), Images(doc, b, |a|), Images(doc, b, from);
    forall k | 0 <= k < |left| ensures left[k] == right[k] {
      ImageKept(doc, a, b, from, k);
    }
    forall k | 0 <= k < |more| ensures more[k] == right[|left| + k] {
      ImagesAt(doc, b, |a|, k);
      ImagesAt(doc, b, from, |left| + k);
    }
    JoinNodes(left, more, right);
  }

  lemma ImagesAt(doc: seq<DocNode>, order: seq<nat>, from: nat, k: nat)
    requires AllIn(order, |doc|) && from + k < |order|
    ensures Images(doc, order, from)[k] == Image(doc, order, order[from + k])
  {
  }

  lemma ImageKept(doc: seq<DocNode>, a: seq<nat>, b: seq<nat>, from: nat, k: nat)
    requires AllIn(b, |doc|) && a <= b && AllIn(a, |doc|) && DoneSince(doc, a, from) && from + k < |a|
    ensures Images(doc, a, from)[k] == Images(doc, b, from)[k]
  {
    assert Done(doc, a, from + k);
    ImageStays(doc, a, b, from + k);
    ImagesAt(doc, a, from, k);
    ImagesAt(doc, b, from, k);
  }

  lemma JoinNodes<T>(left: seq<T>, more: seq<T>, right: seq<T>)
    requires |left| + |more| == |right|
    requires (forall k :: 0 <= k < |left| ==> left[k] == right[k]) && forall k ::
      0 <= k < |more| ==> more[k] == right[|left| + k]
    ensures left + more == right
  {
  }

  // Aliases.

  /** Different anchored nodes have different ids. */
  ghost predicate IdsDistinct(ids: seq<nat>)
  {
    forall j, k :: 0 <= j < k < |ids| && ids[j] != 0 ==> ids[j] != ids[k]
  }

  ghost predicate Anchored(ids: seq<nat>, s: set<nat>)
  {
    forall i :: i in s ==> Within1(i, |ids|) && ids[i - 1] != 0
  }

  ghost predicate AliasMatches(ids: seq<nat>, order: seq<nat>, aliases: seq<AliasData>, i: nat)
    requires Within1(i, |ids|)
  {
    ids[i - 1] != 0 ==>
      && (Registered(aliases, AnchorName(ids[i - 1])) <==> i in order)
      && (i in order ==> FindAlias(aliases, AnchorName(ids[i - 1])) == Index(order, i))
  }

  /** The anchors registered are those of the nodes visited, each once. */
  ghost predicate AliasesMatch(ids: seq<nat>, order: seq<nat>, aliases: seq<AliasData>)
  {
    forall i {:trigger AliasMatches(ids, order, aliases, i)} :: 1 <= i <= |ids| ==> AliasMatches(ids, order, aliases, i)
  }

  lemma {:induction false} FindInMore(aliases: seq<AliasData>, more: AliasData, name: string)
    ensures Registered(aliases + [more], name) <==> Registered(aliases, name) || more.anchor == name
    ensures Registered(aliases, name) ==> FindAlias(aliases + [more], name) == FindAlias(aliases, name)
    ensures !Registered(aliases, name) && more.anchor == name ==> FindAlias(aliases + [more], name) == more.index
    decreases |aliases|
  {
    assert (aliases + [more])[|aliases|] == more;
    forall k | 0 <= k < |aliases| ensures (aliases + [more])[k] == aliases[k] {
    }
    if aliases != [] {
      assert (aliases + [more])[1..] == aliases[1..] + [more];
      FindInMore(aliases[1..], more, name);
      assert Registered(aliases[1..], name) || aliases[0].anchor == name <==> Registered(aliases, name) by {
        if Registered(aliases[1..], name) {
          var k :| 0 <= k < |aliases[1..]| && aliases[1..][k].anchor == name;
          assert aliases[k + 1].anchor == name;
        }
        if Registered(aliases, name) && aliases[0].anchor != name {
          var k :| 0 <= k < |aliases| && aliases[k].anchor == name;
          assert aliases[1..][k - 1].anchor == name;
        }
      }
    }
  }

  lemma AliasesGrow(ids: seq<nat>, order: seq<nat>, aliases: seq<AliasData>, i: nat)
    requires IdsDistinct(ids) && AliasesMatch(ids, order, aliases) && Within1(i, |ids|) && i !in order
    ensures AliasesMatch(ids, order + [i],
                         if ids[i - 1] == 0 then aliases
                           else aliases + [AliasData(AnchorName(ids[i - 1]), |order| + 1)])
  {
    var aliases' := if ids[i - 1] == 0 then aliases else aliases + [AliasData(AnchorName(ids[i - 1]), |order| + 1)];
    IndexOfNew(order, i);
    forall j {:trigger AliasMatches(ids, order + [i], aliases', j)} | 1 <= j <= |ids|
      ensures AliasMatches(ids, order + [i], aliases', j)
    {
      assert AliasMatches(ids, order, aliases, j);
      if j in order {
        IndexStays(order, order + [i], j);
      }
      if ids[j - 1] != 0 && ids[i - 1] != 0 {
        FindInMore(aliases, AliasData(AnchorName(ids[i - 1]), |order| + 1), AnchorName(ids[j - 1]));
        if AnchorName(ids[i - 1]) == AnchorName(ids[j - 1]) {
          AnchorNameInjective(ids[i - 1], ids[j - 1]);
        }
      }
    }
  }

  // What is written is a node of the language of events.

  /** The open collections after `n` more nodes in the innermost one. */
  ghost function After(open: seq<Frame>, n: nat): (r: seq<Frame>)
    requires open != []
    ensures r != []
    decreases n
  {
    if n == 0 then open else After(NodeDone(open).open, n - 1)
  }

  lemma {:induction false} AfterItems(open: seq<Frame>, n: nat)
    ensures After(open + [InSequence], n) == open + [InSequence]
  {
    if n > 0 {
      OneMore(open, InSequence);
      AfterItems(open, n - 1);
    }
  }

  lemma {:induction false} AfterPairs(open: seq<Frame>, pairs: seq<Pair>)
    ensures After(open + [AwaitKey], |FlatPairs(pairs)|) == open + [AwaitKey]
    decreases |pairs|
  {
    if pairs != [] {
      OneMore(open, AwaitKey);
      OneMore(open, AwaitValue);
      assert |FlatPairs(pairs)| == |FlatPairs(pairs[1..])| + 2;
      AfterPairs(open, pairs[1..]);
    }
  }

  lemma OneMore(open: seq<Frame>, top: Frame)
    ensures NodeDone(open + [top]) ==
      Within(open + [match top case InSequence => InSequence case AwaitKey => AwaitValue case AwaitValue => AwaitKey])
  {
    assert (open + [top])[..|open|] == open;
  }

  /** What is written for a node is one node, wherever it stands. */
  lemma {:induction false} NodeAccepted(doc: seq<DocNode>, ids: seq<nat>, i: nat, t: Tour, open: seq<Frame>)
    requires Closed(doc) && Within1(i, |doc|) && |ids| == |doc|
    ensures Run(Within(open), NodeText(doc, ids, i, t)) == NodeDone(open)
    decreases |Unvisited(doc, t)|, 0
  {
    if i in t.order {
      RunOne(Within(open), Alias(AnchorName(ids[i - 1])));
    } else {
      var n, t1 := doc[i - 1], Tour(t.order + [i], t.repeated);
      FirstVisit(doc, i, t, t1);
      assert ChildrenOk(doc, i - 1);
      var start, kids := StartEvent(n, AnchorOf(ids, i)), AllText(doc, ids, Children(n), t1);
      if !n.ScalarNode? {
        AllAccepted(doc, ids, Children(n), t1, Consume(Within(open), start).open);
      }
      StartAndEnd(open, n, start, kids);
    }
  }

  lemma RunOne(p: Progress, e: Event)
    ensures Run(p, [e]) == Consume(p, e)
  {
    assert Run(Consume(p, e), []) == Consume(p, e);
  }

  lemma StartAndEnd(open: seq<Frame>, n: DocNode, start: Event, kids: seq<Event>)
    requires start.Scalar? == n.ScalarNode? && start.SequenceStart? == n.SequenceNode?
      && start.MappingStart? == n.MappingNode?
    requires n.ScalarNode? ==> kids == []
    requires n.SequenceNode? ==> Run(Within(open + [InSequence]), kids) == Within(After(open + [InSequence], |n.items|))
    requires n.MappingNode? ==>
      Run(Within(open + [AwaitKey]), kids) == Within(After(open + [AwaitKey], |FlatPairs(n.pairs)|))
    ensures Run(Within(open), [start] + kids + EndEvents(n)) == NodeDone(open)
  {
    match n
    case ScalarNode(_, _) =>
      assert [start] + [] + [] == [start];
      RunOne(Within(open), start);
    case SequenceNode(_, items) =>
      AfterItems(open, |items|);
      Enclosed(open, InSequence, start, kids, SequenceEnd);
    case MappingNode(_, pairs) =>
      AfterPairs(open, pairs);
      Enclosed(open, AwaitKey, start, kids, MappingEnd);
  }

  lemma Enclosed(open: seq<Frame>, top: Frame, start: Event, kids: seq<Event>, e: Event)
    requires (top == InSequence && e == SequenceEnd && start.SequenceStart?)
          || (top == AwaitKey && e == MappingEnd && start.MappingStart?)
    requires Run(Within(open + [top]), kids) == Within(open + [top])
    ensures Run(Within(open), [start] + kids + [e]) == NodeDone(open)
  {
    RunConcat(Within(open), [start] + kids, [e]);
    RunConcat(Within(open), [start], kids);
    RunOne(Within(open), start);
    Ended(open, top, e);
  }

  lemma Ended(open: seq<Frame>, top: Frame, e: Event)
    requires (top == InSequence && e == SequenceEnd) || (top == AwaitKey && e == MappingEnd)
    ensures Run(Within(open + [top]), [e]) == NodeDone(open)
  {
    RunOne(Within(open + [top]), e);
    assert (open + [top])[..|open|] == open;
  }

  lemma {:induction false} AllAccepted(doc: seq<DocNode>, ids: seq<nat>, ks: seq<nat>, t: Tour, open: seq<Frame>)
    requires Closed(doc) && AllWithin(ks, |doc|) && |ids| == |doc| && open != []
    ensures Run(Within(open), AllText(doc, ids, ks, t)) == Within(After(open, |ks|))
    decreases |Unvisited(doc, t)|, 1 + |ks|
  {
    if ks != [] {
      var t1 := Visit(doc, ks[0], t);
      NoMoreUnvisited(doc, t, t1);
      NodeAccepted(doc, ids, ks[0], t, open);
      AllAccepted(doc, ids, ks[1..], t1, NodeDone(open).open);
      RunConcat(Within(open), NodeText(doc, ids, ks[0], t), AllText(doc, ids, ks[1..], t1));
    }
  }

  /** What is written for a whole document is one document. */
  lemma DocumentAccepted(doc: seq<DocNode>, ids: seq<nat>, startImplicit: bool, endImplicit: bool)
    requires Closed(doc) && doc != [] && |ids| == |doc|
    ensures Run(Between, [DocumentStart(startImplicit)] + NodeText(doc, ids, 1, Tour([], {}))
                + [DocumentEnd(endImplicit)]) == Between
  {
    var text := NodeText(doc, ids, 1, Tour([], {}));
    NodeAccepted(doc, ids, 1, Tour([], {}), []);
    RunOne(Between, DocumentStart(startImplicit));
    RunConcat(Between, [DocumentStart(startImplicit)], text);
    RunSnoc(Between, [DocumentStart(startImplicit)] + text, DocumentEnd(endImplicit));
  }
}

/** Loading what was dumped. */
module YamlDumpLoads {
  import opened Wrappers
  import opened YamlEvents
  import opened YamlComposer
  import opened YamlTour
  import opened YamlDump

  ghost predicate ParentOk(c: Composer)
  {
    c.open == [] || (Within1(c.open[|c.open| - 1], |c.nodes|) && !c.nodes[c.open[|c.open| - 1] - 1].ScalarNode?)
  }

  /** The loader has composed exactly the nodes of the tour. */
  ghost predicate InStep(doc: seq<DocNode>, ids: seq<nat>, t: Tour, c: Composer)
  {
    && Closed(doc) && |ids| == |doc| && IdsDistinct(ids) && Distinct(t.order) && AllIn(t.order, |doc|)
    && |c.nodes| == |t.order| && AliasesMatch(ids, t.order, c.aliases) && ParentOk(c)
  }

  /** The nodes after one more child of the innermost open collection. */
  ghost function Grown(c: Composer, i: nat): (r: seq<DocNode>)
    requires ParentOk(c)
    ensures |r| == |c.nodes|
  {
    if c.open == [] then c.nodes
    else
      var p := c.open[|c.open| - 1] - 1;
      c.nodes[p := WithChild(c.nodes[p], i)]
  }

  ghost predicate NodeLoaded(doc: seq<DocNode>, ids: seq<nat>, t: Tour, c: Composer, i: nat, r: Tour, out: Composed)
    requires InStep(doc, ids, t, c) && t.order <= r.order
  {
    && out.Composed? && out.c.open == c.open && AllIn(r.order, |doc|) && AliasesMatch(ids, r.order, out.c.aliases)
    && out.c.nodes == Grown(c, Index(r.order, i)) + Images(doc, r.order, |t.order|)
  }

  ghost predicate AllLoaded(doc: seq<DocNode>, ids: seq<nat>, t: Tour, c: Composer, ks: seq<nat>, r: Tour,
                            out: Composed)
    requires InStep(doc, ids, t, c) && c.open != [] && t.order <= r.order
  {
    && out.Composed? && out.c.open == c.open && AllIn(r.order, |doc|) && AliasesMatch(ids, r.order, out.c.aliases)
    && (var p := c.open[|c.open| - 1] - 1;
        out.c.nodes == c.nodes[p := Fill(c.nodes[p], Indices(r.order, ks))] + Images(doc, r.order, |t.order|))
  }

  lemma OneEvent(c: Composer, e: Event)
    ensures LoadAll(c, [e]) == LoadEvent(c, e)
  {
    LoadSnoc(c, [], e);
    assert [] + [e] == [e];
  }

  /** A second visit: the alias finds the anchor that the first visit registered. */
  lemma AliasLoads(doc: seq<DocNode>, ids: seq<nat>, i: nat, t: Tour, c: Composer)
    requires InStep(doc, ids, t, c) && Within1(i, |doc|) && i in t.order && ids[i - 1] != 0
    ensures NodeLoaded(doc, ids, t, c, i, Visit(doc, i, t), LoadAll(c, NodeText(doc, ids, i, t)))
  {
    OneEvent(c, Alias(AnchorName(ids[i - 1])));
    assert AliasMatches(ids, t.order, c.aliases, i);
    assert Images(doc, t.order, |t.order|) == [];
  }

  /** A first visit: the node is pushed and its anchor registered. */
  lemma StartLoads(doc: seq<DocNode>, ids: seq<nat>, i: nat, t: Tour, c: Composer)
    requires InStep(doc, ids, t, c) && Within1(i, |doc|) && i !in t.order
    ensures var out := LoadEvent(c, StartEvent(doc[i - 1], AnchorOf(ids, i)));
      && out.Composed? && out.c.nodes == Grown(c, |t.order| + 1) + [Blank(doc[i - 1])]
      && out.c.open == (if doc[i - 1].ScalarNode? then c.open else c.open + [|t.order| + 1])
      && AliasesMatch(ids, t.order + [i], out.c.aliases)
  {
    AliasesGrow(ids, t.order, c.aliases, i);
    assert AliasMatches(ids, t.order, c.aliases, i);
    PushGrows(c, Blank(doc[i - 1]), AnchorOf(ids, i));
  }

  lemma PushGrows(c: Composer, n: DocNode, anchor: Option<string>)
    requires ParentOk(c) && (anchor.Some? ==> !Registered(c.aliases, anchor.value))
    ensures var i := |c.nodes| + 1;
      NodePush(c, n, anchor)
        == Composed(Composer(Grown(c, i) + [n], c.aliases + (if anchor.None? then [] else [AliasData(anchor.value, i)]),
                             c.open))
  {
    assert c.aliases + [] == c.aliases;
    if c.open != [] {
      var p := c.open[|c.open| - 1] - 1;
      assert (c.nodes + [n])[p] == c.nodes[p];
      assert (c.nodes + [n])[p := WithChild(c.nodes[p], |c.nodes| + 1)] == Grown(c, |c.nodes| + 1) + [n];
    }
  }

  lemma {:induction false} NodeLoads(doc: seq<DocNode>, ids: seq<nat>, i: nat, t: Tour, c: Composer)
    requires InStep(doc, ids, t, c) && Within1(i, |doc|) && Anchored(ids, Visit(doc, i, t).repeated)
    ensures NodeLoaded(doc, ids, t, c, i, Visit(doc, i, t), LoadAll(c, NodeText(doc, ids, i, t)))
    decreases |Unvisited(doc, t)|, 0
  {
    if i in t.order {
      AliasLoads(doc, ids, i, t, c);
    } else {
      var t1 := Tour(t.order + [i], t.repeated);
      FirstVisit(doc, i, t, t1);
      assert ChildrenOk(doc, i - 1);
      StartLoads(doc, ids, i, t, c);
      if doc[i - 1].ScalarNode? {
        ScalarLoads(doc, ids, i, t, c);
      } else {
        var c1 := LoadEvent(c, StartEvent(doc[i - 1], AnchorOf(ids, i))).c;
        AllLoads(doc, ids, Children(doc[i - 1]), t1, c1);
        CollectionLoads(doc, ids, i, t, c, t1, c1);
      }
    }
  }

  lemma ScalarLoads(doc: seq<DocNode>, ids: seq<nat>, i: nat, t: Tour, c: Composer)
    requires InStep(doc, ids, t, c) && Within1(i, |doc|) && i !in t.order && doc[i - 1].ScalarNode?
    ensures NodeLoaded(doc, ids, t, c, i, Visit(doc, i, t), LoadAll(c, NodeText(doc, ids, i, t)))
  {
    var e := StartEvent(doc[i - 1], AnchorOf(ids, i));
    StartLoads(doc, ids, i, t, c);
    OneEvent(c, e);
    assert NodeText(doc, ids, i, t) == [e];
    var order := t.order + [i];
    assert Visit(doc, i, t).order == order;
    IndexOfNew(t.order, i);
    assert Images(doc, order, |t.order|) == [Image(doc, order, i)];
    assert Indices(order, []) == [];
  }

  /** The children have been loaded: the end of the collection completes its image. */
  lemma CollectionLoads(doc: seq<DocNode>, ids: seq<nat>, i: nat, t: Tour, c: Composer, t1: Tour, c1: Composer)
    requires InStep(doc, ids, t, c) && Within1(i, |doc|) && i !in t.order && !doc[i - 1].ScalarNode?
    requires AllWithin(Children(doc[i - 1]), |doc|)
    requires t1 == Tour(t.order + [i], t.repeated) && InStep(doc, ids, t1, c1)
    requires LoadEvent(c, StartEvent(doc[i - 1], AnchorOf(ids, i))) == Composed(c1)
    requires c1.nodes == Grown(c, |t.order| + 1) + [Blank(doc[i - 1])] && c1.open == c.open + [|t.order| + 1]
    requires AllLoaded(doc, ids, t1, c1, Children(doc[i - 1]), VisitAll(doc, Children(doc[i - 1]), t1),
                       LoadAll(c1, AllText(doc, ids, Children(doc[i - 1]), t1)))
    ensures NodeLoaded(doc, ids, t, c, i, Visit(doc, i, t), LoadAll(c, NodeText(doc, ids, i, t)))
  {
    var n, kids := doc[i - 1], Children(doc[i - 1]);
    var inner, end := AllText(doc, ids, kids, t1), EndEvents(n);
    var r, c2 := VisitAll(doc, kids, t1), LoadAll(c1, inner).c;
    CollectionRuns(c, StartEvent(n, AnchorOf(ids, i)), inner, end[0]);
    var image := Fill(Blank(n), Indices(r.order, kids));
    ImageInPlace(Grown(c, |t.order| + 1), Blank(n), image, Images(doc, r.order, |t.order| + 1));
    EndLoads(c2, c.open, |t.order| + 1, n, image);
    NewImage(doc, t.order, r.order, i);
  }

  lemma CollectionRuns(c: Composer, start: Event, inner: seq<Event>, end: Event)
    requires LoadEvent(c, start).Composed? && LoadAll(LoadEvent(c, start).c, inner).Composed?
    ensures LoadAll(c, [start] + inner + [end]) == LoadEvent(LoadAll(LoadEvent(c, start).c, inner).c, end)
  {
    OneEvent(c, start);
    LoadConcat(c, [start], inner);
    LoadSnoc(c, [start] + inner, end);
  }

  lemma ImageInPlace(before: seq<DocNode>, blank: DocNode, image: DocNode, after: seq<DocNode>)
    ensures (before + [blank])[|before| := image] + after == before + ([image] + after)
  {
  }

  lemma EndLoads(c: Composer, open: seq<nat>, i: nat, n: DocNode, image: DocNode)
    requires c.open == open + [i] && Within1(i, |c.nodes|) && c.nodes[i - 1] == image && !n.ScalarNode?
    requires image.ScalarNode? == n.ScalarNode? && image.SequenceNode? == n.SequenceNode?
    ensures LoadEvent(c, EndEvents(n)[0]) == Composed(c.(open := open))
  {
    assert c.open[..|c.open| - 1] == open;
  }

  lemma NewImage(doc: seq<DocNode>, order: seq<nat>, order': seq<nat>, i: nat)
    requires i !in order && order + [i] <= order' && AllIn(order', |doc|)
    ensures Index(order', i) == |order| + 1 && order'[|order|] == i && Within1(i, |doc|)
    ensures [Image(doc, order', i)] + Images(doc, order', |order| + 1) == Images(doc, order', |order|)
  {
    assert order'[|order|] == (order + [i])[|order|];
    IndexOfNew(order, i);
    IndexStays(order + [i], order', i);
    ImagesStep(doc, order', |order|);
  }

  lemma ImagesStep(doc: seq<DocNode>, order: seq<nat>, m: nat)
    requires AllIn(order, |doc|) && m < |order|
    ensures [Image(doc, order, order[m])] + Images(doc, order, m + 1) == Images(doc, order, m)
  {
    var left, more, right := [Image(doc, order, order[m])], Images(doc, order, m + 1), Images(doc, order, m);
    ImagesAt(doc, order, m, 0);
    forall k | 0 <= k < |more| ensures more[k] == right[1 + k] {
      ImagesShift(doc, order, m, k);
    }
    JoinNodes(left, more, right);
  }

  lemma ImagesShift(doc: seq<DocNode>, order: seq<nat>, m: nat, k: nat)
    requires AllIn(order, |doc|) && m + 1 + k < |order|
    ensures Images(doc, order, m + 1)[k] == Images(doc, order, m)[1 + k]
  {
    ImagesAt(doc, order, m + 1, k);
    ImagesAt(doc, order, m, 1 + k);
  }

  lemma {:induction false} AllLoads(doc: seq<DocNode>, ids: seq<nat>, ks: seq<nat>, t: Tour, c: Composer)
    requires InStep(doc, ids, t, c) && AllWithin(ks, |doc|) && Anchored(ids, VisitAll(doc, ks, t).repeated)
    requires c.open != []
    ensures AllLoaded(doc, ids, t, c, ks, VisitAll(doc, ks, t), LoadAll(c, AllText(doc, ids, ks, t)))
    decreases |Unvisited(doc, t)|, 1 + |ks|
  {
    var p := c.open[|c.open| - 1] - 1;
    if ks == [] {
      assert Images(doc, t.order, |t.order|) == [] && Indices(t.order, ks) == [];
    } else {
      var t1 := Visit(doc, ks[0], t);
      NoMoreUnvisited(doc, t, t1);
      VisitOrder(doc, ks[0], t);
      NodeLoads(doc, ids, ks[0], t, c);
      var c1 := LoadAll(c, NodeText(doc, ids, ks[0], t)).c;
      assert c1.nodes[p] == WithChild(c.nodes[p], Index(t1.order, ks[0]));
      AllLoads(doc, ids, ks[1..], t1, c1);
      LoadConcat(c, NodeText(doc, ids, ks[0], t), AllText(doc, ids, ks[1..], t1));
      AllLoadedJoin(doc, ids, ks, t, c, t1, c1, VisitAll(doc, ks, t), LoadAll(c, AllText(doc, ids, ks, t)));
    }
  }

  lemma AllLoadedJoin(doc: seq<DocNode>, ids: seq<nat>, ks: seq<nat>, t: Tour, c: Composer, t1: Tour, c1: Composer,
                      r: Tour, out: Composed)
    requires InStep(doc, ids, t, c) && c.open != [] && InStep(doc, ids, t1, c1) && t.order <= t1.order <= r.order
      && ks != []
    requires ks[0] in t1.order && DoneSince(doc, t1.order, |t.order|)
    requires NodeLoaded(doc, ids, t, c, ks[0], t1, Composed(c1)) && AllLoaded(doc, ids, t1, c1, ks[1..], r, out)
    ensures AllLoaded(doc, ids, t, c, ks, r, out)
  {
    var p := c.open[|c.open| - 1] - 1;
    var first, others := Index(t1.order, ks[0]), Indices(r.order, ks[1..]);
    IndexStays(t1.order, r.order, ks[0]);
    assert Indices(r.order, ks) == [first] + others;
    var filled := Fill(c.nodes[p], [first] + others);
    assert ([first] + others)[1..] == others;
    assert c1.nodes == c.nodes[p := WithChild(c.nodes[p], first)] + Images(doc, t1.order, |t.order|);
    assert c1.nodes[p := filled] == c.nodes[p := filled] + Images(doc, t1.order, |t.order|);
    ImagesJoin(doc, t1.order, r.order, |t.order|);
  }

  // The statement of the round trip.

  /** The loaded node is the same node, its children at the positions that the order gives them. */
  ghost predicate SameNode(n: DocNode, m: DocNode, order: seq<nat>)
  {
    match n
    case ScalarNode(tag, value) => m == ScalarNode(LoadedTag(Some(tag), ScalarKind), value)
    case SequenceNode(tag, items) =>
      m.SequenceNode? && m.tag == LoadedTag(Some(tag), SequenceKind) && SameItems(items, m.items, order)
    case MappingNode(tag, pairs) =>
      m.MappingNode? && m.tag == LoadedTag(Some(tag), MappingKind) && SamePairs(pairs, m.pairs, order)
  }

  /** The loaded index is the position of the node in the order. */
  ghost predicate Linked(i: nat, loaded: nat, order: seq<nat>)
  {
    Within1(loaded, |order|) && order[loaded - 1] == i
  }

  ghost predicate SameItems(items: seq<nat>, loaded: seq<nat>, order: seq<nat>)
  {
    |loaded| == |items| && forall k :: 0 <= k < |items| ==> Linked(items[k], loaded[k], order)
  }

  ghost predicate SamePairs(pairs: seq<Pair>, loaded: seq<Pair>, order: seq<nat>)
  {
    && |loaded| == |pairs|
    && forall k ::
       0 <= k < |pairs| ==> Linked(pairs[k].key, loaded[k].key, order) && Linked(pairs[k].value, loaded[k].value, order)
  }

  /** The loaded nodes are the reachable nodes of the document, each once, the root first, linked in the same way. */
  ghost predicate Isomorphic(doc: seq<DocNode>, loaded: seq<DocNode>, order: seq<nat>)
  {
    && |loaded| == |order| && Distinct(order) && order != [] && order[0] == 1 && AllIn(order, |doc|)
    && (forall k {:trigger loaded[k]} :: 0 <= k < |order| ==> SameNode(doc[order[k] - 1], loaded[k], order))
    && (forall s :: 1 in s && ClosedSet(doc, s) ==> Inside(order, s))
  }

  lemma {:induction false} FillSequence(n: DocNode, ks: seq<nat>)
    requires n.SequenceNode?
    ensures Fill(n, ks) == n.(items := n.items + ks)
    decreases |ks|
  {
    if ks == [] {
      assert n.items + ks == n.items;
    } else {
      FillSequence(WithChild(n, ks[0]), ks[1..]);
      assert n.items + [ks[0]] + ks[1..] == n.items + ks;
    }
  }

  ghost function MappedPairs(order: seq<nat>, pairs: seq<Pair>): (r: seq<Pair>)
    ensures |r| == |pairs|
    ensures forall k :: 0 <= k < |pairs| ==> r[k] == Pair(Index(order, pairs[k].key), Index(order, pairs[k].value))
  {
    seq(|pairs|, k requires 0 <= k < |pairs| => Pair(Index(order, pairs[k].key), Index(order, pairs[k].value)))
  }

  /** Keys and values arrive alternately and are paired up again. */
  lemma {:induction false} FillMapping(n: DocNode, order: seq<nat>, pairs: seq<Pair>)
    requires n.MappingNode? && !Incomplete(n)
    requires forall k :: 0 <= k < |pairs| ==> pairs[k].key in order && pairs[k].value in order
    ensures Fill(n, Indices(order, FlatPairs(pairs))) == n.(pairs := n.pairs + MappedPairs(order, pairs))
    decreases |pairs|
  {
    if pairs == [] {
      assert n.pairs + MappedPairs(order, pairs) == n.pairs;
      assert Indices(order, FlatPairs(pairs)) == [];
    } else {
      var key, value := Index(order, pairs[0].key), Index(order, pairs[0].value);
      IndexFinds(order, pairs[0].key);
      IndexFinds(order, pairs[0].value);
      var others := Indices(order, FlatPairs(pairs[1..]));
      var n2 := n.(pairs := n.pairs + [Pair(key, value)]);
      TwoChildren(n, key, value);
      FillTwo(n, key, value, others);
      FillMapping(n2, order, pairs[1..]);
      FirstPair(n.pairs, order, pairs);
    }
  }

  lemma FirstPair(before: seq<Pair>, order: seq<nat>, pairs: seq<Pair>)
    requires pairs != []
    ensures var key, value := Index(order, pairs[0].key), Index(order, pairs[0].value);
      && Indices(order, FlatPairs(pairs)) == [key] + ([value] + Indices(order, FlatPairs(pairs[1..])))
      && before + [Pair(key, value)] + MappedPairs(order, pairs[1..]) == before + MappedPairs(order, pairs)
  {
    FirstIndices(order, pairs);
    FirstMapped(order, pairs);
    RegroupPairs(before, [Pair(Index(order, pairs[0].key), Index(order, pairs[0].value))],
                 MappedPairs(order, pairs[1..]));
  }

  lemma FirstIndices(order: seq<nat>, pairs: seq<Pair>)
    requires pairs != []
    ensures Indices(order, FlatPairs(pairs))
         == [Index(order, pairs[0].key)] + ([Index(order, pairs[0].value)] + Indices(order, FlatPairs(pairs[1..])))
  {
    var flat := FlatPairs(pairs[1..]);
    JoinNodes([Index(order, pairs[0].key)], [Index(order, pairs[0].value)] + Indices(order, flat),
              Indices(order, FlatPairs(pairs)));
  }

  lemma FirstMapped(order: seq<nat>, pairs: seq<Pair>)
    requires pairs != []
    ensures [Pair(Index(order, pairs[0].key), Index(order, pairs[0].value))] + MappedPairs(order, pairs[1..])
      == MappedPairs(order, pairs)
  {
    JoinNodes([Pair(Index(order, pairs[0].key), Index(order, pairs[0].value))], MappedPairs(order, pairs[1..]),
              MappedPairs(order, pairs));
  }

  lemma RegroupPairs(a: seq<Pair>, b: seq<Pair>, c: seq<Pair>)
    ensures a + b + c == a + (b + c)
  {
  }

  lemma TwoChildren(n: DocNode, key: nat, value: nat)
    requires n.MappingNode? && !Incomplete(n) && key != 0 && value != 0
    ensures WithChild(WithChild(n, key), value) == n.(pairs := n.pairs + [Pair(key, value)])
  {
    var n1 := n.(pairs := n.pairs + [Pair(key, 0)]);
    assert n1.pairs[|n1.pairs| - 1 := Pair(key, value)] == n.pairs + [Pair(key, value)];
  }

  lemma FillTwo(n: DocNode, a: nat, b: nat, others: seq<nat>)
    requires n.MappingNode?
    ensures Fill(n, [a] + ([b] + others)) == Fill(WithChild(WithChild(n, a), b), others)
  {
    assert ([a] + ([b] + others))[1..] == [b] + others;
    assert ([b] + others)[1..] == others;
  }

  lemma {:induction false} FlatCovers(order: seq<nat>, pairs: seq<Pair>)
    requires Covers(order, FlatPairs(pairs))
    ensures forall k :: 0 <= k < |pairs| ==> pairs[k].key in order && pairs[k].value in order
    decreases |pairs|
  {
    if pairs != [] {
      var flat := FlatPairs(pairs);
      assert flat[0] in order && flat[1] in order;
      assert flat[2..] == FlatPairs(pairs[1..]);
      forall k | 0 <= k < |flat[2..]| ensures flat[2..][k] in order {
        assert flat[k + 2] in order;
      }
      FlatCovers(order, pairs[1..]);
      forall k | 0 <= k < |pairs| ensures pairs[k].key in order && pairs[k].value in order {
        if k > 0 {
          assert pairs[k] == pairs[1..][k - 1];
        }
      }
    }
  }

  lemma ImageIsSame(doc: seq<DocNode>, order: seq<nat>, i: nat)
    requires Within1(i, |doc|) && Covers(order, Children(doc[i - 1]))
    ensures SameNode(doc[i - 1], Image(doc, order, i), order)
  {
    var n := doc[i - 1];
    match n
    case ScalarNode(_, _) =>
    case SequenceNode(tag, items) =>
      SequenceLinks(LoadedTag(Some(tag), SequenceKind), items, order);
    case MappingNode(tag, pairs) =>
      MappingLinks(LoadedTag(Some(tag), MappingKind), pairs, order);
  }

  lemma SequenceLinks(tag: string, items: seq<nat>, order: seq<nat>)
    requires Covers(order, items)
    ensures var m := Fill(SequenceNode(tag, []), Indices(order, items));
      m.SequenceNode? && m.tag == tag && SameItems(items, m.items, order)
  {
    FillSequence(SequenceNode(tag, []), Indices(order, items));
    assert [] + Indices(order, items) == Indices(order, items);
    forall k | 0 <= k < |items| ensures Linked(items[k], Indices(order, items)[k], order) {
      IndexFinds(order, items[k]);
    }
  }

  lemma MappingLinks(tag: string, pairs: seq<Pair>, order: seq<nat>)
    requires Covers(order, FlatPairs(pairs))
    ensures var m := Fill(MappingNode(tag, []), Indices(order, FlatPairs(pairs)));
      m.MappingNode? && m.tag == tag && SamePairs(pairs, m.pairs, order)
  {
    FlatCovers(order, pairs);
    FillMapping(MappingNode(tag, []), order, pairs);
    assert [] + MappedPairs(order, pairs) == MappedPairs(order, pairs);
    forall k | 0 <= k < |pairs|
      ensures Linked(pairs[k].key, MappedPairs(order, pairs)[k].key, order)
        && Linked(pairs[k].value, MappedPairs(order, pairs)[k].value, order)
    {
      IndexFinds(order, pairs[k].key);
      IndexFinds(order, pairs[k].value);
    }
  }

  /** Loading what the dumper writes rebuilds the part of the document that can be reached from the root, sharing and
      cycles included, provided that every node visited twice has an anchor of its own. */
  lemma DumpThenLoad(doc: seq<DocNode>, ids: seq<nat>)
    requires Closed(doc) && doc != [] && |ids| == |doc| && IdsDistinct(ids) && Anchored(ids, Whole(doc).repeated)
    ensures var out := LoadAll(Composer([], [], []), NodeText(doc, ids, 1, Tour([], {})));
      out.Composed? && out.c.open == [] && Isomorphic(doc, out.c.nodes, Whole(doc).order)
  {
    NothingInStep(doc, ids, Tour([], {}), Composer([], [], []));
    NodeLoads(doc, ids, 1, Tour([], {}), Composer([], [], []));
    ImagesAreIsomorphic(doc);
    assert LoadAll(Composer([], [], []), NodeText(doc, ids, 1, Tour([], {}))).c.nodes
      == Images(doc, Whole(doc).order, 0);
  }

  lemma NothingInStep(doc: seq<DocNode>, ids: seq<nat>, t: Tour, c: Composer)
    requires Closed(doc) && |ids| == |doc| && IdsDistinct(ids) && t.order == [] && c.nodes == [] && c.aliases == []
      && c.open == []
    ensures InStep(doc, ids, t, c)
  {
    forall i {:trigger AliasMatches(ids, t.order, c.aliases, i)} | 1 <= i <= |ids|
      ensures AliasMatches(ids, t.order, c.aliases, i)
    {
    }
  }

  lemma ImagesAreIsomorphic(doc: seq<DocNode>)
    requires Closed(doc) && doc != []
    ensures AllIn(Whole(doc).order, |doc|) && Isomorphic(doc, Images(doc, Whole(doc).order, 0), Whole(doc).order)
  {
    WalkReachesExactly(doc);
    SameNodes(doc, Whole(doc).order);
  }

  lemma SameNodes(doc: seq<DocNode>, order: seq<nat>)
    requires AllIn(order, |doc|) && DoneSince(doc, order, 0)
    ensures forall k {:trigger Images(doc, order, 0)[k]} ::
      0 <= k < |order| ==> SameNode(doc[order[k] - 1], Images(doc, order, 0)[k], order)
  {
    forall k {:trigger Images(doc, order, 0)[k]} | 0 <= k < |order|
      ensures SameNode(doc[order[k] - 1], Images(doc, order, 0)[k], order)
    {
      assert Done(doc, order, k);
      ImageIsSame(doc, order, order[k]);
      ImagesAt(doc, order, 0, k);
    }
  }

  /** Tags survive unless they are "!", which the loader replaces by the default of the kind. */
  lemma TagsSurvive(doc: seq<DocNode>, loaded: seq<DocNode>, order: seq<nat>, k: nat)
    requires Isomorphic(doc, loaded, order) && k < |order|
    ensures loaded[k].tag == doc[order[k] - 1].tag
      <==> doc[order[k] - 1].tag != "!"
  {
    assert SameNode(doc[order[k] - 1], loaded[k], order);
  }
}

/** The dumper: two walks over a document (dumper.c). */
module YamlDumper {
  import opened Wrappers
  import opened YamlEvents
  import opened YamlComposer
  import opened YamlTour
  import opened YamlDump
  import opened YamlDumpLoads

  datatype Anchor = Anchor(references: nat, anchor: nat, serialized: bool)

  function Ids(marks: seq<Anchor>): (r: seq<nat>)
    ensures |r| == |marks| && forall k :: 0 <= k < |marks| ==> r[k] == marks[k].anchor
  {
    seq(|marks|, k requires 0 <= k < |marks| => marks[k].anchor)
  }

  /** After a part of the first walk a node has been counted as often as it was met, up to two. */
  ghost predicate CountedAt(marks: seq<Anchor>, k: nat, t: Tour, last: nat)
    requires k < |marks|
  {
    var a, i := marks[k], k + 1;
    && !a.serialized && a.anchor <= last
    && (a.references > 0 <==> i in t.order) && (a.references > 1 <==> i in t.repeated)
    && (a.anchor != 0 <==> i in t.repeated)
  }

  ghost predicate Counted(marks: seq<Anchor>, t: Tour, last: nat)
  {
    && (forall k {:trigger CountedAt(marks, k, t, last)} :: 0 <= k < |marks| ==> CountedAt(marks, k, t, last))
    && (forall i :: i in t.repeated ==> Within1(i, |marks|))
    && IdsDistinct(Ids(marks))
  }

  ghost predicate SerializedAt(marks: seq<Anchor>, k: nat, t: Tour)
    requires k < |marks|
  {
    marks[k].serialized <==> k + 1 in t.order
  }

  ghost predicate Serialized(marks: seq<Anchor>, t: Tour)
  {
    forall k {:trigger SerializedAt(marks, k, t)} :: 0 <= k < |marks| ==> SerializedAt(marks, k, t)
  }

  lemma CountFirst(marks: seq<Anchor>, t: Tour, last: nat, i: nat, marks': seq<Anchor>, t1: Tour)
    requires Counted(marks, t, last) && Within1(i, |marks|) && i !in t.order && t1 == Tour(t.order + [i], t.repeated)
    requires marks' == marks[i - 1 := marks[i - 1].(references := marks[i - 1].references + 1)]
    ensures marks[i - 1].references == 0 && Counted(marks', t1, last)
  {
    assert CountedAt(marks, i - 1, t, last);
    forall k {:trigger CountedAt(marks', k, t1, last)} | 0 <= k < |marks'| ensures CountedAt(marks', k, t1, last) {
      assert CountedAt(marks, k, t, last);
    }
    assert Ids(marks') == Ids(marks);
  }

  lemma CountAgain(marks: seq<Anchor>, t: Tour, last: nat, i: nat, marks': seq<Anchor>, last': nat)
    requires Counted(marks, t, last) && Within1(i, |marks|) && i in t.order
    requires var a := marks[i - 1];
      if a.references == 1 then
        last' == last + 1 && marks' == marks[i - 1 := a.(references := a.references + 1, anchor := last')]
      else last' == last && marks' == marks[i - 1 := a.(references := a.references + 1)]
    ensures marks[i - 1].references > 0 && Counted(marks', Tour(t.order, t.repeated + {i}), last')
  {
    var t' := Tour(t.order, t.repeated + {i});
    assert CountedAt(marks, i - 1, t, last);
    forall k {:trigger CountedAt(marks', k, t', last')} | 0 <= k < |marks'| ensures CountedAt(marks', k, t', last') {
      assert CountedAt(marks, k, t, last);
    }
    if marks[i - 1].references == 1 {
      FreshId(marks, t, last, i, marks');
    } else {
      assert Ids(marks') == Ids(marks);
    }
  }

  lemma FreshId(marks: seq<Anchor>, t: Tour, last: nat, i: nat, marks': seq<Anchor>)
    requires Counted(marks, t, last) && Within1(i, |marks|)
    requires |marks'| == |marks| && marks'[i - 1].anchor == last + 1 && forall k ::
      0 <= k < |marks| && k != i - 1 ==> marks'[k].anchor == marks[k].anchor
    ensures IdsDistinct(Ids(marks'))
  {
    var ids, ids' := Ids(marks), Ids(marks');
    forall j, k | 0 <= j < k < |ids'| && ids'[j] != 0 ensures ids'[j] != ids'[k] {
      assert CountedAt(marks, j, t, last) && CountedAt(marks, k, t, last);
      assert ids[j] != 0 ==> ids[j] != ids[k];
    }
  }

  lemma SerializeFirst(marks: seq<Anchor>, t: Tour, i: nat, marks': seq<Anchor>, t1: Tour)
    requires Serialized(marks, t) && Within1(i, |marks|) && i !in t.order && t1 == Tour(t.order + [i], t.repeated)
    requires marks' == marks[i - 1 := marks[i - 1].(serialized := true)]
    ensures Serialized(marks', t1) && Ids(marks') == Ids(marks)
  {
    forall k {:trigger SerializedAt(marks', k, t1)} | 0 <= k < |marks'| ensures SerializedAt(marks', k, t1) {
      assert SerializedAt(marks, k, t);
    }
  }

  lemma SerializedStays(marks: seq<Anchor>, t: Tour, t': Tour)
    requires Serialized(marks, t) && t'.order == t.order
    ensures Serialized(marks, t')
  {
    forall k {:trigger SerializedAt(marks, k, t')} | 0 <= k < |marks| ensures SerializedAt(marks, k, t') {
      assert SerializedAt(marks, k, t);
    }
  }

  lemma StartCounting(marks: seq<Anchor>)
    requires forall k :: 0 <= k < |marks| ==> marks[k] == Anchor(0, 0, false)
    ensures Counted(marks, Tour([], {}), 0)
  {
    forall k {:trigger CountedAt(marks, k, Tour([], {}), 0)} | 0 <= k < |marks|
      ensures CountedAt(marks, k, Tour([], {}), 0)
    {
    }
  }

  lemma StartWriting(marks: seq<Anchor>, t: Tour, last: nat)
    requires Counted(marks, t, last)
    ensures Serialized(marks, Tour([], {})) && Anchored(Ids(marks), t.repeated)
  {
    forall k {:trigger SerializedAt(marks, k, Tour([], {}))} | 0 <= k < |marks|
      ensures SerializedAt(marks, k, Tour([], {}))
    {
      assert CountedAt(marks, k, t, last);
    }
    forall i | i in t.repeated ensures Within1(i, |Ids(marks)|) && Ids(marks)[i - 1] != 0 {
      assert CountedAt(marks, i - 1, t, last);
    }
  }

  /** A loop over the children takes one step. */
  lemma VisitStep(doc: seq<DocNode>, ks: seq<nat>, t: Tour)
    requires Closed(doc) && AllWithin(ks, |doc|) && ks != []
    ensures VisitAll(doc, ks, t) == VisitAll(doc, ks[1..], Visit(doc, ks[0], t))
    ensures |Unvisited(doc, Visit(doc, ks[0], t))| <= |Unvisited(doc, t)|
  {
    NoMoreUnvisited(doc, t, Visit(doc, ks[0], t));
  }

  function Unless(already: bool, e: Event): seq<Event>
  {
    if already then [] else [e]
  }

  lemma TextStep(doc: seq<DocNode>, ids: seq<nat>, ks: seq<nat>, t: Tour, before: seq<Event>)
    requires Closed(doc) && AllWithin(ks, |doc|) && |ids| == |doc| && ks != []
    ensures before + NodeText(doc, ids, ks[0], t) + AllText(doc, ids, ks[1..], Visit(doc, ks[0], t))
      == before + AllText(doc, ids, ks, t)
  {
    AllTextStep(doc, ids, ks, t);
    Regroup(before, NodeText(doc, ids, ks[0], t), AllText(doc, ids, ks[1..], Visit(doc, ks[0], t)));
  }

  lemma AllTextStep(doc: seq<DocNode>, ids: seq<nat>, ks: seq<nat>, t: Tour)
    requires Closed(doc) && AllWithin(ks, |doc|) && |ids| == |doc| && ks != []
    ensures AllText(doc, ids, ks, t) == NodeText(doc, ids, ks[0], t) + AllText(doc, ids, ks[1..], Visit(doc, ks[0], t))
  {
  }

  lemma Regroup(a: seq<Event>, b: seq<Event>, c: seq<Event>)
    ensures a + b + c == a + (b + c)
  {
  }

  lemma NodeTextStep(doc: seq<DocNode>, ids: seq<nat>, i: nat, t: Tour, t1: Tour, before: seq<Event>)
    requires Closed(doc) && Within1(i, |doc|) && |ids| == |doc| && i !in t.order
      && t1 == Tour(t.order + [i], t.repeated)
    requires AllWithin(Children(doc[i - 1]), |doc|)
    ensures before + [StartEvent(doc[i - 1], AnchorOf(ids, i))] + AllText(doc, ids, Children(doc[i - 1]), t1)
      + EndEvents(doc[i - 1])
         == before + NodeText(doc, ids, i, t)
    ensures Visit(doc, i, t) == VisitAll(doc, Children(doc[i - 1]), t1)
  {
  }

  class Dumper {
    var isOpen: bool
    var isClosed: bool
    var anchors: array<Anchor>
    var lastAnchorId: nat
    var events: seq<Event>  // what has been given to the emitter

    constructor ()
      ensures !isOpen && !isClosed && lastAnchorId == 0 && events == []
    {
      isOpen, isClosed, lastAnchorId, events := false, false, 0, [];
      anchors := new Anchor[0];
    }

    method Emit(e: Event)
      modifies this`events
      ensures events == old(events) + [e]
    {
      events := events + [e];
    }

    /** The first walk: counts the visits and gives an id to each node met a second time. */
    method AnchorNode(doc: seq<DocNode>, i: nat, ghost t: Tour)
      requires Closed(doc) && Within1(i, |doc|) && anchors.Length == |doc| && Counted(anchors[..], t, lastAnchorId)
      modifies anchors, this`lastAnchorId
      ensures Counted(anchors[..], Visit(doc, i, t), lastAnchorId)
      decreases |Unvisited(doc, t)|, 0
    {
      ghost var before, last := anchors[..], lastAnchorId;
      var a := anchors[i - 1];
      anchors[i - 1] := a.(references := a.references + 1);
      if anchors[i - 1].references == 1 {
        ghost var t1 := Tour(t.order + [i], t.repeated);
        assert i !in t.order by {
          assert CountedAt(before, i - 1, t, last);
        }
        CountFirst(before, t, last, i, anchors[..], t1);
        FirstVisit(doc, i, t, t1);
        assert ChildrenOk(doc, i - 1);
        AnchorChildren(doc, doc[i - 1], t1);
      } else {
        assert i in t.order by {
          assert CountedAt(before, i - 1, t, last);
        }
        if anchors[i - 1].references == 2 {
          lastAnchorId := lastAnchorId + 1;
          anchors[i - 1] := anchors[i - 1].(anchor := lastAnchorId);
        }
        CountAgain(before, t, last, i, anchors[..], lastAnchorId);
      }
    }

    method AnchorChildren(doc: seq<DocNode>, n: DocNode, ghost t: Tour)
      requires Closed(doc) && AllWithin(Children(n), |doc|) && anchors.Length == |doc|
        && Counted(anchors[..], t, lastAnchorId)
      modifies anchors, this`lastAnchorId
      ensures Counted(anchors[..], VisitAll(doc, Children(n), t), lastAnchorId)
      decreases |Unvisited(doc, t)|, 4
    {
      match n
      case ScalarNode(_, _) =>
      case SequenceNode(_, items) => AnchorItems(doc, items, t);
      case MappingNode(_, pairs) => AnchorPairs(doc, pairs, t);
    }

    method AnchorItems(doc: seq<DocNode>, items: seq<nat>, ghost t: Tour)
      requires Closed(doc) && AllWithin(items, |doc|) && anchors.Length == |doc|
        && Counted(anchors[..], t, lastAnchorId)
      modifies anchors, this`lastAnchorId
      ensures Counted(anchors[..], VisitAll(doc, items, t), lastAnchorId)
      decreases |Unvisited(doc, t)|, 3
    {
      ghost var r := t;
      var k := 0;
      while k < |items|
        invariant 0 <= k <= |items| && Counted(anchors[..], r, lastAnchorId)
          && |Unvisited(doc, r)| <= |Unvisited(doc, t)|
        invariant VisitAll(doc, items[k..], r) == VisitAll(doc, items, t)
      {
        AnchorNext(doc, items[k], items[k..], r);
        r := Visit(doc, items[k], r);
        assert items[k..][1..] == items[k + 1..];
        k := k + 1;
      }
    }

    method AnchorNext(doc: seq<DocNode>, i: nat, ghost ks: seq<nat>, ghost t: Tour)
      requires Closed(doc) && AllWithin(ks, |doc|) && ks != [] && i == ks[0] && anchors.Length == |doc|
      requires Counted(anchors[..], t, lastAnchorId)
      modifies anchors, this`lastAnchorId
      ensures Counted(anchors[..], Visit(doc, i, t), lastAnchorId)
        && VisitAll(doc, ks[1..], Visit(doc, i, t)) == VisitAll(doc, ks, t)
      ensures |Unvisited(doc, Visit(doc, i, t))| <= |Unvisited(doc, t)|
      decreases |Unvisited(doc, t)|, 1
    {
      VisitStep(doc, ks, t);
      AnchorNode(doc, i, t);
    }

    method AnchorPair(doc: seq<DocNode>, pair: Pair, ghost flat: seq<nat>, ghost t: Tour)
      requires Closed(doc) && AllWithin(flat, |doc|) && anchors.Length == |doc| && Counted(anchors[..], t, lastAnchorId)
      requires |flat| >= 2 && flat[0] == pair.key && flat[1] == pair.value && Within1(pair.key, |doc|)
        && Within1(pair.value, |doc|)
      requires AllWithin(flat[1..], |doc|) && AllWithin(flat[1..][1..], |doc|)
      modifies anchors, this`lastAnchorId
      ensures var r := Visit(doc, pair.value, Visit(doc, pair.key, t));
        && Counted(anchors[..], r, lastAnchorId) && VisitAll(doc, flat[1..][1..], r) == VisitAll(doc, flat, t)
        && |Unvisited(doc, r)| <= |Unvisited(doc, t)|
      decreases |Unvisited(doc, t)|, 2
    {
      AnchorNext(doc, pair.key, flat, t);
      AnchorNext(doc, pair.value, flat[1..], Visit(doc, pair.key, t));
    }

    method AnchorPairs(doc: seq<DocNode>, pairs: seq<Pair>, ghost t: Tour)
      requires Closed(doc) && AllWithin(FlatPairs(pairs), |doc|) && anchors.Length == |doc|
        && Counted(anchors[..], t, lastAnchorId)
      modifies anchors, this`lastAnchorId
      ensures Counted(anchors[..], VisitAll(doc, FlatPairs(pairs), t), lastAnchorId)
      decreases |Unvisited(doc, t)|, 3
    {
      ghost var r := t;
      var k := 0;
      while k < |pairs|
        invariant 0 <= k <= |pairs| && Counted(anchors[..], r, lastAnchorId)
          && |Unvisited(doc, r)| <= |Unvisited(doc, t)|
        invariant AllWithin(FlatPairs(pairs[k..]), |doc|)
        invariant VisitAll(doc, FlatPairs(pairs[k..]), r) == VisitAll(doc, FlatPairs(pairs), t)
      {
        FlatStep(pairs, k, |doc|);
        AnchorPair(doc, pairs[k], FlatPairs(pairs[k..]), r);
        r := Visit(doc, pairs[k].value, Visit(doc, pairs[k].key, r));
        k := k + 1;
      }
    }

    /** The second walk: writes each node once and aliases for later visits. */
    method DumpNode(doc: seq<DocNode>, i: nat, ghost t: Tour)
      requires Closed(doc) && Within1(i, |doc|) && anchors.Length == |doc| && Serialized(anchors[..], t)
      requires Anchored(Ids(anchors[..]), Visit(doc, i, t).repeated)
      modifies anchors, this`events
      ensures Ids(anchors[..]) == old(Ids(anchors[..])) && Serialized(anchors[..], Visit(doc, i, t))
      ensures events == old(events) + NodeText(doc, Ids(anchors[..]), i, t)
      decreases |Unvisited(doc, t)|, 0
    {
      ghost var before := anchors[..];
      assert SerializedAt(before, i - 1, t);
      var id := anchors[i - 1].anchor;
      var anchor := if id == 0 then None else Some(AnchorName(id));
      if anchors[i - 1].serialized {
        Emit(Alias(anchor.value));  // a second visit always has an anchor
        SerializedStays(before, t, Visit(doc, i, t));
        return;
      }
      anchors[i - 1] := anchors[i - 1].(serialized := true);
      ghost var t1 := Tour(t.order + [i], t.repeated);
      SerializeFirst(before, t, i, anchors[..], t1);
      FirstVisit(doc, i, t, t1);
      assert ChildrenOk(doc, i - 1);
      NodeTextStep(doc, Ids(anchors[..]), i, t, t1, events);
      Emit(StartEvent(doc[i - 1], anchor));
      DumpChildren(doc, doc[i - 1], t1);
      match doc[i - 1]
      case ScalarNode(_, _) =>
      case SequenceNode(_, _) => Emit(SequenceEnd);
      case MappingNode(_, _) => Emit(MappingEnd);
    }

    /** One step of a loop over children. */
    method DumpNext(doc: seq<DocNode>, i: nat, ghost ks: seq<nat>, ghost t: Tour)
      requires Closed(doc) && AllWithin(ks, |doc|) && ks != [] && i == ks[0] && anchors.Length == |doc|
        && Serialized(anchors[..], t)
      requires Anchored(Ids(anchors[..]), VisitAll(doc, ks, t).repeated)
      modifies anchors, this`events
      ensures Ids(anchors[..]) == old(Ids(anchors[..])) && Serialized(anchors[..], Visit(doc, i, t))
      ensures events + AllText(doc, Ids(anchors[..]), ks[1..], Visit(doc, i, t))
        == old(events) + AllText(doc, Ids(anchors[..]), ks, t)
      ensures VisitAll(doc, ks[1..], Visit(doc, i, t)) == VisitAll(doc, ks, t)
      ensures |Unvisited(doc, Visit(doc, i, t))| <= |Unvisited(doc, t)|
      decreases |Unvisited(doc, t)|, 1
    {
      VisitStep(doc, ks, t);
      ghost var before, ids := events, Ids(anchors[..]);
      DumpNode(doc, i, t);
      TextStep(doc, ids, ks, t, before);
    }

    method DumpChildren(doc: seq<DocNode>, n: DocNode, ghost t: Tour)
      requires Closed(doc) && AllWithin(Children(n), |doc|) && anchors.Length == |doc| && Serialized(anchors[..], t)
      requires Anchored(Ids(anchors[..]), VisitAll(doc, Children(n), t).repeated)
      modifies anchors, this`events
      ensures Ids(anchors[..]) == old(Ids(anchors[..])) && Serialized(anchors[..], VisitAll(doc, Children(n), t))
      ensures events == old(events) + AllText(doc, Ids(anchors[..]), Children(n), t)
      decreases |Unvisited(doc, t)|, 4
    {
      match n
      case ScalarNode(_, _) =>
      case SequenceNode(_, items) => DumpItems(doc, items, t);
      case MappingNode(_, pairs) => DumpPairs(doc, pairs, t);
    }

    method DumpItems(doc: seq<DocNode>, items: seq<nat>, ghost t: Tour)
      requires Closed(doc) && AllWithin(items, |doc|) && anchors.Length == |doc| && Serialized(anchors[..], t)
      requires Anchored(Ids(anchors[..]), VisitAll(doc, items, t).repeated)
      modifies anchors, this`events
      ensures Ids(anchors[..]) == old(Ids(anchors[..])) && Serialized(anchors[..], VisitAll(doc, items, t))
      ensures events == old(events) + AllText(doc, Ids(anchors[..]), items, t)
      decreases |Unvisited(doc, t)|, 2
    {
      ghost var r, ids := t, Ids(anchors[..]);
      var k := 0;
      while k < |items|
        invariant 0 <= k <= |items| && Serialized(anchors[..], r) && |Unvisited(doc, r)| <= |Unvisited(doc, t)|
        invariant VisitAll(doc, items[k..], r) == VisitAll(doc, items, t) && Ids(anchors[..]) == ids
        invariant events + AllText(doc, ids, items[k..], r) == old(events) + AllText(doc, ids, items, t)
      {
        DumpNext(doc, items[k], items[k..], r);
        r := Visit(doc, items[k], r);
        assert items[k..][1..] == items[k + 1..];
        k := k + 1;
      }
    }

    method DumpPair(doc: seq<DocNode>, pair: Pair, ghost flat: seq<nat>, ghost t: Tour)
      requires Closed(doc) && AllWithin(flat, |doc|) && anchors.Length == |doc| && Serialized(anchors[..], t)
      requires |flat| >= 2 && flat[0] == pair.key && flat[1] == pair.value && Within1(pair.key, |doc|)
        && Within1(pair.value, |doc|)
      requires AllWithin(flat[1..], |doc|) && AllWithin(flat[1..][1..], |doc|)
      requires Anchored(Ids(anchors[..]), VisitAll(doc, flat, t).repeated)
      modifies anchors, this`events
      ensures var r := Visit(doc, pair.value, Visit(doc, pair.key, t)); var ids := Ids(anchors[..]);
        && ids == old(Ids(anchors[..])) && Serialized(anchors[..], r)
        && events + AllText(doc, ids, flat[1..][1..], r) == old(events) + AllText(doc, ids, flat, t)
        && VisitAll(doc, flat[1..][1..], r) == VisitAll(doc, flat, t) && |Unvisited(doc, r)| <= |Unvisited(doc, t)|
      decreases |Unvisited(doc, t)|, 2
    {
      DumpNext(doc, pair.key, flat, t);
      DumpNext(doc, pair.value, flat[1..], Visit(doc, pair.key, t));
    }

    method DumpPairs(doc: seq<DocNode>, pairs: seq<Pair>, ghost t: Tour)
      requires Closed(doc) && AllWithin(FlatPairs(pairs), |doc|) && anchors.Length == |doc|
        && Serialized(anchors[..], t)
      requires Anchored(Ids(anchors[..]), VisitAll(doc, FlatPairs(pairs), t).repeated)
      modifies anchors, this`events
      ensures Ids(anchors[..]) == old(Ids(anchors[..])) && Serialized(anchors[..], VisitAll(doc, FlatPairs(pairs), t))
      ensures events == old(events) + AllText(doc, Ids(anchors[..]), FlatPairs(pairs), t)
      decreases |Unvisited(doc, t)|, 3
    {
      ghost var r, ids, all := t, Ids(anchors[..]), FlatPairs(pairs);
      var k := 0;
      while k < |pairs|
        invariant 0 <= k <= |pairs| && Serialized(anchors[..], r) && |Unvisited(doc, r)| <= |Unvisited(doc, t)|
        invariant AllWithin(FlatPairs(pairs[k..]), |doc|)
        invariant VisitAll(doc, FlatPairs(pairs[k..]), r) == VisitAll(doc, all, t) && Ids(anchors[..]) == ids
        invariant events + AllText(doc, ids, FlatPairs(pairs[k..]), r) == old(events) + AllText(doc, ids, all, t)
      {
        FlatStep(pairs, k, |doc|);
        DumpPair(doc, pairs[k], FlatPairs(pairs[k..]), r);
        r := Visit(doc, pairs[k].value, Visit(doc, pairs[k].key, r));
        k := k + 1;
      }
    }

    /** Both walks: what the second one writes loads back as the part that can be reached from the root. */
    method Walk(doc: seq<DocNode>) returns (ghost text: seq<Event>)
      requires Closed(doc) && doc != [] && lastAnchorId == 0
      modifies this`anchors, this`lastAnchorId, this`events
      ensures events == old(events) + text && LoadsBack(doc, text) && OneDocument(text)
    {
      anchors := new Anchor[|doc|](_ => Anchor(0, 0, false));
      StartCounting(anchors[..]);
      AnchorNode(doc, 1, Tour([], {}));
      StartWriting(anchors[..], Whole(doc), lastAnchorId);
      DumpNode(doc, 1, Tour([], {}));
      text := NodeText(doc, Ids(anchors[..]), 1, Tour([], {}));
      DumpThenLoad(doc, Ids(anchors[..]));
      forall a, b ensures Run(Between, [DocumentStart(a)] + text + [DocumentEnd(b)]) == Between {
        DocumentAccepted(doc, Ids(anchors[..]), a, b);
      }
    }

    /** Dumps a document: what is written is a document of the language of events, and what stands between its start and
        end loads back. An empty document closes the stream. */
    method Dump(doc: seq<DocNode>, startImplicit: bool, endImplicit: bool) returns (ghost text: seq<Event>)
      requires Closed(doc) && lastAnchorId == 0
      modifies this
      ensures isOpen && isClosed == (old(isClosed) || doc == []) && lastAnchorId == 0
      ensures doc == [] ==> events == old(events) + Unless(old(isOpen), StreamStart) + Unless(old(isClosed), StreamEnd)
      ensures doc != [] ==> LoadsBack(doc, text)
      ensures doc != [] ==> Run(Between, [DocumentStart(startImplicit)] + text + [DocumentEnd(endImplicit)]) == Between
      ensures doc != [] ==>
        events == old(events) + Unless(old(isOpen), StreamStart)
          + ([DocumentStart(startImplicit)] + text + [DocumentEnd(endImplicit)])
    {
      text := [];
      if !isOpen {
        Emit(StreamStart);
        isOpen := true;
      }
      if doc == [] {
        if !isClosed {
          Emit(StreamEnd);
          isClosed := true;
        }
        return;
      }
      Emit(DocumentStart(startImplicit));
      text := Walk(doc);
      Emit(DocumentEnd(endImplicit));
      lastAnchorId := 0;
    }
  }

  /** Between the events that start and end a document the events are one node. */
  ghost predicate OneDocument(text: seq<Event>)
  {
    forall a, b :: Run(Between, [DocumentStart(a)] + text + [DocumentEnd(b)]) == Between
  }

  /** Loading the events gives a document isomorphic to the part that can be reached from the root. */
  ghost predicate LoadsBack(doc: seq<DocNode>, text: seq<Event>)
    requires Closed(doc) && doc != []
  {
    var out := LoadAll(Composer([], [], []), text);
    out.Composed? && out.c.open == [] && Isomorphic(doc, out.c.nodes, Whole(doc).order)
  }

  lemma FlatStep(pairs: seq<Pair>, k: nat, n: nat)
    requires k < |pairs| && AllWithin(FlatPairs(pairs[k..]), n)
    ensures var flat := FlatPairs(pairs[k..]);
      && |flat| >= 2 && flat[0] == pairs[k].key && flat[1] == pairs[k].value
      && flat[1..][1..] == FlatPairs(pairs[k + 1..])
      && Within1(pairs[k].key, n) && Within1(pairs[k].value, n) && AllWithin(flat[1..], n)
      && AllWithin(flat[1..][1..], n)
  {
    var flat := FlatPairs(pairs[k..]);
    assert pairs[k..][0] == pairs[k] && pairs[k..][1..] == pairs[k + 1..];
    assert flat == [pairs[k].key, pairs[k].value] + FlatPairs(pairs[k + 1..]);
    assert Within1(flat[0], n) && Within1(flat[1], n);
    forall m | 0 <= m < |flat[1..]| ensures Within1(flat[1..][m], n) {
      assert Within1(flat[m + 1], n);
    }
    assert flat[1..][1..] == FlatPairs(pairs[k + 1..]);
  }
}
