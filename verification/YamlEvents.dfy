/** Events, and the language of event streams. */
module YamlEvents {
  import opened Wrappers

  datatype Event =
    | StreamStart
    | StreamEnd
    | DocumentStart(implicit: bool)
    | DocumentEnd(implicit: bool)
    | Alias(name: string)
    | Scalar(anchor: Option<string>, tag: Option<string>, value: string, plainImplicit: bool, quotedImplicit: bool)
    | SequenceStart(anchor: Option<string>, tag: Option<string>, implicit: bool)
    | SequenceEnd
    | MappingStart(anchor: Option<string>, tag: Option<string>, implicit: bool)
    | MappingEnd

  /** An open collection: a sequence, or a mapping that expects a key (or its end) or a value. */
  datatype Frame = InSequence | AwaitKey | AwaitValue

  /** How far a stream of events has come. In `Within` a node may begin; with no open collection it is the root. */
  datatype Progress = Stuck | Initial | Between | Within(open: seq<Frame>) | RootDone | Final

  /** A node has just been completed inside the open collections. */
  function NodeDone(open: seq<Frame>): Progress
  {
    if open == [] then RootDone
    else
      var rest, top := open[..|open| - 1], open[|open| - 1];
      Within(rest + [match top case InSequence => InSequence case AwaitKey => AwaitValue case AwaitValue => AwaitKey])
  }

  /** An automaton for STREAM-START (DOCUMENT-START node DOCUMENT-END)* STREAM-END. */
  function Consume(p: Progress, e: Event): Progress
  {
    match p
    case Stuck => Stuck
    case Initial => if e.StreamStart? then Between else Stuck
    case Between => if e.DocumentStart? then Within([]) else if e.StreamEnd? then Final else Stuck
    case RootDone => if e.DocumentEnd? then Between else Stuck
    case Final => Stuck
    case Within(open) =>
      if e.Alias? || e.Scalar? then NodeDone(open)
      else if e.SequenceStart? then Within(open + [InSequence])
      else if e.MappingStart? then Within(open + [AwaitKey])
      else if open != [] && ((e.SequenceEnd? && open[|open| - 1] == InSequence)
                             || (e.MappingEnd? && open[|open| - 1] == AwaitKey))
      then NodeDone(open[..|open| - 1])
      else Stuck
  }

  function Run(p: Progress, es: seq<Event>): Progress
    decreases |es|
  {
    if es == [] then p else Run(Consume(p, es[0]), es[1..])
  }

  lemma {:induction false} RunConcat(p: Progress, a: seq<Event>, b: seq<Event>)
    ensures Run(p, a + b) == Run(Run(p, a), b)
    decreases |a|
  {
    if a == [] {
      assert a + b == b;
    } else {
      assert (a + b)[0] == a[0] && (a + b)[1..] == a[1..] + b;
      RunConcat(Consume(p, a[0]), a[1..], b);
    }
  }

  lemma RunSnoc(p: Progress, a: seq<Event>, e: Event)
    ensures Run(p, a + [e]) == Consume(Run(p, a), e)
  {
    RunConcat(p, a, [e]);
    assert Run(Run(p, a), [e]) == Run(Consume(Run(p, a), e), []);
  }

  lemma {:induction false} RunStuck(es: seq<Event>)
    ensures Run(Stuck, es) == Stuck
    decreases |es|
  {
    if es != [] {
      RunStuck(es[1..]);
    }
  }

  lemma NothingAfterFinal(es: seq<Event>)
    ensures Run(Final, es) == if es == [] then Final else Stuck
  {
    if es != [] {
      RunStuck(es[1..]);
    }
  }

  // Trees.

  datatype Node = Leaf(event: Event) | Sequence(start: Event, items: Nodes) | Mapping(start: Event, pairs: Pairs)
  datatype Nodes = NoNodes | MoreNodes(first: Node, others: Nodes)
  datatype Pairs = NoPairs | MorePairs(key: Node, value: Node, others: Pairs)
  datatype Document = Document(start: Event, root: Node, end: Event)

  predicate NodeOk(n: Node)
  {
    match n
    case Leaf(e) => e.Alias? || e.Scalar?
    case Sequence(e, items) => e.SequenceStart? && NodesOk(items)
    case Mapping(e, pairs) => e.MappingStart? && PairsOk(pairs)
  }

  predicate NodesOk(ns: Nodes)
  {
    ns.MoreNodes? ==> NodeOk(ns.first) && NodesOk(ns.others)
  }

  predicate PairsOk(ps: Pairs)
  {
    ps.MorePairs? ==> NodeOk(ps.key) && NodeOk(ps.value) && PairsOk(ps.others)
  }

  predicate DocumentOk(d: Document)
  {
    d.start.DocumentStart? && NodeOk(d.root) && d.end.DocumentEnd?
  }

  function NodeEvents(n: Node): seq<Event>
  {
    match n
    case Leaf(e) => [e]
    case Sequence(e, items) => [e] + NodesEvents(items)
    case Mapping(e, pairs) => [e] + PairsEvents(pairs)
  }

  /** The items of a sequence and its end. */
  function NodesEvents(ns: Nodes): seq<Event>
  {
    match ns
    case NoNodes => [SequenceEnd]
    case MoreNodes(n, others) => NodeEvents(n) + NodesEvents(others)
  }

  /** The pairs of a mapping and its end. */
  function PairsEvents(ps: Pairs): seq<Event>
  {
    match ps
    case NoPairs => [MappingEnd]
    case MorePairs(key, value, others) => NodeEvents(key) + (NodeEvents(value) + PairsEvents(others))
  }

  function DocumentEvents(d: Document): seq<Event>
  {
    [d.start] + NodeEvents(d.root) + [d.end]
  }

  function DocumentsEvents(ds: seq<Document>): seq<Event>
  {
    if ds == [] then [StreamEnd] else DocumentEvents(ds[0]) + DocumentsEvents(ds[1..])
  }

  function StreamEvents(ds: seq<Document>): seq<Event>
  {
    [StreamStart] + DocumentsEvents(ds)
  }

  // Every stream of trees is accepted.

  lemma {:induction false} NodeRuns(open: seq<Frame>, n: Node)
    requires NodeOk(n)
    ensures Run(Within(open), NodeEvents(n)) == NodeDone(open)
    decreases n
  {
    match n
    case Leaf(e) =>
      RunSnoc(Within(open), [], e);
      assert [] + [e] == [e];
    case Sequence(e, items) =>
      RunConcat(Within(open), [e], NodesEvents(items));
      RunSnoc(Within(open), [], e);
      assert [] + [e] == [e];
      NodesRun(open, items);
    case Mapping(e, pairs) =>
      RunConcat(Within(open), [e], PairsEvents(pairs));
      RunSnoc(Within(open), [], e);
      assert [] + [e] == [e];
      PairsRun(open, pairs);
  }

  lemma {:induction false} NodesRun(open: seq<Frame>, ns: Nodes)
    requires NodesOk(ns)
    ensures Run(Within(open + [InSequence]), NodesEvents(ns)) == NodeDone(open)
    decreases ns
  {
    var inner := open + [InSequence];
    assert inner[..|inner| - 1] == open;
    match ns
    case NoNodes =>
      RunSnoc(Within(inner), [], SequenceEnd);
      assert [] + [SequenceEnd] == [SequenceEnd];
    case MoreNodes(n, others) =>
      NodeRuns(inner, n);
      RunConcat(Within(inner), NodeEvents(n), NodesEvents(others));
      NodesRun(open, others);
  }

  lemma {:induction false} PairsRun(open: seq<Frame>, ps: Pairs)
    requires PairsOk(ps)
    ensures Run(Within(open + [AwaitKey]), PairsEvents(ps)) == NodeDone(open)
    decreases ps
  {
    var before, between := open + [AwaitKey], open + [AwaitValue];
    assert before[..|before| - 1] == open && between[..|between| - 1] == open;
    match ps
    case NoPairs =>
      RunSnoc(Within(before), [], MappingEnd);
      assert [] + [MappingEnd] == [MappingEnd];
    case MorePairs(key, value, others) =>
      NodeRuns(before, key);
      RunConcat(Within(before), NodeEvents(key), NodeEvents(value) + PairsEvents(others));
      NodeRuns(between, value);
      RunConcat(Within(between), NodeEvents(value), PairsEvents(others));
      PairsRun(open, others);
  }

  lemma DocumentRuns(d: Document)
    requires DocumentOk(d)
    ensures Run(Between, DocumentEvents(d)) == Between
  {
    RunSnoc(Between, [], d.start);
    assert [] + [d.start] == [d.start];
    RunConcat(Between, [d.start], NodeEvents(d.root));
    NodeRuns([], d.root);
    RunSnoc(Between, [d.start] + NodeEvents(d.root), d.end);
  }

  lemma {:induction false} DocumentsRun(ds: seq<Document>)
    requires forall d :: d in ds ==> DocumentOk(d)
    ensures Run(Between, DocumentsEvents(ds)) == Final
    decreases |ds|
  {
    if ds == [] {
      RunSnoc(Between, [], StreamEnd);
      assert [] + [StreamEnd] == [StreamEnd];
    } else {
      DocumentRuns(ds[0]);
      RunConcat(Between, DocumentEvents(ds[0]), DocumentsEvents(ds[1..]));
      DocumentsRun(ds[1..]);
    }
  }

  // Every accepted stream is one of trees.

  /** What follows in an accepted stream when a node begins: that node, then the rest. */
  lemma {:induction false} ReadNode(open: seq<Frame>, es: seq<Event>) returns (n: Node, rest: seq<Event>)
    requires Run(Within(open), es) == Final
    requires es != [] && !es[0].SequenceEnd? && !es[0].MappingEnd?
    ensures NodeOk(n) && es == NodeEvents(n) + rest && |rest| < |es| && Run(NodeDone(open), rest) == Final
    decreases |es|, 0
  {
    var e, tail := es[0], es[1..];
    assert es == [e] + tail;
    RunStuck(tail);
    if e.SequenceStart? {
      var items;
      items, rest := ReadNodes(open, tail);
      n := Sequence(e, items);
    } else if e.MappingStart? {
      var pairs;
      pairs, rest := ReadPairs(open, tail);
      n := Mapping(e, pairs);
    } else {
      n, rest := Leaf(e), tail;
    }
  }

  lemma {:induction false} ReadNodes(open: seq<Frame>, es: seq<Event>) returns (ns: Nodes, rest: seq<Event>)
    requires Run(Within(open + [InSequence]), es) == Final
    ensures NodesOk(ns) && es == NodesEvents(ns) + rest && |rest| < |es| && Run(NodeDone(open), rest) == Final
    decreases |es|, 1
  {
    var inner := open + [InSequence];
    assert inner[..|inner| - 1] == open;
    RunStuck(es[1..]);
    if es[0].SequenceEnd? {
      ns, rest := NoNodes, es[1..];
    } else {
      var n, after := ReadNode(inner, es);
      ns, rest := ReadNodes(open, after);
      ns := MoreNodes(n, ns);
    }
  }

  lemma {:induction false} ReadPairs(open: seq<Frame>, es: seq<Event>) returns (ps: Pairs, rest: seq<Event>)
    requires Run(Within(open + [AwaitKey]), es) == Final
    ensures PairsOk(ps) && es == PairsEvents(ps) + rest && |rest| < |es| && Run(NodeDone(open), rest) == Final
    decreases |es|, 1
  {
    var before, between := open + [AwaitKey], open + [AwaitValue];
    assert before[..|before| - 1] == open && between[..|between| - 1] == open;
    RunStuck(es[1..]);
    if es[0].MappingEnd? {
      ps, rest := NoPairs, es[1..];
    } else {
      var key, afterKey := ReadNode(before, es);
      RunStuck(afterKey[1..]);
      var value, afterValue := ReadNode(between, afterKey);
      ps, rest := ReadPairs(open, afterValue);
      ps := MorePairs(key, value, ps);
    }
  }

  lemma {:induction false} ReadDocuments(es: seq<Event>) returns (ds: seq<Document>)
    requires Run(Between, es) == Final
    ensures es == DocumentsEvents(ds) && forall d :: d in ds ==> DocumentOk(d)
    decreases |es|
  {
    var e, tail := es[0], es[1..];
    assert es == [e] + tail;
    RunStuck(tail);
    if e.StreamEnd? {
      NothingAfterFinal(tail);
      ds := [];
    } else {
      RunStuck(tail[1..]);
      var root, after := ReadNode([], tail);
      RunStuck(after[1..]);
      var others := ReadDocuments(after[1..]);
      var d := Document(e, root, after[0]);
      ds := [d] + others;
      assert ds[1..] == others && after == [after[0]] + after[1..];
      assert es == DocumentEvents(d) + after[1..];
    }
  }

  /** The automaton accepts exactly the streams of documents that hold one tree each. */
  lemma AcceptedAreStreams(es: seq<Event>)
    ensures Run(Initial, es) == Final
       <==> exists ds :: (forall d :: d in ds ==> DocumentOk(d)) && es == StreamEvents(ds)
  {
    if Run(Initial, es) == Final {
      RunStuck(es[1..]);
      var ds := ReadDocuments(es[1..]);
      assert es == [es[0]] + es[1..] == StreamEvents(ds);
    }
    forall ds | (forall d :: d in ds ==> DocumentOk(d)) && es == StreamEvents(ds) ensures Run(Initial, es) == Final {
      RunConcat(Initial, [StreamStart], DocumentsEvents(ds));
      RunSnoc(Initial, [], StreamStart);
      assert [] + [StreamStart] == [StreamStart];
      DocumentsRun(ds);
    }
  }

  // Nothing the automaton lets through is a dead end.

  const Filler := Scalar(None, None, "", true, false)

  lemma {:induction false} Completes(p: Progress) returns (more: seq<Event>)
    requires p != Stuck
    ensures Run(p, more) == Final
    decreases match p case Initial => 4 case Within(open) => 3 case RootDone => 2 case Between => 1 case _ => 0,
              if p.Within? then |p.open| else 0,
              if p.Within? && p.open != [] && p.open[|p.open| - 1] == AwaitValue then 1 else 0
  {
    if p == Final {
      more := [];
    } else {
      var e :=
        match p
        case Initial => StreamStart
        case Between => StreamEnd
        case RootDone => DocumentEnd(true)
        case Within(open) =>
          if open == [] || open[|open| - 1] == AwaitValue then Filler
          else if open[|open| - 1] == InSequence then SequenceEnd else MappingEnd;
      more := Completes(Consume(p, e));
      more := [e] + more;
    }
  }

  /** What has not got stuck is a beginning of such a stream, and the other way round. */
  lemma UnstuckArePrefixes(es: seq<Event>)
    ensures Run(Initial, es) != Stuck
       <==> exists more, ds :: (forall d :: d in ds ==> DocumentOk(d)) && es + more == StreamEvents(ds)
  {
    if Run(Initial, es) != Stuck {
      var more := Completes(Run(Initial, es));
      RunConcat(Initial, es, more);
      AcceptedAreStreams(es + more);
    }
    forall more, ds | (forall d :: d in ds ==> DocumentOk(d)) && es + more == StreamEvents(ds)
      ensures Run(Initial, es) != Stuck
    {
      AcceptedAreStreams(es + more);
      RunConcat(Initial, es, more);
      RunStuck(more);
    }
  }
}
