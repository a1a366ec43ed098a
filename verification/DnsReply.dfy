/** Questions and answers on the wire (hev-mapped-dns.c; sections 3.1 and 4.1.1 to 4.1.4 of RFC 1035). */
module DnsWire {
  import opened ByteOrder

  const DOT: byte := 0x2E

  function U16(q: seq<byte>, i: nat): nat
    requires i + 1 < |q|
  {
    var high: int := q[i];
    256 * high + q[i + 1]
  }

  function Bytes16(v: nat): (r: seq<byte>)
    ensures |r| == 2
  {
    [v / 256 % 256, v % 256]
  }

  function Bytes32(v: nat): (r: seq<byte>)
    ensures |r| == 4
  {
    [v / 16777216 % 256, v / 65536 % 256, v / 256 % 256, v % 256]
  }

  // Names.

  /** Where the name at `off` has its terminating zero, or -1. */
  function NameEnd(q: seq<byte>, off: nat): (e: int)
    requires off < |q|
    ensures e == -1 || (off <= e < |q| && q[e] == 0)
    decreases |q| - off
  {
    if q[off] == 0 then off
    else
      var next := off + 1 + q[off];
      if next >= |q| then -1 else NameEnd(q, next)
  }

  /** The bytes of a name with each length replaced by a dot. */
  function Dots(q: seq<byte>, off: nat): (r: seq<byte>)
    requires off < |q| && NameEnd(q, off) >= 0
    ensures |r| == NameEnd(q, off) - off
    decreases |q| - off
  {
    if q[off] == 0 then []
    else
      var next := off + 1 + q[off];
      [DOT] + q[off + 1..next] + Dots(q, next)
  }

  /** What a zero-terminated string holds. */
  function UpToNul(s: seq<byte>): Name
  {
    if s == [] || s[0] == 0 then [] else [s[0]] + UpToNul(s[1..])
  }

  /** The dotted name of the question at `off`. */
  function NameAt(q: seq<byte>, off: nat): Name
    requires off < |q| && NameEnd(q, off) >= 0
  {
    if q[off] == 0 then [] else UpToNul(Dots(q, off)[1..])
  }

  // Questions.

  /** A question for an address: where its name is, and the name. */
  datatype Asked = Asked(at: nat, name: Name)

  datatype Walked = Walked(ok: bool, off: nat, asked: seq<Asked>)

  /** The next `n` questions, after those already met. */
  function Walk(q: seq<byte>, off: nat, n: nat, asked: seq<Asked>): Walked
    decreases n
  {
    if n == 0 then Walked(true, off, asked)
    else if off >= |q| || NameEnd(q, off) < 0 || NameEnd(q, off) + 4 >= |q| then Walked(false, off, asked)
    else
      var e := NameEnd(q, off) + 1;
      Walk(q, e + 4, n - 1, if U16(q, e) == 1 && U16(q, e + 2) == 1 then asked + [Asked(off, NameAt(q, off))]
           else asked)
  }

  // Requests as they are written.

  datatype Question = Question(labels: seq<seq<byte>>, qtype: nat, qclass: nat)

  ghost predicate LabelOk(part: seq<byte>)
  {
    1 <= |part| < 256 && forall k :: 0 <= k < |part| ==> part[k] != 0
  }

  ghost predicate LabelsOk(labels: seq<seq<byte>>)
  {
    forall k :: 0 <= k < |labels| ==> LabelOk(labels[k])
  }

  ghost predicate QuestionOk(question: Question)
  {
    && LabelsOk(question.labels)
    && question.qtype < 65536 && question.qclass < 65536
  }

  ghost function WriteName(labels: seq<seq<byte>>): (r: seq<byte>)
    requires LabelsOk(labels)
    ensures |r| >= 1
  {
    if labels == [] then [0] else assert LabelOk(labels[0]); [|labels[0]|] + labels[0] + WriteName(labels[1..])
  }

  /** The labels with a dot before each. */
  function Dotted(labels: seq<seq<byte>>): seq<byte>
  {
    if labels == [] then [] else [DOT] + labels[0] + Dotted(labels[1..])
  }

  /** The dotted name of some labels. */
  function Joined(labels: seq<seq<byte>>): Name
  {
    if labels == [] then [] else Dotted(labels)[1..]
  }

  ghost predicate Has(q: seq<byte>, off: nat, s: seq<byte>)
  {
    off + |s| <= |q| && forall k {:trigger s[k]} :: 0 <= k < |s| ==> q[off + k] == s[k]
  }

  lemma HasSplit(q: seq<byte>, off: nat, a: seq<byte>, b: seq<byte>)
    requires Has(q, off, a + b)
    ensures Has(q, off, a) && Has(q, off + |a|, b)
  {
    var s := a + b;
    forall k {:trigger a[k]} | 0 <= k < |a| ensures q[off + k] == a[k] {
      assert s[k] == a[k];
    }
    forall k {:trigger b[k]} | 0 <= k < |b| ensures q[off + |a| + k] == b[k] {
      assert s[|a| + k] == b[k];
    }
  }

  lemma HasAt(q: seq<byte>, off: nat, s: seq<byte>, k: nat)
    requires Has(q, off, s) && k < |s|
    ensures off + k < |q| && q[off + k] == s[k]
  {
    assert s[k] == q[off + k];
  }

  lemma LabelRead(q: seq<byte>, off: nat, labels: seq<seq<byte>>)
    requires LabelsOk(labels) && labels != [] && Has(q, off, WriteName(labels))
    ensures off + 1 + |labels[0]| < |q| && q[off] == |labels[0]| > 0 && q[off + 1..off + 1 + |labels[0]|] == labels[0]
    ensures Has(q, off + 1 + |labels[0]|, WriteName(labels[1..]))
  {
    var part, others := labels[0], WriteName(labels[1..]);
    assert LabelOk(part);
    HasAt(q, off, WriteName(labels), 0);
    HasSplit(q, off, [|part|] + part, others);
    HasSplit(q, off, [|part|], part);
    assert q[off + 1..off + 1 + |part|] == part;
  }

  lemma {:induction false} NameStep(q: seq<byte>, off: nat, next: nat)
    requires off < next < |q| && q[off] != 0 && next == off + 1 + q[off]
    ensures NameEnd(q, off) == NameEnd(q, next)
    ensures NameEnd(q, off) >= 0 ==> Dots(q, off) == [DOT] + q[off + 1..next] + Dots(q, next)
  {
    EndStep(q, off, next);
    if NameEnd(q, off) >= 0 {
      DotsStep(q, off, next);
    }
  }

  lemma {:induction false} EndStep(q: seq<byte>, off: nat, next: nat)
    requires off < next < |q| && q[off] != 0 && next == off + 1 + q[off]
    ensures NameEnd(q, off) == NameEnd(q, next)
  {
  }

  lemma {:induction false} DotsStep(q: seq<byte>, off: nat, next: nat)
    requires off < next < |q| && q[off] != 0 && next == off + 1 + q[off] && NameEnd(q, off) == NameEnd(q, next) >= 0
    ensures Dots(q, off) == [DOT] + q[off + 1..next] + Dots(q, next)
  {
  }

  lemma {:induction false} NameLength(labels: seq<seq<byte>>)
    requires LabelsOk(labels) && labels != []
    ensures |WriteName(labels)| == 1 + |labels[0]| + |WriteName(labels[1..])|
    ensures Dotted(labels) == [DOT] + labels[0] + Dotted(labels[1..])
  {
  }

  /** A written name is read back with its dots. */
  lemma {:induction false} NameRoundTrip(q: seq<byte>, off: nat, labels: seq<seq<byte>>)
    requires LabelsOk(labels) && Has(q, off, WriteName(labels))
    ensures off < |q| && NameEnd(q, off) == off + |WriteName(labels)| - 1 && Dots(q, off) == Dotted(labels)
    decreases |labels|
  {
    HasAt(q, off, WriteName(labels), 0);
    if labels != [] {
      var next := off + 1 + |labels[0]|;
      LabelRead(q, off, labels);
      NameRoundTrip(q, next, labels[1..]);
      NameStep(q, off, next);
      NameLength(labels);
    }
  }

  lemma {:induction false} NoNulInDotted(labels: seq<seq<byte>>)
    requires LabelsOk(labels)
    ensures forall k :: 0 <= k < |Dotted(labels)| ==> Dotted(labels)[k] != 0
    decreases |labels|
  {
    if labels != [] {
      assert LabelOk(labels[0]);
      NoNulInDotted(labels[1..]);
    }
  }

  lemma {:induction false} UpToNulAll(s: seq<byte>)
    requires forall k :: 0 <= k < |s| ==> s[k] != 0
    ensures UpToNul(s) == s
    decreases |s|
  {
    if s != [] {
      UpToNulAll(s[1..]);
    }
  }

  /** The name of a written question is its labels joined by dots. */
  lemma WrittenName(q: seq<byte>, off: nat, labels: seq<seq<byte>>)
    requires LabelsOk(labels) && Has(q, off, WriteName(labels))
    ensures off < |q| && NameEnd(q, off) == off + |WriteName(labels)| - 1 && NameAt(q, off) == Joined(labels)
  {
    NameRoundTrip(q, off, labels);
    HasAt(q, off, WriteName(labels), 0);
    if labels != [] {
      assert LabelOk(labels[0]);
      NoNulInDotted(labels);
      UpToNulAll(Dotted(labels)[1..]);
    }
  }

  ghost function WriteQuestion(x: Question): seq<byte>
    requires QuestionOk(x)
  {
    WriteName(x.labels) + (Bytes16(x.qtype) + Bytes16(x.qclass))
  }

  ghost predicate QuestionsOk(xs: seq<Question>)
  {
    forall k :: 0 <= k < |xs| ==> QuestionOk(xs[k])
  }

  ghost function WriteQuestions(xs: seq<Question>): seq<byte>
    requires QuestionsOk(xs)
  {
    if xs == [] then [] else WriteQuestion(xs[0]) + WriteQuestions(xs[1..])
  }

  predicate ForAddress(x: Question)
  {
    x.qtype == 1 && x.qclass == 1
  }

  /** The questions for addresses among those written from `off` on. */
  ghost function AskedIn(off: nat, xs: seq<Question>): seq<Asked>
    requires QuestionsOk(xs)
    decreases |xs|
  {
    if xs == [] then []
    else
      (if ForAddress(xs[0]) then [Asked(off, Joined(xs[0].labels))] else [])
        + AskedIn(off + |WriteQuestion(xs[0])|, xs[1..])
  }

  lemma Bytes16RoundTrip(v: nat, q: seq<byte>, i: nat)
    requires v < 65536 && Has(q, i, Bytes16(v))
    ensures i + 1 < |q| && U16(q, i) == v
  {
    HasAt(q, i, Bytes16(v), 0);
    HasAt(q, i, Bytes16(v), 1);
  }

  /** The questions stand one after the other from `off` to `end`. */
  ghost predicate Stand(q: seq<byte>, off: nat, xs: seq<Question>, end: nat)
    requires QuestionsOk(xs)
    decreases |xs|
  {
    if xs == [] then off == end
    else Has(q, off, WriteQuestion(xs[0])) && Stand(q, off + |WriteQuestion(xs[0])|, xs[1..], end)
  }

  lemma {:induction false} WrittenStand(q: seq<byte>, off: nat, xs: seq<Question>)
    requires QuestionsOk(xs) && Has(q, off, WriteQuestions(xs))
    ensures Stand(q, off, xs, off + |WriteQuestions(xs)|)
    decreases |xs|
  {
    if xs != [] {
      var first, others := WriteQuestion(xs[0]), WriteQuestions(xs[1..]);
      HasSplit(q, off, first, others);
      WrittenStand(q, off + |first|, xs[1..]);
    }
  }

  lemma {:induction false} FirstStands(q: seq<byte>, off: nat, xs: seq<Question>, end: nat)
    requires QuestionsOk(xs) && xs != [] && Stand(q, off, xs, end)
    ensures QuestionsOk(xs[1..]) && Has(q, off, WriteQuestion(xs[0]))
      && Stand(q, off + |WriteQuestion(xs[0])|, xs[1..], end)
  {
  }

  lemma {:induction false} FirstAsked(off: nat, xs: seq<Question>)
    requires QuestionsOk(xs) && xs != []
    ensures QuestionOk(xs[0]) && QuestionsOk(xs[1..])
    ensures AskedIn(off, xs) == FoundIn(off, xs[0]) + AskedIn(off + |WriteQuestion(xs[0])|, xs[1..])
  {
  }

  /** Questions that stand one after the other are met one by one, each name with its dots. */
  lemma {:induction false} QuestionsMet(q: seq<byte>, off: nat, xs: seq<Question>, end: nat, asked: seq<Asked>)
    requires QuestionsOk(xs) && Stand(q, off, xs, end)
    ensures Walk(q, off, |xs|, asked) == Walked(true, end, asked + AskedIn(off, xs))
    decreases |xs|
  {
    if xs == [] {
      assert asked + AskedIn(off, xs) == asked;
    } else {
      var found, next := FoundIn(off, xs[0]), off + |WriteQuestion(xs[0])|;
      FirstAsked(off, xs);
      FirstStands(q, off, xs, end);
      QuestionsMet(q, next, xs[1..], end, asked + found);
      WalkStep(q, off, xs[0], |xs|, asked);
      Regroup(asked, found, AskedIn(next, xs[1..]));
    }
  }

  /** Written questions are read back: each one for an address, with its name. */
  lemma QuestionsRoundTrip(q: seq<byte>, off: nat, xs: seq<Question>)
    requires QuestionsOk(xs) && Has(q, off, WriteQuestions(xs))
    ensures Walk(q, off, |xs|, []) == Walked(true, off + |WriteQuestions(xs)|, AskedIn(off, xs))
  {
    WrittenStand(q, off, xs);
    QuestionsMet(q, off, xs, off + |WriteQuestions(xs)|, []);
    assert [] + AskedIn(off, xs) == AskedIn(off, xs);
  }

  ghost function FoundIn(off: nat, x: Question): seq<Asked>
  {
    if ForAddress(x) then [Asked(off, Joined(x.labels))] else []
  }

  lemma Regroup(a: seq<Asked>, b: seq<Asked>, c: seq<Asked>)
    ensures a + b + c == a + (b + c)
  {
  }

  lemma WalkStep(q: seq<byte>, off: nat, x: Question, n: nat, asked: seq<Asked>)
    requires QuestionOk(x) && Has(q, off, WriteQuestion(x)) && n > 0
    ensures Walk(q, off, n, asked)
         == Walk(q, off + |WriteQuestion(x)|, n - 1, asked + FoundIn(off, x))
  {
    QuestionRoundTrip(q, off, x);
    WalkOn(q, off, n, asked, true, off + |WriteQuestion(x)|, ForAddress(x), Joined(x.labels));
    assert asked + [] == asked;
  }

  /** One turn of the walk. */
  lemma WalkOn(q: seq<byte>, off: nat, n: nat, asked: seq<Asked>, ok: bool, next: nat, asks: bool, name: Name)
    requires n > 0 && ok == (off < |q| && NameEnd(q, off) >= 0 && NameEnd(q, off) + 4 < |q|)
    requires ok ==> next == NameEnd(q, off) + 5 && asks == (U16(q, next - 4) == 1 && U16(q, next - 2) == 1)
    requires ok && asks ==> name == NameAt(q, off)
    ensures Walk(q, off, n, asked) ==
      if !ok then Walked(false, off, asked)
        else Walk(q, next, n - 1, if asks then asked + [Asked(off, name)] else asked)
  {
  }

  lemma QuestionRoundTrip(q: seq<byte>, off: nat, x: Question)
    requires QuestionOk(x) && Has(q, off, WriteQuestion(x))
    ensures off < |q| && NameEnd(q, off) >= 0 && NameEnd(q, off) + 4 < |q| && NameAt(q, off) == Joined(x.labels)
    ensures var e := NameEnd(q, off) + 1;
      e + 4 == off + |WriteQuestion(x)| && U16(q, e) == x.qtype && U16(q, e + 2) == x.qclass
  {
    var e := off + |WriteName(x.labels)|;
    HasSplit(q, off, WriteName(x.labels), Bytes16(x.qtype) + Bytes16(x.qclass));
    HasSplit(q, e, Bytes16(x.qtype), Bytes16(x.qclass));
    WrittenName(q, off, x.labels);
    Bytes16RoundTrip(x.qtype, q, e);
    Bytes16RoundTrip(x.qclass, q, e + 2);
  }

  // Replies.

  /** A compression pointer. */
  function Pointer(at: nat): (v: nat)
    ensures 0xC000 <= v < 0x10000 && (v - 0xC000 == at <==> at < 0x4000)
  {
    0xC000 + at % 0x4000
  }

  /** An address record with a pointer to the name of its question: A, IN, one second. */
  function Record(at: nat, address: nat): (r: seq<byte>)
    ensures |r| == 16
  {
    Bytes16(Pointer(at)) + Bytes16(1) + Bytes16(1) + Bytes32(1) + Bytes16(4) + Bytes32(address)
  }

  function Records(asked: seq<Asked>, addresses: seq<nat>): (r: seq<byte>)
    requires |asked| == |addresses|
    ensures |r| == 16 * |asked|
  {
    if asked == [] then []
    else Records(asked[..|asked| - 1], addresses[..|asked| - 1]) + Record(asked[|asked| - 1].at, addresses[|asked| - 1])
  }

  /** A response to the request: the answer flag set, recursion available if it was desired. */
  function Header(q: seq<byte>, answers: nat): (r: seq<byte>)
    requires |q| >= 12
    ensures |r| == 12
  {
    q[..2] + [q[2] % 128 + 128, if q[2] % 2 == 1 then q[3] % 128 + 128 else q[3]] + q[4..6] + Bytes16(answers)
      + [0, 0, 0, 0]
  }

  function Reply(q: seq<byte>, off: nat, asked: seq<Asked>, addresses: seq<nat>): seq<byte>
    requires 12 <= off <= |q| && |asked| == |addresses|
  {
    Header(q, |asked|) + q[12..off] + Records(asked, addresses)
  }

  lemma {:induction false} RecordsAt(asked: seq<Asked>, addresses: seq<nat>, k: nat)
    requires |asked| == |addresses| && k < |asked|
    ensures Records(asked, addresses)[16 * k..16 * k + 16] == Record(asked[k].at, addresses[k])
    decreases |asked|
  {
    var n := |asked| - 1;
    var before := Records(asked[..n], addresses[..n]);
    if k < n {
      RecordsAt(asked[..n], addresses[..n], k);
      assert Records(asked, addresses)[16 * k..16 * k + 16] == before[16 * k..16 * k + 16];
    }
  }

  /** What a client finds in a reply: the questions as they were, and for each address asked for one record, in order,
      that points to the name of its own question. */
  lemma ReplyReads(q: seq<byte>, off: nat, asked: seq<Asked>, addresses: seq<nat>, k: nat)
    requires 12 <= off <= |q| && |asked| == |addresses| && k < |asked| < 65536
    ensures var r := Reply(q, off, asked, addresses);
      && |r| == off + 16 * |asked| && r[4..6] == q[4..6] && r[12..off] == q[12..off] && U16(r, 6) == |asked|
      && r[off + 16 * k..off + 16 * k + 16] == Record(asked[k].at, addresses[k])
      && (U16(r, off + 16 * k) - 0xC000 == asked[k].at <==> asked[k].at < 0x4000)
  {
    var r := Reply(q, off, asked, addresses);
    var at := off + 16 * k;
    RecordsAt(asked, addresses, k);
    assert r[off..] == Records(asked, addresses);
    assert r[at..at + 16] == r[off..][16 * k..16 * k + 16];
    HeaderReads(q, |asked|);
    assert r[..12] == Header(q, |asked|);
    assert r[4..6] == r[..12][4..6] && r[6..8] == r[..12][6..8];
    Bytes16RoundTrip(|asked|, r, 6);
    PointerReads(r, at, asked[k].at, addresses[k]);
  }

  lemma HeaderReads(q: seq<byte>, answers: nat)
    requires |q| >= 12
    ensures Header(q, answers)[4..6] == q[4..6] && Header(q, answers)[6..8] == Bytes16(answers)
  {
  }

  lemma PointerReads(r: seq<byte>, i: nat, at: nat, address: nat)
    requires i + 16 <= |r| && r[i..i + 16] == Record(at, address)
    ensures U16(r, i) == Pointer(at)
  {
    assert Record(at, address)[..2] == Bytes16(Pointer(at));
    assert r[i..i + 2] == r[i..i + 16][..2];
    Bytes16RoundTrip(Pointer(at), r, i);
  }
}

/** What answering several questions does to the cache. */
module DnsAnswers {
  import opened Wrappers
  import opened ByteOrder
  import opened LruCache
  import opened DnsWire

  ghost function Finds(asked: seq<Asked>): (r: seq<Op>)
    ensures |r| == |asked| && forall k :: 0 <= k < |asked| ==> r[k] == FindOp(asked[k].name)
  {
    seq(|asked|, k requires 0 <= k < |asked| => FindOp(asked[k].name))
  }

  /** The cache after the names were looked for, one after the other. */
  ghost function After(c: Cache, max: nat, asked: seq<Asked>): (r: Cache)
    requires Well(c, max) && max >= 1
    ensures Well(r, max)
  {
    Run(c, max, Finds(asked))
  }

  /** The index given for the k-th name. */
  ghost function IndexFor(c: Cache, max: nat, asked: seq<Asked>, k: nat): nat
    requires Well(c, max) && max >= 1 && k < |asked|
  {
    Find(After(c, max, asked[..k]), max, asked[k].name).1
  }

  ghost function Given(c: Cache, max: nat, net: nat, asked: seq<Asked>): (r: seq<nat>)
    requires Well(c, max) && max >= 1
    ensures |r| == |asked| && forall k :: 0 <= k < |asked| ==> r[k] == net + IndexFor(c, max, asked, k)
  {
    seq(|asked|, k requires 0 <= k < |asked| => net + IndexFor(c, max, asked, k))
  }

  lemma AfterSnoc(c: Cache, max: nat, asked: seq<Asked>, a: Asked)
    requires Well(c, max) && max >= 1
    ensures After(c, max, asked + [a]) == Find(After(c, max, asked), max, a.name).0
  {
    assert Finds(asked + [a]) == Finds(asked) + [FindOp(a.name)];
    RunConcat(c, max, Finds(asked), [FindOp(a.name)]);
    RunOne(After(c, max, asked), max, FindOp(a.name));
  }

  lemma RunOne(c: Cache, max: nat, op: Op)
    requires Well(c, max) && max >= 1
    ensures Run(c, max, [op]) == Step(c, max, op)
  {
    StepKeeps(c, max, op);
    assert [op][1..] == [];
  }

  lemma {:induction false} RunConcat(c: Cache, max: nat, a: seq<Op>, b: seq<Op>)
    requires Well(c, max) && max >= 1
    ensures Run(c, max, a + b) == Run(Run(c, max, a), max, b)
    decreases |a|
  {
    if a == [] {
      assert a + b == b;
    } else {
      assert (a + b)[0] == a[0] && (a + b)[1..] == a[1..] + b;
      StepKeeps(c, max, a[0]);
      RunConcat(Step(c, max, a[0]), max, a[1..], b);
    }
  }

  lemma IndexStays(c: Cache, max: nat, asked: seq<Asked>, a: Asked, k: nat)
    requires Well(c, max) && max >= 1 && k <= |asked|
    ensures IndexFor(c, max, asked + [a], k)
         == if k < |asked| then IndexFor(c, max, asked, k) else Find(After(c, max, asked), max, a.name).1
  {
    assert (asked + [a])[..k] == asked[..k];
    assert asked[..|asked|] == asked;
  }

  lemma AfterOneMore(c: Cache, max: nat, net: nat, asked: seq<Asked>, a: Asked)
    requires Well(c, max) && max >= 1
    ensures After(c, max, asked + [a]) == Find(After(c, max, asked), max, a.name).0
    ensures Given(c, max, net, asked + [a]) == Given(c, max, net, asked)
      + [net + Find(After(c, max, asked), max, a.name).1]
  {
    AfterSnoc(c, max, asked, a);
    var left, right := Given(c, max, net, asked + [a]),
      Given(c, max, net, asked) + [net + Find(After(c, max, asked), max, a.name).1];
    forall k | 0 <= k < |left| ensures left[k] == right[k] {
      IndexStays(c, max, asked, a, k);
    }
  }

  /** The different names that are asked for. */
  ghost function NamesOf(asked: seq<Asked>): set<Name>
  {
    set k | 0 <= k < |asked| :: asked[k].name
  }

  lemma {:induction false} OnlyFound(c: Cache, max: nat, ops: seq<Op>, names: set<Name>)
    requires Well(c, max) && max >= 1 && forall k :: 0 <= k < |ops| ==> ops[k].FindOp? && ops[k].name in names
    ensures UsedBy(c, max, ops) <= names
    decreases |ops|
  {
    if ops != [] {
      StepKeeps(c, max, ops[0]);
      OnlyFound(Step(c, max, ops[0]), max, ops[1..], names);
    }
  }

  /** When the cache has a place for each name, every index still stands for its name at the end. */
  lemma AllSurvive(c: Cache, max: nat, asked: seq<Asked>, k: nat)
    requires Well(c, max) && max >= 1 && |NamesOf(asked)| <= max && k < |asked|
    ensures Lookup(After(c, max, asked), IndexFor(c, max, asked, k)).1 == Some(asked[k].name)
  {
    var x, c0, later := asked[k].name, After(c, max, asked[..k]), asked[k + 1..];
    var c1 := Find(c0, max, x).0;
    FindKeeps(c0, max, x);
    assert Finds(asked) == Finds(asked[..k]) + ([FindOp(x)] + Finds(later));
    RunConcat(c, max, Finds(asked[..k]), [FindOp(x)] + Finds(later));
    RunConcat(c0, max, [FindOp(x)], Finds(later));
    RunOne(c0, max, FindOp(x));
    OthersAreFewer(c1, max, asked, later, k);
    Survival(c0, max, x, Finds(later));
  }

  lemma OthersAreFewer(c: Cache, max: nat, asked: seq<Asked>, later: seq<Asked>, k: nat)
    requires Well(c, max) && max >= 1 && k < |asked| && later == asked[k + 1..]
    ensures |UsedBy(c, max, Finds(later)) - {asked[k].name}| < |NamesOf(asked)|
  {
    var x, names := asked[k].name, NamesOf(asked);
    forall j | 0 <= j < |later| ensures later[j].name in names {
      assert later[j] == asked[k + 1 + j];
    }
    OnlyFound(c, max, Finds(later), names);
    SubsetCount(UsedBy(c, max, Finds(later)) - {x}, names - {x});
  }

  ghost predicate EachLooksUp(c: Cache, max: nat, asked: seq<Asked>)
    requires Well(c, max) && max >= 1
  {
    forall k :: 0 <= k < |asked| ==> Lookup(After(c, max, asked), IndexFor(c, max, asked, k)).1 == Some(asked[k].name)
  }

  /** Every index given looks up to its name after the last question exactly when the different names asked for are no
      more than the places of the cache. */
  lemma SurviveExactly(c: Cache, max: nat, asked: seq<Asked>)
    requires Well(c, max) && max >= 1
    ensures EachLooksUp(c, max, asked) <==> |NamesOf(asked)| <= max
  {
    if |NamesOf(asked)| <= max {
      forall k | 0 <= k < |asked| ensures Lookup(After(c, max, asked), IndexFor(c, max, asked, k)).1
        == Some(asked[k].name) {
        AllSurvive(c, max, asked, k);
      }
    }
    if EachLooksUp(c, max, asked) {
      var names := After(c, max, asked).names;
      forall x | x in NamesOf(asked) ensures x in Elements(names) {
        var k :| 0 <= k < |asked| && asked[k].name == x;
        assert names[IndexFor(c, max, asked, k)] == x;
      }
      SubsetCount(NamesOf(asked), Elements(names));
      DistinctCount(names);
    }
  }

  /** With fewer places than questions an answer can be overtaken: two names share the only place. */
  lemma TooManyQuestions(x: Asked, y: Asked)
    requires x.name != y.name
    ensures Well(Cache([], []), 1) && IndexFor(Cache([], []), 1, [x, y], 0) == IndexFor(Cache([], []), 1, [x, y], 1)
    ensures Lookup(After(Cache([], []), 1, [x, y]), IndexFor(Cache([], []), 1, [x, y], 0)).1 != Some(x.name)
  {
    var c := Cache([], []);
    var c1, c2 := Cache([x.name], [x.name]), Cache([y.name], [y.name]);
    assert [x, y][..0] == [] && [x, y][..1] == [x] && [x][..0] == [];
    assert c.order + [x.name] == [x.name] && c.names + [x.name] == [x.name];
    assert Find(c, 1, x.name) == (c1, 0);
    AfterSnoc(c, 1, [], x);
    assert [] + [x] == [x] && Finds([]) == [] && After(c, 1, []) == c;
    assert c1.order[1..] + [y.name] == [y.name] && c1.names[0 := y.name] == [y.name];
    assert Find(c1, 1, y.name) == (c2, 0);
    AfterSnoc(c, 1, [x], y);
    assert [x] + [y] == [x, y];
    assert Lookup(c2, 0).1 == Some(y.name);
  }
}

/** Answering a request from the mapped addresses (hev-mapped-dns.c). */
module DnsHandler {
  import opened Wrappers
  import opened Addresses
  import opened ByteOrder
  import opened DnsWire
  import opened DnsAnswers
  import opened MappedDns
  import LruCache

  /** Some address that no node of the tree has; allocation succeeds here. */
  method NewNode(dns: Dns) returns (mem: Ref)
    ensures mem != NULL && mem !in dns.tree.s
  {
    UnusedRef(dns.tree.s.Keys);
    mem :| mem != NULL && mem !in dns.tree.s;
  }

  lemma UnusedRef(s: set<Ref>)
    ensures exists r: Ref :: r != NULL && r !in s
  {
    var b := AboveAll(s);
    assert b != NULL && b !in s;
  }

  lemma {:induction false} AboveAll(s: set<Ref>) returns (b: Ref)
    ensures b > 0 && forall r :: r in s ==> r < b
    decreases |s|
  {
    b := 1;
    if s != {} {
      var x :| x in s;
      var rest := AboveAll(s - {x});
      b := if x >= rest then x + 1 else rest;
      assert forall r :: r in s ==> r == x || r in s - {x};
    }
  }

  method Copy(req: array<byte>, qlen: nat, res: array<byte>)
    requires qlen <= req.Length && qlen <= res.Length && req != res
    modifies res
    ensures res[..qlen] == req[..qlen]
  {
    var i := 0;
    while i < qlen
      invariant 0 <= i <= qlen && res[..i] == req[..i]
    {
      res[i] := req[i];
      i := i + 1;
    }
  }

  /** Replaces the lengths of the name at `off` by dots; the end of the name, or -1. */
  method ReadName(req: array<byte>, qlen: nat, off: nat) returns (e: int)
    requires off < qlen <= req.Length
    modifies req
    ensures e == NameEnd(old(req[..qlen]), off)
    ensures e >= 0 ==> req[off..e] == Dots(old(req[..qlen]), off)
    ensures e >= 0 ==> forall j :: e <= j < qlen ==> req[j] == old(req[j])
  {
    ghost var q := req[..qlen];
    e := off;
    while req[e] != 0
      invariant off <= e < qlen && forall j :: e <= j < qlen ==> req[j] == q[j]
      invariant NameEnd(q, off) == NameEnd(q, e)
      invariant NameEnd(q, off) >= 0 ==> req[off..e] + Dots(q, e) == Dots(q, off)
      decreases qlen - e
    {
      var at := e;
      var next := e + 1 + req[e];
      if next >= qlen {
        return -1;
      }
      ghost var before := req[off..at];
      req[at] := DOT;
      assert req[off..at] == before && req[at + 1..next] == q[at + 1..next];
      assert req[off..next] == before + [DOT] + q[at + 1..next];
      NameGoesOn(q, off, at, next, before);
      e := next;
    }
  }

  lemma NameGoesOn(q: seq<byte>, off: nat, at: nat, next: nat, before: seq<byte>)
    requires off <= at < next < |q| && q[at] != 0 && next == at + 1 + q[at] && NameEnd(q, off) == NameEnd(q, at)
    requires NameEnd(q, off) >= 0 ==> before + Dots(q, at) == Dots(q, off)
    ensures NameEnd(q, off) == NameEnd(q, next)
    ensures NameEnd(q, off) >= 0 ==> (before + [DOT] + q[at + 1..next]) + Dots(q, next) == Dots(q, off)
  {
    NameStep(q, at, next);
    if NameEnd(q, off) >= 0 {
      DotsJoin(before, q[at + 1..next], Dots(q, next));
    }
  }

  lemma DotsJoin(a: seq<byte>, b: seq<byte>, c: seq<byte>)
    ensures (a + [DOT] + b) + c == a + ([DOT] + b + c)
  {
  }

  /** Reads a zero-terminated string. */
  method ReadString(req: array<byte>, qlen: nat, from: nat) returns (name: Name)
    requires from <= qlen <= req.Length
    ensures name == UpToNul(req[from..qlen])
  {
    var i := from;
    name := [];
    while i < qlen && req[i] != 0
      invariant from <= i <= qlen
      invariant UpToNul(req[from..qlen]) == name + UpToNul(req[i..qlen])
    {
      assert req[i..qlen][1..] == req[i + 1..qlen];
      name := name + [req[i]];
      i := i + 1;
    }
  }

  lemma {:induction false} StopsAtNul(a: seq<byte>, b: seq<byte>)
    requires b != [] && b[0] == 0
    ensures UpToNul(a + b) == UpToNul(a)
    decreases |a|
  {
    if a == [] {
      assert a + b == b;
    } else if a[0] != 0 {
      assert (a + b)[1..] == a[1..] + b;
      StopsAtNul(a[1..], b);
    }
  }

  /** After the dots are in place the string behind the first of them is the name of the question. */
  lemma StringIsName(q: seq<byte>, off: nat, r: seq<byte>)
    requires off < |q| == |r| && NameEnd(q, off) >= 0 && NameEnd(q, off) + 4 < |q|
    requires r[off..NameEnd(q, off)] == Dots(q, off) && forall j :: NameEnd(q, off) <= j < |q| ==> r[j] == q[j]
    requires U16(q, NameEnd(q, off) + 1) == 1
    ensures UpToNul(r[off + 1..]) == NameAt(q, off)
  {
    var e := NameEnd(q, off);
    if e == off {
      assert r[off + 1] == q[e + 1] == 0;
    } else {
      assert r[off + 1..] == r[off..e][1..] + r[e..];
      StopsAtNul(Dots(q, off)[1..], r[e..]);
    }
  }

  // The reply.

  method WriteU16(b: array<byte>, at: nat, v: nat)
    requires at + 2 <= b.Length
    modifies b
    ensures b[..] == old(b[..at]) + Bytes16(v) + old(b[at + 2..])
  {
    b[at] := v / 256 % 256;
    b[at + 1] := v % 256;
  }

  method WriteU32(b: array<byte>, at: nat, v: nat)
    requires at + 4 <= b.Length
    modifies b
    ensures b[..] == old(b[..at]) + Bytes32(v) + old(b[at + 4..])
  {
    b[at] := v / 16777216 % 256;
    b[at + 1] := v / 65536 % 256;
    b[at + 2] := v / 256 % 256;
    b[at + 3] := v % 256;
  }

  /** What a write of some bytes leaves of a buffer. */
  ghost predicate Written(after: seq<byte>, before: seq<byte>, at: nat, bytes: seq<byte>)
  {
    at + |bytes| <= |before| && after == before[..at] + bytes + before[at + |bytes|..]
  }

  lemma WrittenTwice(a: seq<byte>, b: seq<byte>, c: seq<byte>, at: nat, x: seq<byte>, y: seq<byte>)
    requires Written(b, a, at, x) && Written(c, b, at + |x|, y)
    ensures Written(c, a, at, x + y)
  {
    assert b[..at + |x|] == a[..at] + x;
    assert b[at + |x| + |y|..] == a[at + |x| + |y|..];
  }

  method WriteRecord(b: array<byte>, at: nat, pointer: nat, address: nat)
    requires at + 16 <= b.Length
    modifies b
    ensures Written(b[..], old(b[..]), at, Record(pointer, address))
  {
    ghost var b0 := b[..];
    WriteU16(b, at, Pointer(pointer));
    ghost var b1 := b[..];
    WriteU16(b, at + 2, 1);
    ghost var b2 := b[..];
    WriteU16(b, at + 4, 1);
    ghost var b3 := b[..];
    WriteU32(b, at + 6, 1);
    ghost var b4 := b[..];
    WriteU16(b, at + 10, 4);
    ghost var b5 := b[..];
    WriteU32(b, at + 12, address);
    RecordWritten(b0, b1, b2, b3, b4, b5, b[..], at, pointer, address);
  }

  lemma RecordWritten(b0: seq<byte>, b1: seq<byte>, b2: seq<byte>, b3: seq<byte>, b4: seq<byte>, b5: seq<byte>,
                      b6: seq<byte>, at: nat, pointer: nat, address: nat)
    requires Written(b1, b0, at, Bytes16(Pointer(pointer))) && Written(b2, b1, at + 2, Bytes16(1))
      && Written(b3, b2, at + 4, Bytes16(1))
    requires Written(b4, b3, at + 6, Bytes32(1)) && Written(b5, b4, at + 10, Bytes16(4))
      && Written(b6, b5, at + 12, Bytes32(address))
    ensures Written(b6, b0, at, Record(pointer, address))
  {
    var p := Bytes16(Pointer(pointer));
    WrittenTwice(b0, b1, b2, at, p, Bytes16(1));
    WrittenTwice(b0, b2, b3, at, p + Bytes16(1), Bytes16(1));
    WrittenTwice(b0, b3, b4, at, p + Bytes16(1) + Bytes16(1), Bytes32(1));
    WrittenTwice(b0, b4, b5, at, p + Bytes16(1) + Bytes16(1) + Bytes32(1), Bytes16(4));
    WrittenTwice(b0, b5, b6, at, p + Bytes16(1) + Bytes16(1) + Bytes32(1) + Bytes16(4), Bytes32(address));
  }

  ghost function Ats(asked: seq<Asked>): (r: seq<nat>)
    ensures |r| == |asked| && forall k :: 0 <= k < |asked| ==> r[k] == asked[k].at
  {
    seq(|asked|, k requires 0 <= k < |asked| => asked[k].at)
  }

  /** Writes the records from `off` on, as long as there is room. */
  method WriteRecords(res: array<byte>, slen: nat, off: nat, ats: seq<nat>, addresses: seq<nat>,
                      ghost asked: seq<Asked>) returns (n: int)
    requires off <= slen <= res.Length && |ats| == |addresses| && ats == Ats(asked)
    modifies res
    ensures if off + 16 * |ats| <= slen then n == off + 16 * |ats| else n == -1
    ensures n >= 0 ==> res[..n] == old(res[..off]) + Records(asked, addresses)
  {
    var i := 0;
    n := off;
    assert Records(asked[..0], addresses[..0]) == [];
    while i < |ats|
      invariant 0 <= i <= |ats| && n == off + 16 * i <= slen
      invariant res[..n] == old(res[..off]) + Records(asked[..i], addresses[..i])
    {
      if n + 15 >= slen {
        return -1;
      }
      ghost var before := res[..];
      WriteRecord(res, n, ats[i], addresses[i]);
      assert res[..n + 16] == before[..n] + Record(ats[i], addresses[i]);
      RecordsSnoc(asked, addresses, i);
      n := n + 16;
      i := i + 1;
    }
    assert asked[..i] == asked && addresses[..i] == addresses;
  }

  lemma RecordsSnoc(asked: seq<Asked>, addresses: seq<nat>, i: nat)
    requires |asked| == |addresses| && i < |asked|
    ensures Records(asked[..i + 1], addresses[..i + 1]) == Records(asked[..i], addresses[..i])
      + Record(asked[i].at, addresses[i])
  {
    assert asked[..i + 1][..i] == asked[..i] && addresses[..i + 1][..i] == addresses[..i];
  }

  /** Turns the copied header into that of the reply. */
  method WriteHeader(res: array<byte>, n: nat, answers: nat, ghost q: seq<byte>)
    requires 12 <= n <= res.Length && |q| >= 12 && res[..6] == q[..6]
    modifies res
    ensures res[..n] == Header(q, answers) + old(res[12..n])
  {
    var f, g := res[2], res[3];
    res[2] := f % 128 + 128;
    res[3] := if f % 2 == 1 then g % 128 + 128 else g;
    res[6] := answers / 256 % 256;
    res[7] := answers % 256;
    res[8], res[9], res[10], res[11] := 0, 0, 0, 0;
    HeaderWritten(old(res[..n]), res[..n], q, answers);
  }

  lemma HeaderWritten(before: seq<byte>, after: seq<byte>, q: seq<byte>, answers: nat)
    requires |before| == |after| >= 12 && |q| >= 12 && before[..6] == q[..6]
    requires after[0] == before[0] && after[1] == before[1] && after[4] == before[4] && after[5] == before[5]
    requires after[2] == before[2] % 128 + 128 && after[3] == if before[2] % 2 == 1 then before[3] % 128 + 128
      else before[3]
    requires after[6] == answers / 256 % 256 && after[7] == answers % 256
    requires after[8] == after[9] == after[10] == after[11] == 0
    requires forall k :: 12 <= k < |before| ==> after[k] == before[k]
    ensures after == Header(q, answers) + before[12..]
  {
    var h := Header(q, answers);
    forall k | 0 <= k < 6 ensures before[k] == q[k] {
      assert before[..6][k] == q[..6][k];
    }
    assert h[..2] == q[..2] && h[4..6] == q[4..6] && h[6..8] == Bytes16(answers);
    assert h[0] == h[..2][0] && h[1] == h[..2][1] && h[4] == h[4..6][0] && h[5] == h[4..6][1] && h[6] == h[6..8][0]
      && h[7] == h[6..8][1];
    forall k | 0 <= k < |after| ensures after[k] == (h + before[12..])[k] {
    }
  }

  // The request.

  /** Reads one question; `asked` tells whether it is for an address, and then gives its name. */
  method ReadQuestion(req: array<byte>, qlen: nat, off: nat) returns (ok: bool, next: nat, asks: bool, name: Name)
    requires qlen <= req.Length
    modifies req
    ensures var q := old(req[..qlen]);
      && ok == (off < qlen && NameEnd(q, off) >= 0 && NameEnd(q, off) + 4 < qlen)
      && (ok ==>
          && next == NameEnd(q, off) + 5 && asks == (U16(q, next - 4) == 1 && U16(q, next - 2) == 1)
          && (asks ==> name == NameAt(q, off)) && forall j :: next <= j < qlen ==> req[j] == q[j])
  {
    ok, next, asks, name := false, 0, false, [];
    if off >= qlen {
      return;
    }
    ghost var q := req[..qlen];
    var e := ReadName(req, qlen, off);
    if e < 0 || e + 4 >= qlen {
      return;
    }
    var type_, class_ := U16(req[..], e + 1), U16(req[..], e + 3);
    ok, next, asks := true, e + 5, type_ == 1 && class_ == 1;
    assert U16(q, e + 1) == type_ && U16(q, e + 3) == class_;
    if asks {
      StringIsName(q, off, req[..qlen]);
      assert req[off + 1..qlen] == req[..qlen][off + 1..];
      name := ReadString(req, qlen, off + 1);
    }
  }

  /** Reads the questions and finds an address for each one that asks for it. */
  method ReadQuestions(dns: Dns, req: array<byte>, qlen: nat, count: nat)
    returns (ok: bool, off: nat, ats: seq<nat>, addresses: seq<nat>)
    requires dns.Valid() && dns.max >= 1 && 12 <= qlen <= req.Length
    modifies req, dns, dns.list, dns.tree, dns.records
    ensures dns.Valid()
    ensures var w := Walk(old(req[..qlen]), 12, count, []);
      && ok == w.ok && dns.Cache() == After(old(dns.Cache()), dns.max, w.asked)
      && (ok ==> off == w.off && 12 <= off <= qlen && ats == Ats(w.asked)
                 && addresses == Given(old(dns.Cache()), dns.max, dns.net, w.asked))
  {
    ghost var q, c, asked := req[..qlen], dns.Cache(), [];
    off, ats, addresses := 12, [], [];
    NoProgress(dns, q, count);
    var i := 0;
    while i < count
      invariant 0 <= i <= count && Rest(req, q, off)
        && Progress(dns, c, q, count, off, count - i, asked, ats, addresses)
    {
      ok, off, ats, addresses, asked := ReadOn(dns, req, qlen, off, ats, addresses, c, q, count, count - i, asked);
      if !ok {
        return;
      }
      i := i + 1;
    }
    ok := true;
    AllRead(dns, c, q, count, off, asked, ats, addresses);
  }

  lemma AllRead(dns: Dns, c: LruCache.Cache, q: seq<byte>, count: nat, off: nat, asked: seq<Asked>, ats: seq<nat>,
                addresses: seq<nat>)
    requires Progress(dns, c, q, count, off, 0, asked, ats, addresses)
    ensures Walk(q, 12, count, []) == Walked(true, off, asked)
  {
  }

  /** The questions up to `off` are read, and `left` of them remain. */
  ghost predicate Progress(dns: Dns, c: LruCache.Cache, q: seq<byte>, count: nat, off: nat, left: nat,
                           asked: seq<Asked>, ats: seq<nat>, addresses: seq<nat>)
    reads dns, dns.list, dns.tree, dns.records
  {
    && dns.Valid() && dns.max >= 1 && LruCache.Well(c, dns.max) && 12 <= off <= |q|
    && Walk(q, off, left, asked) == Walk(q, 12, count, [])
    && dns.Cache() == After(c, dns.max, asked) && ats == Ats(asked) && addresses == Given(c, dns.max, dns.net, asked)
  }

  lemma NoProgress(dns: Dns, q: seq<byte>, count: nat)
    requires dns.Valid() && dns.max >= 1 && 12 <= |q|
    ensures Progress(dns, dns.Cache(), q, count, 12, count, [], [], [])
  {
  }

  method ReadOn(dns: Dns, req: array<byte>, qlen: nat, off: nat, ats: seq<nat>, addresses: seq<nat>,
                ghost c: LruCache.Cache, ghost q: seq<byte>, ghost count: nat, ghost left: nat, ghost asked: seq<Asked>)
    returns (ok: bool, next: nat, ats': seq<nat>, addresses': seq<nat>, ghost asked': seq<Asked>)
    requires |q| == qlen && left > 0 && Rest(req, q, off)
      && Progress(dns, c, q, count, off, left, asked, ats, addresses)
    modifies req, dns, dns.list, dns.tree, dns.records
    ensures ok ==> Rest(req, q, next) && Progress(dns, c, q, count, next, left - 1, asked', ats', addresses')
    ensures !ok ==>
      dns.Valid() && Walk(q, 12, count, []) == Walked(false, off, asked') && dns.Cache() == After(c, dns.max, asked')
  {
    var at, address;
    ok, next, at, address, asked' := ReadOne(dns, req, qlen, off, q, c, asked, left);
    ats', addresses' := ats + at, addresses + address;
  }

  ghost predicate Rest(req: array<byte>, q: seq<byte>, off: nat)
    reads req
  {
    |q| <= req.Length && forall j :: off <= j < |q| ==> req[j] == q[j]
  }

  /** The question as it stands in the request that was received. */
  method ReadQuestionOf(req: array<byte>, qlen: nat, off: nat, ghost q: seq<byte>)
    returns (ok: bool, next: nat, asks: bool, name: Name)
    requires |q| == qlen && Rest(req, q, off)
    modifies req
    ensures ok == (off < qlen && NameEnd(q, off) >= 0 && NameEnd(q, off) + 4 < qlen)
    ensures ok ==>
      next == NameEnd(q, off) + 5 && asks == (U16(q, next - 4) == 1 && U16(q, next - 2) == 1)
      && (asks ==> name == NameAt(q, off))
    ensures ok ==> off < next <= qlen && Rest(req, q, next)
  {
    ghost var now := req[..qlen];
    ok, next, asks, name := ReadQuestion(req, qlen, off);
    SameQuestion(q, now, off);
  }

  /** One turn of the loop over the questions. */
  method ReadOne(dns: Dns, req: array<byte>, qlen: nat, off: nat, ghost q: seq<byte>, ghost c: LruCache.Cache,
                 ghost asked: seq<Asked>, ghost n: nat)
    returns (ok: bool, next: nat, at: seq<nat>, address: seq<nat>, ghost asked': seq<Asked>)
    requires dns.Valid() && dns.max >= 1 && |q| == qlen && off <= qlen && n > 0 && Rest(req, q, off)
    requires LruCache.Well(c, dns.max) && dns.Cache() == After(c, dns.max, asked)
    modifies req, dns, dns.list, dns.tree, dns.records
    ensures dns.Valid() && dns.Cache() == After(c, dns.max, asked')
    ensures !ok ==> Walk(q, off, n, asked) == Walked(false, off, asked')
    ensures ok ==> Walk(q, off, n, asked) == Walk(q, next, n - 1, asked') && off < next <= qlen && Rest(req, q, next)
    ensures ok ==>
      Ats(asked') == Ats(asked) + at
      && Given(c, dns.max, dns.net, asked') == Given(c, dns.max, dns.net, asked) + address
  {
    at, address, asked' := [], [], asked;
    var asks, name;
    ok, next, asks, name := ReadQuestionOf(req, qlen, off, q);
    WalkOn(q, off, n, asked, ok, next, asks, name);
    if ok && asks {
      at, address, asked' := Answer(dns, Asked(off, name), c, asked);
    }
  }

  /** The part of a turn that looks for an address. */
  method Answer(dns: Dns, a: Asked, ghost c: LruCache.Cache, ghost asked: seq<Asked>)
    returns (at: seq<nat>, address: seq<nat>, ghost asked': seq<Asked>)
    requires dns.Valid() && dns.max >= 1 && LruCache.Well(c, dns.max) && dns.Cache() == After(c, dns.max, asked)
    modifies dns, dns.list, dns.tree, dns.records
    ensures dns.Valid() && dns.Cache() == After(c, dns.max, asked') && asked' == asked + [a]
    ensures Ats(asked') == Ats(asked) + at
      && Given(c, dns.max, dns.net, asked') == Given(c, dns.max, dns.net, asked) + address
  {
    var found := FindAddress(dns, a, c, asked);
    at, address, asked' := [a.at], [found], asked + [a];
    AtsSnoc(asked, a);
  }

  lemma AtsSnoc(asked: seq<Asked>, a: Asked)
    ensures Ats(asked + [a]) == Ats(asked) + [a.at]
  {
  }

  method FindAddress(dns: Dns, a: Asked, ghost c: LruCache.Cache, ghost asked: seq<Asked>) returns (address: nat)
    requires dns.Valid() && dns.max >= 1 && LruCache.Well(c, dns.max) && dns.Cache() == After(c, dns.max, asked)
    modifies dns, dns.list, dns.tree, dns.records
    ensures dns.Valid() && dns.Cache() == After(c, dns.max, asked + [a])
    ensures Given(c, dns.max, dns.net, asked + [a]) == Given(c, dns.max, dns.net, asked) + [address]
  {
    AfterOneMore(c, dns.max, dns.net, asked, a);
    var mem := NewNode(dns);
    var idx := dns.Find(a.name, mem);
    address := dns.net + idx;
  }

  /** A question depends only on the bytes from its start on. */
  lemma {:induction false} SameQuestion(q: seq<byte>, r: seq<byte>, off: nat)
    requires |q| == |r| && forall j :: off <= j < |q| ==> r[j] == q[j]
    ensures off < |q| ==> NameEnd(r, off) == NameEnd(q, off)
    ensures off < |q| && NameEnd(q, off) >= 0 ==> Dots(r, off) == Dots(q, off) && NameAt(r, off) == NameAt(q, off)
    ensures forall j :: off <= j < |q| - 1 ==> U16(r, j) == U16(q, j)
    decreases |q| - off
  {
    if off < |q| && q[off] != 0 {
      var next := off + 1 + q[off];
      if next < |q| {
        SameQuestion(q, r, next);
        assert q[off + 1..next] == r[off + 1..next];
      }
    }
  }

  /** Answers a request: refuses it, or writes the reply and returns its length. The cache has then looked for exactly
      the names asked for, in order. */
  method Handle(dns: Dns, req: array<byte>, qlen: nat, res: array<byte>, slen: nat) returns (n: int)
    requires dns.Valid() && dns.max >= 1 && qlen <= req.Length && slen <= res.Length && req != res
    modifies req, res, dns, dns.list, dns.tree, dns.records
    ensures dns.Valid()
    ensures slen < qlen || qlen < 12 || U16(old(req[..qlen]), 4) > 32 ==> n == -1 && dns.Cache() == old(dns.Cache())
    ensures qlen >= 12 && slen >= qlen && U16(old(req[..qlen]), 4) <= 32 ==>
      Answered(old(req[..qlen]), slen, old(dns.Cache()), dns.max, dns.net, dns.Cache(), n, res[..])
  {
    if slen < qlen || qlen < 12 {
      return -1;
    }
    ghost var q, c := req[..qlen], dns.Cache();
    Copy(req, qlen, res);
    var count := U16(req[..], 4);
    assert U16(q, 4) == count;
    if count > 32 {
      return -1;
    }
    ghost var w := Walk(q, 12, count, []);
    var ok, off, ats, addresses := ReadQuestions(dns, req, qlen, count);
    if !ok {
      return -1;
    }
    assert res[..qlen][..off] == res[..off];
    n := WriteReply(res, slen, off, ats, addresses, q, w.asked);
  }

  /** Records and header, once the request has been copied. */
  method WriteReply(res: array<byte>, slen: nat, off: nat, ats: seq<nat>, addresses: seq<nat>, ghost q: seq<byte>,
                    ghost asked: seq<Asked>)
    returns (n: int)
    requires 12 <= off <= slen <= res.Length && off <= |q| && |ats| == |addresses| && ats == Ats(asked)
      && res[..off] == q[..off]
    modifies res
    ensures if off + 16 * |ats| <= slen then n == off + 16 * |ats| else n == -1
    ensures n >= 0 ==> res[..n] == Reply(q, off, asked, addresses)
  {
    n := WriteRecords(res, slen, off, ats, addresses, asked);
    if n >= 0 {
      ghost var records := Records(asked, addresses);
      ReplyBody(res[..n], q, off, records);
      assert res[..6] == res[..n][..6] && res[12..n] == res[..n][12..];
      WriteHeader(res, n, |ats|, q);
      assert Header(q, |ats|) + (q[12..off] + records) == Header(q, |ats|) + q[12..off] + records;
    }
  }

  lemma ReplyBody(r: seq<byte>, q: seq<byte>, off: nat, records: seq<byte>)
    requires 12 <= off <= |q| && r == q[..off] + records
    ensures r[..6] == q[..6] && r[12..] == q[12..off] + records
  {
    assert r[..6] == q[..off][..6];
    assert r[12..] == q[..off][12..] + records;
  }

  /** What becomes of a request that is not refused at once. */
  ghost predicate Answered(q: seq<byte>, slen: nat, before: LruCache.Cache, max: nat, net: nat, after: LruCache.Cache,
                           n: int, res: seq<byte>)
    requires |q| >= 12 && max >= 1 && LruCache.Well(before, max)
  {
    var w := Walk(q, 12, U16(q, 4), []);
    && after == After(before, max, w.asked)
    && (if w.ok && w.off + 16 * |w.asked| <= slen then n == w.off + 16 * |w.asked| else n == -1)
    && (n >= 0 ==>
        12 <= w.off <= |q| && n <= |res| && res[..n] == Reply(q, w.off, w.asked, Given(before, max, net, w.asked)))
  }

  /** Every address in a reply looks up to the name asked for exactly when the cache has a place for each different
      name. */
  lemma RepliesLookUp(q: seq<byte>, slen: nat, before: LruCache.Cache, max: nat, block: nat, hosts: nat,
                      after: LruCache.Cache, n: int, res: seq<byte>)
    requires |q| >= 12 && 1 <= max < hosts && LruCache.Well(before, max)
    requires Answered(q, slen, before, max, block * hosts, after, n, res) && n >= 0
    ensures var asked := Walk(q, 12, U16(q, 4), []).asked;
      LookUpAll(after, Given(before, max, block * hosts, asked), hosts, asked) <==> |NamesOf(asked)| <= max
  {
    GivenLookUp(before, max, block, hosts, Walk(q, 12, U16(q, 4), []).asked);
  }

  /** The host part of each address leads to the record with the name asked for. */
  ghost predicate LookUpAll(c: LruCache.Cache, addresses: seq<nat>, hosts: nat, asked: seq<Asked>)
    requires |addresses| == |asked| && hosts > 0
  {
    forall k :: 0 <= k < |asked| ==> LooksUp(c, addresses[k] % hosts, asked[k].name)
  }

  ghost predicate LooksUp(c: LruCache.Cache, i: nat, name: Name)
  {
    && (forall y :: y in c.names ==> y in c.order)
    && LruCache.Lookup(c, i).1 == Some(name)
  }

  lemma GivenLookUp(c: LruCache.Cache, max: nat, block: nat, hosts: nat, asked: seq<Asked>)
    requires 1 <= max < hosts && LruCache.Well(c, max)
    ensures LookUpAll(After(c, max, asked), Given(c, max, block * hosts, asked), hosts, asked) <==>
      |NamesOf(asked)| <= max
  {
    var addresses := Given(c, max, block * hosts, asked);
    forall k | 0 <= k < |asked| ensures addresses[k] % hosts == IndexFor(c, max, asked, k) {
      GivenIndex(c, max, block, hosts, asked, k);
    }
    SameLookUps(c, max, hosts, asked, addresses);
    SurviveExactly(c, max, asked);
  }

  lemma GivenIndex(c: LruCache.Cache, max: nat, block: nat, hosts: nat, asked: seq<Asked>, k: nat)
    requires 1 <= max < hosts && LruCache.Well(c, max) && k < |asked|
    ensures Given(c, max, block * hosts, asked)[k] % hosts == IndexFor(c, max, asked, k)
  {
    LruCache.FindKeeps(After(c, max, asked[..k]), max, asked[k].name);
    AddressIndex(block, hosts, IndexFor(c, max, asked, k));
  }

  lemma SameLookUps(c: LruCache.Cache, max: nat, hosts: nat, asked: seq<Asked>, addresses: seq<nat>)
    requires 1 <= max < hosts && LruCache.Well(c, max) && |addresses| == |asked|
    requires forall k :: 0 <= k < |asked| ==> addresses[k] % hosts == IndexFor(c, max, asked, k)
    ensures LookUpAll(After(c, max, asked), addresses, hosts, asked) <==> EachLooksUp(c, max, asked)
  {
    var d := After(c, max, asked);
    if LookUpAll(d, addresses, hosts, asked) {
      forall k | 0 <= k < |asked| ensures LruCache.Lookup(d, IndexFor(c, max, asked, k)).1 == Some(asked[k].name) {
        assert LooksUp(d, addresses[k] % hosts, asked[k].name);
      }
    }
    if EachLooksUp(c, max, asked) {
      forall k | 0 <= k < |asked| ensures LooksUp(d, addresses[k] % hosts, asked[k].name) {
        assert LruCache.Lookup(d, IndexFor(c, max, asked, k)).1 == Some(asked[k].name);
      }
    }
  }
}
