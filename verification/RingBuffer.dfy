/** The three-stage ring buffer of hev-ring-buffer.c: written, handed out for reading, released. */
module RingBuffer {
  import opened ByteOrder

  /** Index arithmetic on a circle of `max` places, for offsets of less than one turn. */
  function Wrap(i: nat, max: nat): nat
  {
    if i >= max then i - max else i
  }

  /** The remainder that the source takes is one subtraction at most. */
  lemma WrapIsMod(i: nat, max: nat)
    requires i < 2 * max
    ensures i % max == Wrap(i, max)
  {
    if i >= max {
      assert i == (i - max) + max;
      assert i / max == 1;
    } else {
      assert i / max == 0;
    }
  }

  /** A piece of the buffer: where it starts and how long it is. */
  datatype Span = Span(off: nat, len: nat)

  /** The places that a list of spans covers, in order. */
  function Places(spans: seq<Span>): seq<nat>
  {
    if spans == [] then [] else SpanPlaces(spans[0]) + Places(spans[1..])
  }

  function SpanPlaces(span: Span): (r: seq<nat>)
    ensures |r| == span.len && forall i :: 0 <= i < span.len ==> r[i] == span.off + i
  {
    seq<nat>(span.len, i requires 0 <= i < span.len => span.off + i)
  }

  /** `n` consecutive places on the circle, starting at `from`. */
  function Arc(from: nat, n: nat, max: nat): (r: seq<nat>)
    requires from < max || n == 0
    requires n <= max
    ensures |r| == n && forall i :: 0 <= i < n ==> r[i] == Wrap(from + i, max) && 0 <= r[i] < max
  {
    seq<nat>(n, i requires 0 <= i < n => Wrap(from + i, max))
  }

  /** The one or two spans in which both `reading` and `writing` describe an arc. */
  function ArcSpans(from: nat, n: nat, max: nat): seq<Span>
    requires from <= max
  {
    if n == 0 then []
    else if n <= max - from then [Span(from, n)]
    else [Span(from, max - from), Span(0, n - (max - from))]
  }

  lemma ArcSpansCover(from: nat, n: nat, max: nat)
    requires from < max && n <= max
    ensures Places(ArcSpans(from, n, max)) == Arc(from, n, max)
  {
    var spans := ArcSpans(from, n, max);
    if |spans| == 1 {
      assert spans[1..] == [];
    } else if |spans| == 2 {
      assert spans[1..] == [spans[1]] && spans[1..][1..] == [];
      assert Places(spans[1..]) == SpanPlaces(spans[1]) + Places(spans[1..][1..]);
      assert Places(spans) == SpanPlaces(spans[0]) + SpanPlaces(spans[1]);
    }
  }

  class Ring {
    const data: array<byte>
    const max: nat
    var rp: nat
    var wp: nat
    var rda: nat
    var use: nat

    /** Of the `use` bytes held, the last `rda` are not handed out yet; reads start at `rp`, writes at `wp`. */
    ghost predicate Valid()
      reads this
    {
      && data.Length == max && rda <= use <= max
      && (if max == 0 then rp == wp == 0 else rp < max && wp == Wrap(rp + rda, max))
    }

    constructor (size: nat)
      ensures Valid() && fresh(data) && max == size && use == rda == rp == wp == 0
    {
      max, rp, wp, rda, use := size, 0, 0, 0, 0;
      data := new byte[size](i => 0);
    }

    method Reading() returns (spans: seq<Span>)
      requires Valid()
      ensures spans == ArcSpans(rp, rda, max)
      ensures max > 0 ==> Places(spans) == Arc(rp, rda, max)
    {
      if max > 0 {
        ArcSpansCover(rp, rda, max);
      }
      if rda == 0 {
        return [];
      }
      var upper := max - rp;
      if rda <= upper {
        return [Span(rp, rda)];
      }
      return [Span(rp, upper), Span(0, rda - upper)];
    }

    method Writing() returns (spans: seq<Span>)
      requires Valid()
      ensures spans == ArcSpans(wp, max - use, max)
      ensures max > 0 ==> Places(spans) == Arc(wp, max - use, max)
    {
      if max > 0 {
        ArcSpansCover(wp, max - use, max);
      }
      if use == max {
        return [];
      }
      var upper, space := max - wp, max - use;
      if space <= upper {
        return [Span(wp, space)];
      }
      return [Span(wp, upper), Span(0, space - upper)];
    }

    method ReadFinish(size: nat)
      requires Valid() && size <= rda && max > 0
      modifies this
      ensures Valid() && rp == Wrap(old(rp) + size, max) && rda == old(rda) - size && use == old(use) && wp == old(wp)
    {
      WrapIsMod(rp + size, max);
      rp := (rp + size) % max;
      rda := rda - size;
    }

    method ReadRelease(size: nat)
      requires Valid() && size <= use - rda
      modifies this
      ensures Valid() && use == old(use) - size && rda == old(rda)
      ensures if use == 0 then rp == wp == 0 else rp == old(rp) && wp == old(wp)
    {
      use := use - size;
      if use == 0 {
        rp := 0;
        wp := 0;
      }
    }

    method WriteFinish(size: nat)
      requires Valid() && size <= max - use && max > 0
      modifies this
      ensures Valid() && wp == Wrap(old(wp) + size, max) && rp == old(rp)
      ensures use == old(use) + size && rda == old(rda) + size
    {
      WrapIsMod(wp + size, max);
      wp := (wp + size) % max;
      use := use + size;
      rda := rda + size;
    }
  }
}

/** The return path of hev-socks5-session-tcp.c: socket to ring buffer to lwIP, without copying. */
module ReturnPath {
  import opened ByteOrder
  import opened RingBuffer

  /** The largest buffer the configuration admits, TCP_SND_BUF of the lwIP port. */
  const MAX_BUFFER: nat := 8 * 8191

  /** `tcp_write` takes a 16-bit length. */
  function Length16(len: nat): nat
  {
    len % 65536
  }

  /** The place of byte `j` of the stream, when byte `next` is at `rp`. */
  function PlaceOf(rp: nat, next: nat, j: nat, max: nat): int
  {
    if rp + j >= next + max then rp + j - next - max
    else if rp + j >= next then rp + j - next
    else rp + j - next + max
  }

  /** Byte `j` of the stream is in the buffer, at its place. */
  ghost predicate Kept(d: seq<byte>, rp: nat, next: nat, received: seq<byte>, j: nat)
    requires j < |received|
  {
    var p := PlaceOf(rp, next, j, |d|);
    0 <= p < |d| && d[p] == received[j]
  }

  /** All bytes from `acked` on are in the buffer. */
  ghost predicate AllKept(d: seq<byte>, rp: nat, next: nat, received: seq<byte>, acked: nat)
  {
    forall j {:trigger Kept(d, rp, next, received, j)} :: acked <= j < |received| ==> Kept(d, rp, next, received, j)
  }

  /** The places lwIP was given for the unacknowledged bytes are where these bytes are. */
  ghost predicate PlacesKept(rp: nat, max: nat, places: seq<nat>, acked: nat)
  {
    forall j :: acked <= j < |places| ==> places[j] == PlaceOf(rp, |places|, j, max)
  }

  lemma FillKeeps(d: seq<byte>, d': seq<byte>, rp: nat, wp: nat, sent: nat, received: seq<byte>, acked: nat,
                  input: seq<byte>)
    requires acked <= sent <= |received| && |d'| == |d| && rp < |d| && |received| - acked + |input| <= |d|
    requires wp == Wrap(rp + (|received| - sent), |d|)
    requires AllKept(d, rp, sent, received, acked)
    requires forall i :: 0 <= i < |input| ==> d'[Arc(wp, |input|, |d|)[i]] == input[i]
    requires forall p :: 0 <= p < |d| && p !in Arc(wp, |input|, |d|) ==> d'[p] == d[p]
    ensures AllKept(d', rp, sent, received + input, acked)
  {
    var arc := Arc(wp, |input|, |d|);
    forall j {:trigger Kept(d', rp, sent, received + input, j)} | acked <= j < |received + input|
      ensures Kept(d', rp, sent, received + input, j)
    {
      var p := PlaceOf(rp, sent, j, |d|);
      if j < |received| {
        assert Kept(d, rp, sent, received, j);
        assert p !in arc;
      } else {
        assert p == arc[j - |received|];
      }
    }
  }

  /** What lwIP reads from the spans it is given. */
  function Gather(d: seq<byte>, places: seq<nat>): seq<byte>
    requires forall i :: 0 <= i < |places| ==> places[i] < |d|
  {
    seq(|places|, i requires 0 <= i < |places| => d[places[i]])
  }

  /** Moving `rp` past the bytes handed out leaves every byte at its place. */
  lemma HandKeeps(d: seq<byte>, rp: nat, rp': nat, received: seq<byte>, acked: nat, places: seq<nat>)
    requires acked <= |places| <= |received| && |received| - acked <= |d| && rp < |d|
    requires rp' == Wrap(rp + (|received| - |places|), |d|)
    requires AllKept(d, rp, |places|, received, acked) && PlacesKept(rp, |d|, places, acked)
    ensures AllKept(d, rp', |received|, received, acked)
    ensures var arc := Arc(rp, |received| - |places|, |d|);
      && PlacesKept(rp', |d|, places + arc, acked)
      && Gather(d, arc) == received[|places|..]
  {
    var arc := Arc(rp, |received| - |places|, |d|);
    forall j {:trigger Kept(d, rp', |received|, received, j)} | acked <= j < |received|
      ensures Kept(d, rp', |received|, received, j)
    {
      assert Kept(d, rp, |places|, received, j);
    }
    forall i | 0 <= i < |arc|
      ensures d[arc[i]] == received[|places| + i]
    {
      assert Kept(d, rp, |places|, received, |places| + i);
    }
    assert Gather(d, arc) == received[|places|..];
  }

  /** lwIP was given exactly the bytes received so far, in order, and every byte not acknowledged still has its value at
      the place that lwIP knows. */
  ghost predicate Intact(d: seq<byte>, rp: nat, received: seq<byte>, acked: nat, sent: seq<byte>, places: seq<nat>)
  {
    && acked <= |sent| <= |received| && |places| == |sent| && sent == received[..|sent|]
    && AllKept(d, rp, |sent|, received, acked) && PlacesKept(rp, |d|, places, acked)
  }

  lemma FillIntact(d: seq<byte>, d': seq<byte>, rp: nat, wp: nat, received: seq<byte>, acked: nat, sent: seq<byte>,
                   places: seq<nat>, input: seq<byte>)
    requires Intact(d, rp, received, acked, sent, places)
    requires |d'| == |d| && rp < |d| && |received| - acked + |input| <= |d|
      && wp == Wrap(rp + (|received| - |sent|), |d|)
    requires forall i :: 0 <= i < |input| ==> d'[Arc(wp, |input|, |d|)[i]] == input[i]
    requires forall p :: 0 <= p < |d| && p !in Arc(wp, |input|, |d|) ==> d'[p] == d[p]
    ensures Intact(d', rp, received + input, acked, sent, places)
  {
    FillKeeps(d, d', rp, wp, |sent|, received, acked, input);
    assert (received + input)[..|sent|] == received[..|sent|];
  }

  lemma HandIntact(d: seq<byte>, rp: nat, rp': nat, received: seq<byte>, acked: nat, sent: seq<byte>, places: seq<nat>)
    requires Intact(d, rp, received, acked, sent, places)
    requires |received| - acked <= |d| && rp < |d| && rp' == Wrap(rp + (|received| - |sent|), |d|)
    ensures var arc := Arc(rp, |received| - |sent|, |d|);
      sent + Gather(d, arc) == received && Intact(d, rp', received, acked, received, places + arc)
  {
    HandKeeps(d, rp, rp', received, acked, places);
    assert received[..|sent|] + received[|sent|..] == received && received[..|received|] == received;
  }

  lemma AckIntact(d: seq<byte>, rp: nat, rp': nat, received: seq<byte>, acked: nat, acked': nat, sent: seq<byte>,
                  places: seq<nat>)
    requires Intact(d, rp, received, acked, sent, places)
    requires acked <= acked' <= |sent| && (acked' < |received| ==> rp' == rp)
    ensures Intact(d, rp', received, acked', sent, places)
  {
    if acked' < |received| {
      forall j {:trigger Kept(d, rp', |sent|, received, j)} | acked' <= j < |received|
        ensures Kept(d, rp', |sent|, received, j)
      {
        assert Kept(d, rp, |sent|, received, j);
      }
    }
  }

  lemma ArcPrefix(from: nat, n: nat, k: nat, max: nat)
    requires from < max && k <= n <= max
    ensures Arc(from, n, max)[..k] == Arc(from, k, max)
    ensures forall i, j :: 0 <= i < j < n ==> Arc(from, n, max)[i] != Arc(from, n, max)[j]
  {
  }

  lemma SpansAreShort(from: nat, n: nat, max: nat)
    requires from <= max && n <= max
    ensures forall i :: 0 <= i < |ArcSpans(from, n, max)| ==> ArcSpans(from, n, max)[i].len <= max
  {
  }

  class Session {
    const ring: Ring

    /** Everything read from the socket; how much of it was acknowledged; what lwIP was given; and the place in the
        buffer of each byte it was given. */
    ghost var received: seq<byte>
    ghost var acked: nat
    ghost var sent: seq<byte>
    ghost var places: seq<nat>

    ghost predicate Valid()
      reads this, ring, ring.data
    {
      && ring.Valid() && ring.max <= MAX_BUFFER
      && acked <= |sent| <= |received| && ring.use == |received| - acked && ring.rda == |received| - |sent|
      && Intact(ring.data[..], ring.rp, received, acked, sent, places)
    }

    constructor (size: nat)
      ensures Valid() && fresh(ring) && fresh(ring.data) && received == [] && sent == [] && acked == 0
    {
      ring := new Ring(if size > MAX_BUFFER then MAX_BUFFER else size);
      received, sent, places, acked := [], [], [], 0;
    }

    /** First half of tcp_splice_b: readv puts what the socket has, `input`, into the free spans. */
    method Fill(input: seq<byte>)
      requires Valid() && 0 < |input| <= ring.max - ring.use
      modifies this, ring, ring.data
      ensures Valid() && received == old(received) + input && sent == old(sent) && acked == old(acked)
        && places == old(places)
    {
      var spans := ring.Writing();
      var free := Places(spans);
      ArcPrefix(ring.wp, ring.max - ring.use, |input|, ring.max);
      Scatter(ring.data, free, input);
      FillIntact(old(ring.data[..]), ring.data[..], ring.rp, ring.wp, received, acked, sent, places, input);
      ring.WriteFinish(|input|);
      received := received + input;
    }

    /** Second half: the readable spans are given to lwIP and count as read; places already given stay as they are. */
    method Hand()
      requires Valid()
      modifies this, ring
      ensures Valid() && received == old(received) && acked == old(acked) && sent == received && old(places) <= places
    {
      var spans := ring.Reading();
      if spans == [] {
        return;
      }
      SpansAreShort(ring.rp, ring.rda, ring.max);
      var size;
      ghost var given;
      size, given := WriteAll(spans);
      Advance(size, given);
    }

    /** The places just given count as read. */
    method Advance(size: nat, ghost given: seq<nat>)
      requires Valid() && size == ring.rda && ring.max > 0 && given == Arc(ring.rp, ring.rda, ring.max)
      modifies this, ring
      ensures Valid() && received == old(received) && acked == old(acked) && sent == received
        && places == old(places) + given
    {
      HandIntact(ring.data[..], ring.rp, Wrap(ring.rp + size, ring.max), received, acked, sent, places);
      sent := sent + Gather(ring.data[..], given);
      ring.ReadFinish(size);
      places := places + given;
    }

    /** tcp_sent_handler: lwIP acknowledges `len` bytes, never more than it was given. */
    method Acknowledge(len: nat)
      requires Valid() && len <= |sent| - acked
      modifies this, ring
      ensures Valid() && received == old(received) && sent == old(sent) && places == old(places)
        && acked == old(acked) + len
    {
      ring.ReadRelease(len);
      acked := acked + len;
      AckIntact(ring.data[..], old(ring.rp), ring.rp, received, old(acked), acked, sent, places);
    }

    /** Whoever reads the place lwIP was given for an unacknowledged byte finds that byte. */
    lemma UnacknowledgedUnchanged(j: nat)
      requires Valid() && acked <= j < |sent|
      ensures places[j] < ring.max && ring.data[places[j]] == received[j] == sent[j]
    {
      assert Kept(ring.data[..], ring.rp, |sent|, received, j);
    }
  }

  lemma {:induction false} PlacesPrefix(spans: seq<Span>, i: nat)
    requires i < |spans|
    ensures Places(spans[..i + 1]) == Places(spans[..i]) + SpanPlaces(spans[i])
  {
    if i == 0 {
      assert spans[..1] == [spans[0]] && spans[..1][1..] == [] && spans[..0] == [];
    } else {
      PlacesPrefix(spans[1..], i - 1);
      assert spans[..i + 1][1..] == spans[1..][..i] && spans[..i][1..] == spans[1..][..i - 1];
    }
  }

  /** The loop over `tcp_write`: `given` are the places lwIP was told to read. */
  method WriteAll(spans: seq<Span>) returns (size: nat, ghost given: seq<nat>)
    requires forall i :: 0 <= i < |spans| ==> spans[i].len <= MAX_BUFFER
    ensures given == Places(spans) && size == |given|
  {
    var i := 0;
    size, given := 0, [];
    while i < |spans|
      invariant 0 <= i <= |spans|
      invariant given == Places(spans[..i]) && size == |given|
    {
      ghost var len := Length16(spans[i].len);
      PlacesPrefix(spans, i);
      given := given + SpanPlaces(Span(spans[i].off, len));
      size := size + spans[i].len;
      i := i + 1;
    }
    assert spans[..|spans|] == spans;
  }

  /** The copy that readv makes. */
  method Scatter(data: array<byte>, places: seq<nat>, input: seq<byte>)
    requires |input| <= |places| && (forall i :: 0 <= i < |places| ==> places[i] < data.Length)
    requires forall i, j :: 0 <= i < j < |places| ==> places[i] != places[j]
    modifies data
    ensures forall i :: 0 <= i < |input| ==> data[places[i]] == input[i]
    ensures forall p :: 0 <= p < data.Length && p !in places[..|input|] ==> data[p] == old(data[p])
  {
    var i := 0;
    while i < |input|
      invariant 0 <= i <= |input|
      invariant forall k :: 0 <= k < i ==> data[places[k]] == input[k]
      invariant forall p :: 0 <= p < data.Length && p !in places[..i] ==> data[p] == old(data[p])
    {
      data[places[i]] := input[i];
      assert places[..i + 1] == places[..i] + [places[i]];
      i := i + 1;
    }
  }

  // Whole sessions.

  /** What can happen: the socket has some bytes, the bytes waiting are handed out, or lwIP acknowledges some. */
  datatype Event = Arrive(count: nat) | Splice | Sent(count: nat)

  /** The buffer and what lwIP knows of it, at one moment. */
  datatype Moment = Moment(data: seq<byte>, places: seq<nat>, acked: nat)

  ghost predicate Later(m: Moment, n: Moment)
  {
    m.places <= n.places && m.acked <= n.acked
  }

  /** Whoever reads at moment `n` the place that lwIP knew at moment `m` for a byte not acknowledged finds that byte. */
  ghost predicate Readable(m: Moment, n: Moment, stream: seq<byte>)
  {
    |m.places| <= |stream| && forall j ::
      n.acked <= j < |m.places| ==> m.places[j] < |n.data| && n.data[m.places[j]] == stream[j]
  }

  lemma LaterReadable(m: Moment, n: Moment, stream: seq<byte>)
    requires Later(m, n) && Readable(n, n, stream)
    ensures Readable(m, n, stream)
  {
    forall j | n.acked <= j < |m.places| ensures m.places[j] < |n.data| && n.data[m.places[j]] == stream[j] {
      assert m.places[j] == n.places[j];
    }
  }

  /** One step of a session; `left` are the bytes that the socket has still to deliver. At most as many arrive as there
      is room for, and lwIP acknowledges at most what it was given. */
  method Turn(session: Session, event: Event, left: seq<byte>) returns (rest: seq<byte>)
    requires session.Valid()
    modifies session, session.ring, session.ring.data
    ensures session.Valid() && session.received + rest == old(session.received) + left
    ensures old(session.places) <= session.places && old(session.acked) <= session.acked
  {
    rest := left;
    match event {
      case Arrive(count) =>
        var room := if session.ring.max - session.ring.use <= |left| then session.ring.max - session.ring.use
          else |left|;
        var n := if count <= room then count else room;
        if n > 0 {
          session.Fill(left[..n]);
          rest := left[n..];
          assert old(session.received) + left[..n] + rest == old(session.received) + left;
        }
      case Splice =>
        session.Hand();
      case Sent(count) =>
        var given := session.ring.use - session.ring.rda;
        session.Acknowledge(if count <= given then count else given);
    }
  }

  /** The moment a session is at. */
  ghost function Now(session: Session): Moment
    reads session, session.ring, session.ring.data
  {
    Moment(session.ring.data[..], session.places, session.acked)
  }

  lemma NowReadable(session: Session, stream: seq<byte>)
    requires session.Valid() && session.received <= stream
    ensures Readable(Now(session), Now(session), stream)
  {
    var m := Now(session);
    forall j | m.acked <= j < |m.places| ensures m.places[j] < |m.data| && m.data[m.places[j]] == stream[j] {
      session.UnacknowledgedUnchanged(j);
    }
  }

  /** At every moment of every session each unacknowledged byte is where lwIP was told to read it, however early that
      was. */
  method Relay(size: nat, stream: seq<byte>, events: seq<Event>)
    returns (rest: seq<byte>, ghost moments: seq<Moment>, session: Session)
    ensures fresh(session) && session.Valid() && session.received + rest == stream && session.sent <= stream
    ensures |moments| == |events| + 1 && moments[|events|] == Now(session)
    ensures forall t, u ::
      0 <= t <= u < |moments| ==> Later(moments[t], moments[u]) && Readable(moments[t], moments[u], stream)
  {
    session := new Session(size);
    rest := stream;
    var i := 0;
    NowReadable(session, stream);
    moments := [Now(session)];
    while i < |events|
      invariant 0 <= i <= |events| && fresh(session) && fresh(session.ring) && fresh(session.ring.data)
      invariant session.Valid() && session.received + rest == stream && |moments| == i + 1 && moments[i] == Now(session)
      invariant forall t, u ::
        0 <= t <= u <= i ==> Later(moments[t], moments[u]) && Readable(moments[t], moments[u], stream)
    {
      rest := Turn(session, events[i], rest);
      NowReadable(session, stream);
      MoreMoments(moments, Now(session), stream);
      moments := moments + [Now(session)];
      i := i + 1;
    }
  }

  lemma MoreMoments(moments: seq<Moment>, m: Moment, stream: seq<byte>)
    requires moments != [] && Later(moments[|moments| - 1], m) && Readable(m, m, stream)
    requires forall t, u ::
      0 <= t <= u < |moments| ==> Later(moments[t], moments[u]) && Readable(moments[t], moments[u], stream)
    ensures var all := moments + [m];
      forall t, u :: 0 <= t <= u < |all| ==> Later(all[t], all[u]) && Readable(all[t], all[u], stream)
  {
    forall t | 0 <= t < |moments| ensures Later(moments[t], m) && Readable(moments[t], m, stream) {
      assert Later(moments[t], moments[|moments| - 1]);
      LaterReadable(moments[t], m, stream);
    }
  }
}
