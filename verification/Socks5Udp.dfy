/** Addresses as SOCKS5 writes them (hev-socks5-misc.c; section 4 of RFC 1928). */
module Socks5Address {
  import opened ByteOrder

  const IPV4: byte := 1
  const NAME: byte := 3
  const IPV6: byte := 4

  /** The length of the address that begins with these two bytes, or -1. */
  function AddrLen(atype: byte, second: byte): int
  {
    if atype == IPV4 then 7 else if atype == IPV6 then 19 else if atype == NAME then 4 + second else -1
  }

  /** A complete address: type, host, port. */
  predicate AddrOk(a: seq<byte>)
  {
    |a| >= 2 && AddrLen(a[0], a[1]) == |a|
  }

  /** An IPv6 socket address: sixteen bytes of host and a port. */
  datatype Sockaddr = Sockaddr(host: seq<byte>, port: seq<byte>)

  predicate SockaddrOk(s: Sockaddr)
  {
    |s.host| == 16 && |s.port| == 2
  }

  const MAPPED: seq<byte> := [0, 0, 0, 0, 0, 0, 0, 0, 0, 0, 0xFF, 0xFF]

  /** hev_socks5_addr_from_sockaddr6: a mapped address is written as IPv4. */
  function FromSockaddr(s: Sockaddr): (a: seq<byte>)
    requires SockaddrOk(s)
    ensures AddrOk(a) && a[0] != NAME && a[|a| - 2..] == s.port
  {
    if s.host[..12] == MAPPED then [IPV4] + s.host[12..] + s.port else [IPV6] + s.host + s.port
  }

  /** hev_socks5_addr_into_sockaddr6, for the types that need no resolver. */
  function IntoSockaddr(a: seq<byte>): (s: Sockaddr)
    requires AddrOk(a) && a[0] != NAME
    ensures SockaddrOk(s)
  {
    if a[0] == IPV4 then Sockaddr(MAPPED + a[1..5], a[5..7]) else Sockaddr(a[1..17], a[17..19])
  }

  /** Writing a socket address and reading it back. */
  lemma SockaddrRoundTrip(s: Sockaddr)
    requires SockaddrOk(s)
    ensures IntoSockaddr(FromSockaddr(s)) == s
  {
    var a := FromSockaddr(s);
    if s.host[..12] == MAPPED {
      assert a[1..5] == s.host[12..] && a[5..7] == s.port;
      assert s.host == s.host[..12] + s.host[12..];
    } else {
      assert a[1..17] == s.host && a[17..19] == s.port;
    }
  }

  /** Reading an address and writing it gives it back, but for IPv6 addresses that stand for IPv4 ones. */
  lemma AddressRoundTrip(a: seq<byte>)
    requires AddrOk(a) && a[0] != NAME
    ensures FromSockaddr(IntoSockaddr(a)) == a <==> !(a[0] == IPV6 && a[1..13] == MAPPED)
  {
    if a[0] == IPV4 {
      var s := IntoSockaddr(a);
      assert s.host[..12] == MAPPED && s.host[12..] == a[1..5];
      assert [IPV4] + a[1..5] + a[5..7] == a;
    } else {
      var s := IntoSockaddr(a);
      assert s.host[..12] == a[1..13];
      assert [IPV6] + a[1..17] + a[17..19] == a;
    }
  }
}

/** Datagrams over TCP and over UDP (hev-socks5-udp.c; section 7 of RFC 1928). */
module Socks5Frames {
  import opened ByteOrder
  import opened Socks5Address

  /** A datagram with the address it goes to or comes from. */
  datatype Message = Message(addr: seq<byte>, data: seq<byte>)

  /** A frame on the TCP stream: the length of the data, the length of the head modulo 256, the address, the data. */
  function Frame(m: Message): seq<byte>
  {
    [|m.data| / 256 % 256, |m.data| % 256, (3 + |m.addr|) % 256] + m.addr + m.data
  }

  function Frames(ms: seq<Message>): seq<byte>
  {
    if ms == [] then [] else Frame(ms[0]) + Frames(ms[1..])
  }

  datatype Unframed = Unframed(m: Message, rest: seq<byte>) | BadFrame | NotComplete

  /** The first frame of a stream, read into a buffer of the given size. The room left for data is an unsigned
      difference, so that an address longer than the buffer leaves room for any length. */
  function Unframe(s: seq<byte>, size: nat): Unframed
  {
    if |s| < 5 then NotComplete
    else if s[2] < 5 then BadFrame
    else
      var high: int := s[0];
      var addrlen, datlen := s[2] - 3, 256 * high + s[1];
      if addrlen <= size && datlen > size - addrlen then BadFrame
      else if |s| < 3 + addrlen + datlen then NotComplete
      else Unframed(Message(s[3..3 + addrlen], s[3 + addrlen..3 + addrlen + datlen]), s[3 + addrlen + datlen..])
  }

  /** What is framed is read back whatever follows, exactly when the address has at most 252 bytes. */
  lemma FrameRoundTrip(m: Message, rest: seq<byte>, size: nat)
    requires AddrOk(m.addr) && |m.addr| + |m.data| <= size && |m.data| <= 65535
    ensures Unframe(Frame(m) + rest, size) == Unframed(m, rest) <==> |m.addr| <= 252
  {
    var s := Frame(m) + rest;
    var a, n := |m.addr|, |m.data|;
    FrameHead(m, rest);
    if a <= 252 {
      FrameBody(m, rest);
    } else {
      assert a <= 259 && s[2] == a + 3 - 256;
    }
  }

  lemma FrameHead(m: Message, rest: seq<byte>)
    requires |m.data| <= 65535
    ensures var s := Frame(m) + rest;
      |s| == 3 + |m.addr| + |m.data| + |rest| && 256 * s[0] as int + s[1] == |m.data| && s[2] == (3 + |m.addr|) % 256
  {
    var n := |m.data|;
    var s := Frame(m) + rest;
    assert n / 256 % 256 == n / 256;
    assert s[0] == n / 256 % 256 && s[1] == n % 256 && s[2] == (3 + |m.addr|) % 256;
  }

  lemma FrameBody(m: Message, rest: seq<byte>)
    ensures var s := Frame(m) + rest; var a, n := |m.addr|, |m.data|;
      s[3..3 + a] == m.addr && s[3 + a..3 + a + n] == m.data && s[3 + a + n..] == rest
  {
    var s := Frame(m) + rest;
    var a, n := |m.addr|, |m.data|;
    assert s[3..] == m.addr + (m.data + rest);
    assert s[3..3 + a] == s[3..][..a] && s[3 + a..] == s[3..][a..] == m.data + rest;
    assert s[3 + a..3 + a + n] == s[3 + a..][..n] && s[3 + a + n..] == s[3 + a..][n..];
  }

  /** A frame that is accepted fits its buffer exactly when its address does, as every address does in 252 bytes; and it
      is the frame of the message read. */
  lemma AcceptedFits(s: seq<byte>, size: nat)
    requires Unframe(s, size).Unframed?
    ensures var m := Unframe(s, size).m;
      && (|m.addr| + |m.data| <= size <==> |m.addr| <= size) && 2 <= |m.addr| <= 252
      && s == Frame(m) + Unframe(s, size).rest
  {
    var u := Unframe(s, size);
    var a, n := |u.m.addr|, |u.m.data|;
    assert n / 256 % 256 == s[0] && n % 256 == s[1];
    assert s == s[..3] + s[3..3 + a] + s[3 + a..3 + a + n] + s[3 + a + n..];
    assert s[..3] == [s[0], s[1], s[2]];
  }

  // Over UDP.

  function Datagram(m: Message): seq<byte>
  {
    [0, 0, 0] + m.addr + m.data
  }

  datatype Parsed = Parsed(m: Message) | TooShort | BadAddress | BadLength

  function ParseDatagram(d: seq<byte>): Parsed
  {
    if |d| < 4 then TooShort
    else
      var addrlen := AddrLen(d[3], if |d| > 4 then d[4] else 0);
      if addrlen <= 0 then BadAddress
      else if 3 + addrlen > |d| then BadLength
      else Parsed(Message(d[3..3 + addrlen], d[3 + addrlen..]))
  }

  lemma DatagramRoundTrip(m: Message)
    requires AddrOk(m.addr)
    ensures ParseDatagram(Datagram(m)) == Parsed(m)
  {
    var d := Datagram(m);
    assert d == [0, 0, 0] + (m.addr + m.data);
    assert d[3..] == m.addr + m.data;
    assert d[3] == m.addr[0] && d[4] == m.addr[1];
    assert d[3..3 + |m.addr|] == d[3..][..|m.addr|] == m.addr;
    assert d[3 + |m.addr|..] == d[3..][|m.addr|..] == m.data;
  }
}

/** Sending and receiving batches of datagrams on the TCP stream (hev-socks5-udp.c). */
module Socks5Udp {
  import opened ByteOrder
  import opened Socks5Address
  import opened Socks5Frames

  predicate Sendable(m: Message)
  {
    AddrOk(m.addr) && |m.addr| <= 252 && |m.addr| + |m.data| <= 1500
  }

  ghost predicate AllSendable(ms: seq<Message>)
  {
    forall k :: 0 <= k < |ms| ==> Sendable(ms[k])
  }

  lemma {:induction false} FramesSnoc(ms: seq<Message>, m: Message)
    ensures Frames(ms + [m]) == Frames(ms) + Frame(m)
    decreases |ms|
  {
    if ms == [] {
      assert ms + [m] == [m] && [m][1..] == [] && Frames([]) == [];
      assert Frame(m) + [] == Frame(m);
    } else {
      assert (ms + [m])[0] == ms[0] && (ms + [m])[1..] == ms[1..] + [m];
      FramesSnoc(ms[1..], m);
    }
  }

  /** The first frame of a stream of frames. */
  lemma FirstFrame(ms: seq<Message>, size: nat)
    requires AllSendable(ms) && ms != [] && 1500 <= size <= 65535
    ensures Unframe(Frames(ms), size) == Unframed(ms[0], Frames(ms[1..])) && |Frames(ms)| >= 5
  {
    assert Sendable(ms[0]);
    FrameRoundTrip(ms[0], Frames(ms[1..]), size);
  }

  datatype Received = Received(m: Message) | Idle | Broken

  class Socket {
    var sent: seq<byte>      // everything written
    var incoming: seq<byte>  // written by the peer and not yet read
    var pieces: seq<nat>     // how many bytes have arrived each time some are asked for

    constructor (incoming: seq<byte>, pieces: seq<nat>)
      ensures this.incoming == incoming && sent == [] && this.pieces == pieces
    {
      this.incoming, this.pieces, sent := incoming, pieces, [];
    }

    method Send(b: seq<byte>)
      modifies this`sent
      ensures sent == old(sent) + b
    {
      sent := sent + b;
    }

    /** Up to `n` bytes, as many as have arrived. */
    method Recv(n: nat) returns (b: seq<byte>)
      modifies this`incoming, this`pieces
      ensures b + incoming == old(incoming) && |b| <= n
      ensures |pieces| <= |old(pieces)| && (b == [] && n > 0 && old(incoming) != [] ==> |pieces| < |old(pieces)|)
    {
      var k := n;
      if pieces != [] {
        k := if pieces[0] < n then pieces[0] else n;
        pieces := pieces[1..];
      }
      k := if k > |incoming| then |incoming| else k;
      b := incoming[..k];
      incoming := incoming[k..];
    }

    /** Waits for `n` bytes; fewer only when the peer has closed the stream. */
    method RecvAll(n: nat) returns (b: seq<byte>)
      modifies this`incoming
      ensures b + incoming == old(incoming) && |b| == if n <= |old(incoming)| then n else |old(incoming)|
    {
      var k := if n <= |incoming| then n else |incoming|;
      b := incoming[..k];
      incoming := incoming[k..];
    }

    /** Frames the messages and writes them at once; nothing is written if an address is not valid. */
    method SendMessages(ms: seq<Message>) returns (r: int)
      modifies this`sent
      ensures r == -1 <==> ms == [] || exists k ::
        0 <= k < |ms| && !(|ms[k].addr| >= 2 && AddrLen(ms[k].addr[0], ms[k].addr[1]) > 0)
      ensures r == -1 || r == |ms|
      ensures sent == if r == -1 then old(sent) else old(sent) + Frames(ms)
    {
      var out: seq<byte> := [];
      var i := 0;
      assert Frames(ms[..0]) == [];
      while i < |ms|
        invariant 0 <= i <= |ms| && out == Frames(ms[..i]) && sent == old(sent)
        invariant forall k :: 0 <= k < i ==> |ms[k].addr| >= 2 && AddrLen(ms[k].addr[0], ms[k].addr[1]) > 0
      {
        var a := ms[i].addr;
        if |a| < 2 || AddrLen(a[0], a[1]) <= 0 {
          return -1;
        }
        FramesSnoc(ms[..i], ms[i]);
        assert ms[..i + 1] == ms[..i] + [ms[i]];
        out := out + Frame(ms[i]);
        i := i + 1;
      }
      assert ms[..i] == ms;
      if out == [] {
        return -1;
      }
      Send(out);
      r := |ms|;
    }

    /** Reads the head of a frame, whose bytes may arrive in pieces. */
    method RecvHead() returns (head: seq<byte>)
      modifies this`incoming, this`pieces
      ensures head + incoming == old(incoming)
      ensures head == [] || |head| == if |old(incoming)| >= 5 then 5 else |old(incoming)|
      ensures |pieces| <= |old(pieces)| && (head == [] && old(incoming) != [] ==> |pieces| < |old(pieces)|)
    {
      head := Recv(5);
      if 0 < |head| < 5 {
        var more := RecvAll(5 - |head|);
        assert head + more + incoming == old(incoming);
        head := head + more;
      }
    }

    /** Reads one frame; the first two bytes of the address come with the head. */
    method RecvOne(size: nat) returns (r: Received)
      modifies this`incoming, this`pieces
      ensures |pieces| <= |old(pieces)| && (old(incoming) == [] ==> r.Idle?)
      ensures r.Idle? ==> incoming == old(incoming) && (incoming != [] ==> |pieces| < |old(pieces)|)
      ensures r.Received? ==> Unframe(old(incoming), size) == Unframed(r.m, incoming)
      ensures r.Broken? ==> !Unframe(old(incoming), size).Unframed?
    {
      var s := incoming;
      var head := RecvHead();
      if head == [] {
        return Idle;
      }
      if |head| != 5 {
        return Broken;
      }
      HeadIsPrefix(head, incoming, s);
      if head[2] < 5 {
        return Broken;
      }
      var high: int := head[0];
      var addrlen, datlen := head[2] - 3, 256 * high + head[1];
      if addrlen <= size && datlen > size - addrlen {
        return Broken;
      }
      var rest := incoming;
      var body := RecvAll(addrlen - 2 + datlen);
      if |body| != addrlen - 2 + datlen {
        return Broken;
      }
      BodySplits(s, head, body, incoming, addrlen, datlen);
      r := Received(Message(head[3..5] + body[..addrlen - 2], body[addrlen - 2..]));
    }

    method RecvNext(size: nat, ghost left: seq<Message>) returns (r: Received)
      requires AllSendable(left) && incoming == Frames(left) && 1500 <= size <= 65535
      modifies this`incoming, this`pieces
      ensures r.Received? ==> left != [] && r.m == left[0] && incoming == Frames(left[1..])
      ensures !r.Received? ==> incoming == old(incoming) && (left != [] ==> |pieces| < |old(pieces)|)
      ensures |pieces| <= |old(pieces)|
    {
      if left != [] {
        FirstFrame(left, size);
      }
      r := RecvOne(size);
    }

    /** Receives a batch: messages come out in order, whole, and the next batch goes on where this one stopped. */
    method RecvMessages(num: nat, size: nat, ghost all: seq<Message>) returns (ms: seq<Message>)
      requires AllSendable(all) && incoming == Frames(all) && 1500 <= size <= 65535
      modifies this`incoming, this`pieces
      ensures |ms| <= num && |ms| <= |all| && ms == all[..|ms|] && incoming == Frames(all[|ms|..])
      ensures |pieces| <= |old(pieces)| && (ms == [] && num > 0 && all != [] ==> |pieces| < |old(pieces)|)
    {
      ms := [];
      while |ms| < num
        invariant |ms| <= num && |ms| <= |all| && ms == all[..|ms|] && incoming == Frames(all[|ms|..])
          && |pieces| <= |old(pieces)|
        decreases num - |ms|
      {
        var r := RecvNext(size, all[|ms|..]);
        if !r.Received? {
          return;
        }
        assert all[|ms|..][1..] == all[|ms| + 1..];
        ms := ms + [r.m];
      }
    }

    /** One more batch of the messages that are on their way. */
    method RecvMore(num: nat, ghost ms: seq<Message>, got: seq<Message>) returns (more: seq<Message>)
      requires AllSendable(ms) && |got| < |ms| && got == ms[..|got|] && incoming == Frames(ms[|got|..]) && num > 0
      modifies this`incoming, this`pieces
      ensures |got| <= |more| <= |ms| && more == ms[..|more|] && incoming == Frames(ms[|more|..])
      ensures |pieces| <= |old(pieces)| && (|more| == |got| ==> |pieces| < |old(pieces)|)
    {
      var batch := RecvMessages(num, 1500, ms[|got|..]);
      BatchTaken(ms, got, batch);
      more := got + batch;
    }
  }

  lemma HeadIsPrefix(head: seq<byte>, rest: seq<byte>, s: seq<byte>)
    requires s == head + rest && |head| == 5
    ensures s[0] == head[0] && s[1] == head[1] && s[2] == head[2] && s[3..5] == head[3..5]
  {
  }

  lemma BodySplits(s: seq<byte>, head: seq<byte>, body: seq<byte>, rest: seq<byte>, addrlen: nat, datlen: nat)
    requires s == head + (body + rest) && |head| == 5 && addrlen >= 2 && |body| == addrlen - 2 + datlen
    ensures s[3..3 + addrlen] == head[3..5] + body[..addrlen - 2]
    ensures s[3 + addrlen..3 + addrlen + datlen] == body[addrlen - 2..] && s[3 + addrlen + datlen..] == rest
  {
    assert s[5..] == body + rest;
    assert s[3..3 + addrlen] == head[3..5] + s[5..][..addrlen - 2];
    assert s[3 + addrlen..3 + addrlen + datlen] == s[5..][addrlen - 2..addrlen - 2 + datlen];
  }

  /** Whatever is framed on one side and read on the other, in batches of any size and however the heads arrive, comes
      out the same. */
  method Transfer(ms: seq<Message>, pieces: seq<nat>, batches: seq<nat>) returns (got: seq<Message>)
    requires AllSendable(ms) && ms != []
    ensures got == ms
  {
    var sender := new Socket([], []);
    var r := sender.SendMessages(ms);
    NoneRefused(ms);
    var receiver := new Socket(sender.sent, pieces);
    got := [];
    var i := 0;
    while |got| < |ms|
      invariant |got| <= |ms| && got == ms[..|got|] && fresh(receiver) && receiver.incoming == Frames(ms[|got|..])
      decreases |ms| - |got|, |receiver.pieces|
    {
      var num := if i < |batches| && batches[i] > 0 then batches[i] else 1;
      got := receiver.RecvMore(num, ms, got);
      i := i + 1;
    }
  }

  lemma BatchTaken(ms: seq<Message>, got: seq<Message>, batch: seq<Message>)
    requires |got| <= |ms| && got == ms[..|got|] && |batch| <= |ms[|got|..]| && batch == ms[|got|..][..|batch|]
    ensures got + batch == ms[..|got| + |batch|] && ms[|got|..][|batch|..] == ms[|got| + |batch|..]
  {
  }

  lemma NoneRefused(ms: seq<Message>)
    requires AllSendable(ms)
    ensures !exists k :: 0 <= k < |ms| && !(|ms[k].addr| >= 2 && AddrLen(ms[k].addr[0], ms[k].addr[1]) > 0)
  {
    forall k | 0 <= k < |ms| ensures |ms[k].addr| >= 2 && AddrLen(ms[k].addr[0], ms[k].addr[1]) > 0 {
      assert Sendable(ms[k]);
    }
  }
}
