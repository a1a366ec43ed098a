/** The SOCKS5 handshake between this client and this server (hev-socks5-client.c, hev-socks5-server.c; sections 3, 4
    and 6 of RFC 1928 and section 2 of RFC 1929). */
module Socks5Messages {
  import opened Wrappers
  import opened ByteOrder
  import opened Socks5Address

  const VERSION: byte := 5
  const NO_AUTH: byte := 0
  const USER_AUTH: byte := 2
  const DENY: byte := 255

  const CONNECT: byte := 1
  const UDP_ASSOCIATE: byte := 3
  const FORWARD_UDP: byte := 5

  datatype Credentials = Credentials(user: Name, pass: Name)

  /** The first `n % 256` bytes: lengths are sent in one byte. */
  function Cut(s: Name): (r: Name)
    ensures |r| == |s| % 256 && (|s| < 256 ==> r == s)
  {
    s[..|s| % 256]
  }

  function Offer(c: Option<Credentials>): byte
  {
    if c.None? then NO_AUTH else USER_AUTH
  }

  function Methods(c: Option<Credentials>): seq<byte>
  {
    [VERSION, 1, Offer(c)]
  }

  function Login(c: Option<Credentials>): seq<byte>
  {
    if c.None? then [] else [1, |c.value.user| % 256] + Cut(c.value.user) + [|c.value.pass| % 256] + Cut(c.value.pass)
  }

  function Request(cmd: byte, addr: seq<byte>): seq<byte>
  {
    [VERSION, cmd, 0] + addr
  }

  /** Everything a client sends. */
  function Script(c: Option<Credentials>, cmd: byte, addr: seq<byte>): seq<byte>
  {
    Methods(c) + Login(c) + Request(cmd, addr)
  }

  function Response(rep: byte, s: Sockaddr): seq<byte>
    requires SockaddrOk(s)
  {
    [VERSION, rep, 0] + FromSockaddr(s)
  }

  // Reading.

  datatype ResponseRead = Accepted(addr: seq<byte>, rest: seq<byte>) | Refused

  /** What a client makes of the response. */
  function ReadResponse(d: seq<byte>): ResponseRead
  {
    if |d| < 4 || d[0] != VERSION || d[1] != 0 || (d[3] != IPV4 && d[3] != IPV6) then Refused
    else
      var n := if d[3] == IPV4 then 10 else 22;
      if |d| < n then Refused else Accepted(d[3..n], d[n..])
  }

  datatype MethodsRead = Offered(rest: seq<byte>) | NotOffered(rest: seq<byte>) | NoHello

  /** Whether the wanted method is among those offered. */
  function ReadMethods(d: seq<byte>, wanted: byte): MethodsRead
  {
    if |d| < 2 || d[0] != VERSION then NoHello
    else
      var n: nat := d[1];
      if |d| < 2 + n then NoHello
      else if wanted in d[2..2 + n] then Offered(d[2 + n..])
      else NotOffered(d[2 + n..])
  }

  datatype LoginRead = LoginRead(c: Credentials, rest: seq<byte>) | NoLogin

  function ReadLogin(d: seq<byte>): LoginRead
  {
    if |d| < 2 || d[0] != 1 || d[1] == 0 then NoLogin
    else
      var n: nat := d[1];
      if |d| < 3 + n || d[2 + n] == 0 then NoLogin
      else
        var m: nat := d[2 + n];
        if |d| < 3 + n + m then NoLogin
        else LoginRead(Credentials(d[2..2 + n], d[3 + n..3 + n + m]), d[3 + n + m..])
  }

  datatype RequestRead = RequestRead(cmd: byte, addr: seq<byte>, rest: seq<byte>) | BadRequest(rep: byte) | NoRequest

  function ReadRequest(d: seq<byte>): RequestRead
  {
    if |d| < 5 then NoRequest
    else if d[0] != VERSION then BadRequest(1)
    else
      var n := AddrLen(d[3], d[4]);
      if n < 0 || |d| < 3 + n then BadRequest(8) else RequestRead(d[1], d[3..3 + n], d[3 + n..])
  }

  /** A response that grants the request is read back to its last byte; any other is refused. */
  lemma ResponseRoundTrip(rep: byte, s: Sockaddr, rest: seq<byte>)
    requires SockaddrOk(s)
    ensures ReadResponse(Response(rep, s) + rest) == if rep == 0 then Accepted(FromSockaddr(s), rest) else Refused
  {
    var a := FromSockaddr(s);
    var d := Response(rep, s) + rest;
    assert d == [VERSION, rep, 0] + (a + rest);
    assert d[3..] == a + rest;
    assert d[3] == a[0];
    assert d[3..3 + |a|] == d[3..][..|a|] == a && d[3 + |a|..] == d[3..][|a|..] == rest;
  }

  lemma MethodsRoundTrip(c: Option<Credentials>, wanted: byte, rest: seq<byte>)
    ensures ReadMethods(Methods(c) + rest, wanted) == if Offer(c) == wanted then Offered(rest) else NotOffered(rest)
  {
    var d := Methods(c) + rest;
    assert d[2..3] == [Offer(c)] && d[3..] == rest;
    assert wanted in [Offer(c)] <==> wanted == Offer(c);
  }

  /** Credentials are read back to the last byte. */
  lemma LoginRoundTrip(c: Credentials, rest: seq<byte>)
    ensures var u, p := Cut(c.user), Cut(c.pass);
      ReadLogin(Login(Some(c)) + rest) == if u != [] && p != [] then LoginRead(Credentials(u, p), rest) else NoLogin
  {
    LoginText(Cut(c.user), Cut(c.pass), rest);
  }

  lemma LoginText(u: seq<byte>, p: seq<byte>, rest: seq<byte>)
    requires |u| < 256 && |p| < 256
    ensures var d := [1, |u|] + u + [|p|] + p + rest; var n, m := |u|, |p|;
      && |d| == 3 + n + m + |rest| && d[0] == 1 && d[1] == n && d[2 + n] == m
      && d[2..2 + n] == u && d[3 + n..3 + n + m] == p && d[3 + n + m..] == rest
  {
    var d := [1, |u|] + u + [|p|] + p + rest;
    var n, m := |u|, |p|;
    var tail := [m] + p + rest;
    assert d[2..] == u + tail;
    assert d[2..2 + n] == d[2..][..n] && d[2 + n..] == d[2..][n..] == tail;
    assert d[2 + n] == tail[0] && d[3 + n..] == tail[1..] == p + rest;
    assert d[3 + n..3 + n + m] == d[3 + n..][..m] && d[3 + n + m..] == d[3 + n..][m..];
  }

  /** A request is read back to its last byte. */
  lemma RequestRoundTrip(cmd: byte, addr: seq<byte>, rest: seq<byte>)
    requires AddrOk(addr)
    ensures ReadRequest(Request(cmd, addr) + rest) == RequestRead(cmd, addr, rest)
  {
    var d := Request(cmd, addr) + rest;
    assert d == [VERSION, cmd, 0] + (addr + rest);
    assert d[3..] == addr + rest;
    assert d[3] == addr[0] && d[4] == addr[1];
    assert d[3..3 + |addr|] == d[3..][..|addr|] && d[3 + |addr|..] == d[3..][|addr|..];
  }

  /** One direction of the connection. */
  class Pipe {
    var data: seq<byte>      // sent and not yet received
    ghost var sent: seq<byte>  // everything sent

    constructor ()
      ensures data == [] && sent == []
    {
      data, sent := [], [];
    }

    method Send(b: seq<byte>)
      modifies this
      ensures data == old(data) + b && sent == old(sent) + b
    {
      data, sent := data + b, sent + b;
    }

    /** Exactly `n` bytes, or none if the peer never sends them. */
    method Recv(n: nat) returns (ok: bool, b: seq<byte>)
      modifies this`data
      ensures ok == (n <= |old(data)|)
      ensures ok ==> |b| == n && b + data == old(data)
      ensures !ok ==> data == old(data)
    {
      if n > |data| {
        return false, [];
      }
      b := data[..n];
      data := data[n..];
      ok := true;
    }
  }
}

module Socks5Client {
  import opened Wrappers
  import opened ByteOrder
  import opened Socks5Address
  import opened Socks5Messages

  class Client {
    const up: Pipe
    const down: Pipe
    const creds: Option<Credentials>
    const cmd: byte
    const addr: seq<byte>
    var bound: seq<byte>  // the address in the response

    constructor (up: Pipe, down: Pipe, creds: Option<Credentials>, cmd: byte, addr: seq<byte>)
      ensures this.up == up && this.down == down && this.creds == creds && this.cmd == cmd && this.addr == addr
    {
      this.up, this.down, this.creds, this.cmd, this.addr, bound := up, down, creds, cmd, addr, [];
    }

    method WriteMethods()
      modifies up
      ensures up.data == old(up.data) + Methods(creds) && up.sent == old(up.sent) + Methods(creds)
    {
      up.Send([VERSION, 1, if creds.None? then NO_AUTH else USER_AUTH]);
    }

    method WriteLogin()
      modifies up
      ensures up.data == old(up.data) + Login(creds) && up.sent == old(up.sent) + Login(creds)
    {
      if creds.None? {
        assert up.data + [] == up.data && up.sent + [] == up.sent;
        return;
      }
      var u, p := creds.value.user, creds.value.pass;
      up.Send([1, |u| % 256] + Cut(u) + [|p| % 256] + Cut(p));
    }

    method WriteRequest() returns (ok: bool)
      modifies up
      ensures ok == (|addr| >= 2 && AddrLen(addr[0], addr[1]) == |addr|)
      ensures ok ==> up.data == old(up.data) + Request(cmd, addr) && up.sent == old(up.sent) + Request(cmd, addr)
      ensures !ok ==> up.data == old(up.data) && up.sent == old(up.sent)
    {
      if |addr| < 2 || AddrLen(addr[0], addr[1]) != |addr| {
        return false;
      }
      up.Send([VERSION, cmd, 0] + addr);
      ok := true;
    }

    method ReadMethod() returns (method_: int)
      modifies down`data
      ensures |old(down.data)| >= 2 ==> down.data == old(down.data)[2..]
      ensures |old(down.data)| >= 2 ==> method_ == if old(down.data)[0] == VERSION then old(down.data)[1] as int else -1
      ensures |old(down.data)| < 2 ==> method_ == -1
    {
      var ok, b := down.Recv(2);
      if !ok || b[0] != VERSION {
        return -1;
      }
      method_ := b[1];
    }

    method ReadLogin() returns (ok: bool)
      modifies down`data
      ensures |old(down.data)| >= 2 ==>
        down.data == old(down.data)[2..] && ok == (old(down.data)[0] == 1 && old(down.data)[1] == 0)
      ensures |old(down.data)| < 2 ==> !ok
    {
      var b;
      ok, b := down.Recv(2);
      if !ok || b[0] != 1 || b[1] != 0 {
        return false;
      }
    }

    method ReadReply() returns (ok: bool)
      modifies down`data, this`bound
      ensures ok == ReadResponse(old(down.data)).Accepted?
      ensures ok ==> bound == ReadResponse(old(down.data)).addr && down.data == ReadResponse(old(down.data)).rest
    {
      ghost var all := down.data;
      var b, c;
      ok, b := down.Recv(4);
      if !ok || b[0] != VERSION || b[1] != 0 || (b[3] != IPV4 && b[3] != IPV6) {
        return false;
      }
      ok, c := down.Recv(if b[3] == IPV4 then 6 else 18);
      if ok {
        bound := [b[3]] + c;
        ReplyParts(all, b, c, down.data);
      }
    }
  }

  lemma ReplyParts(all: seq<byte>, b: seq<byte>, c: seq<byte>, rest: seq<byte>)
    requires all == b + (c + rest) && |b| == 4
    ensures all[3..4 + |c|] == [b[3]] + c && all[4 + |c|..] == rest
  {
    assert all[4..] == c + rest;
    assert all[3..4 + |c|] == [all[3]] + all[4..][..|c|];
  }
}

module Socks5Server {
  import opened Wrappers
  import opened ByteOrder
  import opened Socks5Address
  import opened Socks5Messages

  /** What the surroundings answer: name resolution, connecting, binding. */
  datatype World = World(resolved: Option<Sockaddr>, reachable: bool, bindable: bool, bound: Sockaddr)

  ghost predicate WorldOk(w: World)
  {
    (w.resolved.Some? ==> SockaddrOk(w.resolved.value)) && SockaddrOk(w.bound)
  }

  const NOWHERE := Sockaddr([0, 0, 0, 0, 0, 0, 0, 0, 0, 0, 0, 0, 0, 0, 0, 0], [0, 0])

  /** The socket address of a destination; none if a name cannot be resolved. */
  function Destination(addr: seq<byte>, w: World): Option<Sockaddr>
    requires AddrOk(addr)
  {
    if addr[0] == NAME then w.resolved else Some(IntoSockaddr(addr))
  }

  /** The reply code for a request. */
  function Verdict(cmd: byte, addr: seq<byte>, w: World): byte
    requires AddrOk(addr)
  {
    if Destination(addr, w).None? then 8
    else if cmd == CONNECT then (if w.reachable then 0 else 4)
    else if cmd == UDP_ASSOCIATE || cmd == FORWARD_UDP then (if w.bindable then 0 else 1)
    else 7
  }

  /** The address in the reply. */
  function Replied(cmd: byte, addr: seq<byte>, w: World): (s: Sockaddr)
    requires AddrOk(addr)
  {
    var d := Destination(addr, w);
    if d.None? then NOWHERE else if cmd == UDP_ASSOCIATE && w.bindable then w.bound else d.value
  }

  class Server {
    const up: Pipe
    const down: Pipe
    const users: Option<map<Name, Name>>
    const world: World
    var user: Option<Name>
    var cmd: byte
    var addr: seq<byte>

    constructor (up: Pipe, down: Pipe, users: Option<map<Name, Name>>, world: World)
      ensures this.up == up && this.down == down && this.users == users && this.world == world && user == None
    {
      this.up, this.down, this.users, this.world, user, cmd, addr := up, down, users, world, None, 0, [];
    }

    function Wanted(): byte
    {
      if users.Some? then USER_AUTH else NO_AUTH
    }

    /** Reads the methods and answers with the chosen one, or refuses. */
    method Greet() returns (ok: bool)
      requires up != down
      modifies up`data, down
      ensures ok == ReadMethods(old(up.data), Wanted()).Offered?
      ensures ok ==> up.data == ReadMethods(old(up.data), Wanted()).rest
      ensures var reply := [VERSION, if ok then Wanted() else DENY];
        down.data == old(down.data) + reply && down.sent == old(down.sent) + reply
    {
      var all := up.data;
      ok := false;
      var got, head := up.Recv(2);
      if got && head[0] == VERSION {
        var methods;
        got, methods := up.Recv(head[1]);
        if got {
          assert all[2..2 + head[1]] == methods && all[2 + head[1]..] == up.data by {
            assert all[2..] == methods + up.data;
          }
          var i := 0;
          while i < |methods| && !ok
            invariant 0 <= i <= |methods| && ok == (Wanted() in methods[..i])
          {
            ok := methods[i] == Wanted();
            i := i + 1;
          }
          assert methods[..|methods|] == methods;
          assert ok ==> Wanted() in methods;
        }
      }
      down.Send([VERSION, if ok then Wanted() else DENY]);
    }

    ghost predicate Knows(r: LoginRead)
      requires users.Some?
    {
      r.LoginRead? && r.c.user in users.value && users.value[r.c.user] == r.c.pass
    }

    /** Reads the credentials and tells whether they are right. */
    method CheckUser() returns (ok: bool)
      requires users.Some? && up != down
      modifies up`data, down, this`user
      ensures var r := ReadLogin(old(up.data));
        && ok == Knows(r) && (ok ==> up.data == r.rest && user == Some(r.c.user)) && (!ok ==> user == old(user))
      ensures var reply := [1, if ok then 0 else 255];
        down.data == old(down.data) + reply && down.sent == old(down.sent) + reply
    {
      ok := ReadUser();
      down.Send([1, if ok then 0 else 255]);
    }

    method ReadUser() returns (ok: bool)
      requires users.Some?
      modifies up`data, this`user
      ensures var r := ReadLogin(old(up.data));
        ok == Knows(r) && (ok ==> up.data == r.rest && user == Some(r.c.user)) && (!ok ==> user == old(user))
    {
      ghost var all := up.data;
      var head, name, pass;
      ok, head := up.Recv(2);
      if !ok || head[0] != 1 || head[1] == 0 {
        return false;
      }
      var n: nat := head[1];
      ok, name := up.Recv(n + 1);
      if !ok {
        return;
      }
      LoginParts(all, head, name, up.data);
      if name[n] == 0 {
        return false;
      }
      ghost var rest := up.data;
      ok, pass := up.Recv(name[n]);
      if !ok {
        return;
      }
      assert rest[..|pass|] == pass && rest[|pass|..] == up.data;
      PassParts(all, rest, n, pass, up.data);
      name := name[..n];
      ok := name in users.value && users.value[name] == pass;
      if ok {
        user := Some(name);
      }
    }

    /** Reads the request, acts on it and answers. */
    method Serve() returns (ok: bool)
      requires WorldOk(world) && up != down
      modifies up`data, down, this`cmd, this`addr
      ensures var r := ReadRequest(old(up.data));
        && (r.RequestRead? ==>
            && AddrOk(r.addr) && up.data == r.rest && cmd == r.cmd && addr == r.addr
            && ok == (Verdict(r.cmd, r.addr, world) == 0)
            && SockaddrOk(Replied(r.cmd, r.addr, world))
            && down.data == old(down.data) + Response(Verdict(r.cmd, r.addr, world), Replied(r.cmd, r.addr, world)))
        && (r.BadRequest? ==> !ok && SockaddrOk(NOWHERE) && down.data == old(down.data) + Response(r.rep, NOWHERE))
        && (r.NoRequest? ==> !ok && down.data == old(down.data))
    {
      var rep, closed := ReadDestination();
      if closed {
        return false;
      }
      var reply := NOWHERE;
      if rep == 0 {
        var d := Destination(addr, world);
        if d.None? {
          rep := 8;
        } else {
          reply := d.value;
          if cmd == CONNECT {
            rep := if world.reachable then 0 else 4;
          } else if cmd == UDP_ASSOCIATE {
            rep := if world.bindable then 0 else 1;
            reply := if world.bindable then world.bound else reply;
          } else if cmd == FORWARD_UDP {
            rep := if world.bindable then 0 else 1;
          } else {
            rep := 7;
          }
        }
      }
      down.Send([VERSION, rep, 0] + FromSockaddr(reply));
      ok := rep == 0;
    }

    /** Reads the request; a reply code other than 0 refuses it. */
    method ReadDestination() returns (rep: byte, closed: bool)
      modifies up`data, this`cmd, this`addr
      ensures var r := ReadRequest(old(up.data));
        && closed == r.NoRequest? && (r.BadRequest? ==> rep == r.rep != 0)
        && (r.RequestRead? ==> rep == 0 && AddrOk(r.addr) && cmd == r.cmd && addr == r.addr && up.data == r.rest)
    {
      ghost var all := up.data;
      var ok, head := up.Recv(5);
      if !ok {
        return 0, true;
      }
      if head[0] != VERSION {
        return 1, false;
      }
      var n := AddrLen(head[3], head[4]);
      if n < 0 {
        return 8, false;
      }
      var more;
      ok, more := up.Recv(n - 2);
      if !ok {
        return 8, false;
      }
      RequestParts(all, head, more, up.data);
      cmd, addr := head[1], head[3..5] + more;
      return 0, false;
    }
  }

  lemma LoginParts(all: seq<byte>, head: seq<byte>, name: seq<byte>, rest: seq<byte>)
    requires all == head + (name + rest) && |head| == 2 && |name| - 1 == head[1]
    ensures all[2..2 + head[1]] == name[..head[1]] && all[2 + head[1]] == name[head[1]] && all[3 + head[1]..] == rest
  {
    assert all[2..] == name + rest;
    assert all[2..2 + head[1]] == all[2..][..head[1]];
    assert all[2 + head[1]] == all[2..][head[1]];
    assert all[3 + head[1]..] == all[2..][head[1] + 1..];
  }

  lemma PassParts(all: seq<byte>, rest: seq<byte>, n: nat, pass: seq<byte>, after: seq<byte>)
    requires 3 + n <= |all| && all[3 + n..] == rest && rest == pass + after
    ensures all[3 + n..3 + n + |pass|] == pass && all[3 + n + |pass|..] == after
  {
    assert all[3 + n..3 + n + |pass|] == rest[..|pass|];
    assert all[3 + n + |pass|..] == rest[|pass|..];
  }

  lemma RequestParts(all: seq<byte>, head: seq<byte>, more: seq<byte>, rest: seq<byte>)
    requires all == head + (more + rest) && |head| == 5
    ensures all[3..5 + |more|] == head[3..5] + more && all[5 + |more|..] == rest
  {
    assert all[5..] == more + rest;
    assert all[3..5 + |more|] == all[3..5] + all[5..][..|more|];
    assert all[5 + |more|..] == all[5..][|more|..];
  }
}

/** Client and server against each other, in both orders of the client. */
module Socks5Exchange {
  import opened Wrappers
  import opened ByteOrder
  import opened Socks5Address
  import opened Socks5Messages
  import opened Socks5Client
  import opened Socks5Server

  /** The server wants the method that the client offers. */
  ghost predicate Matches(creds: Option<Credentials>, users: Option<map<Name, Name>>)
  {
    creds.Some? == users.Some?
  }

  /** The server lets the client in. */
  ghost predicate LetIn(creds: Option<Credentials>, users: Option<map<Name, Name>>)
  {
    && Matches(creds, users)
    && (creds.Some? ==>
        var u, p := Cut(creds.value.user), Cut(creds.value.pass);
        u != [] && p != [] && u in users.value && users.value[u] == p)
  }

  ghost predicate Fresh(client: Client, server: Server)
    reads client, server, client.up, client.down
  {
    && client.up == server.up && client.down == server.down && client.up != client.down
    && client.up.data == [] && client.up.sent == [] && client.down.data == [] && client.down.sent == []
    && AddrOk(client.addr) && WorldOk(server.world) && server.user == None
  }

  /** How a handshake of a client ends that is let in: the server has decoded what the client meant, and after a success
      both directions have been read to the last byte. */
  ghost predicate Ended(client: Client, server: Server, clientOk: bool, serverOk: bool)
    reads client, server, client.up, client.down
    requires AddrOk(client.addr) && WorldOk(server.world)
  {
    && server.user == (if client.creds.None? then None else Some(Cut(client.creds.value.user)))
    && server.cmd == client.cmd && server.addr == client.addr && client.up.data == []
    && clientOk == serverOk == (Verdict(client.cmd, client.addr, server.world) == 0)
    && (clientOk ==> client.down.data == [] && client.bound == FromSockaddr(ReplyTo(client, server)))
  }

  ghost function ReplyTo(client: Client, server: Server): (s: Sockaddr)
    requires AddrOk(client.addr) && WorldOk(server.world)
    ensures SockaddrOk(s)
  {
    Replied(client.cmd, client.addr, server.world)
  }

  /** The last exchange: a request and its response. */
  method AskAndAnswer(client: Client, server: Server) returns (clientOk: bool, serverOk: bool)
    requires client.up == server.up && client.down == server.down && client.up != client.down
    requires AddrOk(client.addr) && WorldOk(server.world) && client.up.data == Request(client.cmd, client.addr)
      && client.down.data == []
    modifies client`bound, server`cmd, server`addr, client.up`data, client.down
    ensures server.cmd == client.cmd && server.addr == client.addr && client.up.data == []
    ensures clientOk == serverOk == (Verdict(client.cmd, client.addr, server.world) == 0)
    ensures clientOk ==> client.down.data == [] && client.bound == FromSockaddr(ReplyTo(client, server))
  {
    RequestRoundTrip(client.cmd, client.addr, []);
    assert Request(client.cmd, client.addr) + [] == Request(client.cmd, client.addr);
    serverOk := server.Serve();
    ghost var reply := Response(Verdict(client.cmd, client.addr, server.world), ReplyTo(client, server));
    ResponseRoundTrip(Verdict(client.cmd, client.addr, server.world), ReplyTo(client, server), []);
    assert reply + [] == reply && [] + reply == reply;
    clientOk := client.ReadReply();
  }

  /** Agreeing on a method and logging in, step by step. */
  method StandardLogin(client: Client, server: Server) returns (ok: bool)
    requires Fresh(client, server)
    modifies server`user, client.up, client.down
    ensures ok == LetIn(client.creds, server.users)
    ensures client.up.sent == Methods(client.creds) + if Matches(client.creds, server.users) then Login(client.creds)
      else []
    ensures ok ==> client.up.data == [] && client.down.data == []
    ensures server.user == if ok && client.creds.Some? then Some(Cut(client.creds.value.user)) else None
  {
    client.WriteMethods();
    MethodsRoundTrip(client.creds, server.Wanted(), []);
    Padding(Methods(client.creds));
    var greeted := server.Greet();
    var m := client.ReadMethod();
    if !greeted || (m != USER_AUTH as int && m != NO_AUTH as int) {
      return false;
    }
    ok := true;
    if m == USER_AUTH as int {
      client.WriteLogin();
      KnownIsLetIn(client.creds, server, []);
      Padding(Login(client.creds));
      ok := server.CheckUser();
      assert client.down.data == [1, if ok then 0 else 255];
      var passed := client.ReadLogin();
      assert passed == ok;
    }
  }

  lemma Padding(s: seq<byte>)
    ensures s + [] == s && [] + s == s
  {
  }

  /** The standard order: each step waits for the answer to the one before. */
  method Standard(client: Client, server: Server) returns (clientOk: bool, serverOk: bool)
    requires Fresh(client, server)
    modifies client`bound, server`user, server`cmd, server`addr, client.up, client.down
    ensures client.up.sent == if !Matches(client.creds, server.users) then Methods(client.creds)
                              else if !LetIn(client.creds,
                                             server.users) then Methods(client.creds) + Login(client.creds)
                              else Script(client.creds, client.cmd, client.addr)
    ensures !LetIn(client.creds, server.users) ==> !clientOk && !serverOk && server.user == None
    ensures LetIn(client.creds, server.users) ==> Ended(client, server, clientOk, serverOk)
  {
    Padding(Methods(client.creds));
    var ok := StandardLogin(client, server);
    if !ok {
      return false, false;
    }
    ok := client.WriteRequest();
    Padding(Request(client.cmd, client.addr));
    clientOk, serverOk := AskAndAnswer(client, server);
  }

  /** What the server answers before the response to the request. */
  ghost function Greeting(creds: Option<Credentials>, users: Option<map<Name, Name>>): seq<byte>
  {
    if !Matches(creds, users) then [VERSION, DENY]
    else if creds.None? then [VERSION, NO_AUTH]
    else [VERSION, USER_AUTH] + [1, if LetIn(creds, users) then 0 else 255]
  }

  ghost function Answer(client: Client, server: Server): seq<byte>
    requires AddrOk(client.addr) && WorldOk(server.world)
  {
    Response(Verdict(client.cmd, client.addr, server.world), ReplyTo(client, server))
  }

  /** The server runs on everything the client has written. */
  method ServerSide(client: Client, server: Server) returns (ok: bool)
    requires client.up == server.up && client.down == server.down && client.up != client.down
    requires AddrOk(client.addr) && WorldOk(server.world) && server.user == None
    requires client.up.data == Methods(client.creds) + (Login(client.creds) + Request(client.cmd, client.addr))
      && client.down.data == []
    modifies server`user, server`cmd, server`addr, client.up`data, client.down
    ensures ok == (LetIn(client.creds, server.users) && Verdict(client.cmd, client.addr, server.world) == 0)
    ensures client.down.data ==
      Greeting(client.creds, server.users) + if LetIn(client.creds, server.users) then Answer(client, server) else []
    ensures LetIn(client.creds, server.users) ==>
      client.up.data == [] && server.cmd == client.cmd && server.addr == client.addr
    ensures server.user ==
      if LetIn(client.creds, server.users) && client.creds.Some? then Some(Cut(client.creds.value.user)) else None
  {
    ghost var request := Request(client.cmd, client.addr);
    ok := ServerLogin(client, server, request);
    Padding(Greeting(client.creds, server.users));
    if ok {
      RequestRoundTrip(client.cmd, client.addr, []);
      Padding(request);
      ok := server.Serve();
    }
  }

  method ServerLogin(client: Client, server: Server, ghost rest: seq<byte>) returns (ok: bool)
    requires client.up == server.up && client.down == server.down && client.up != client.down && server.user == None
    requires client.up.data == Methods(client.creds) + (Login(client.creds) + rest) && client.down.data == []
    modifies server`user, client.up`data, client.down
    ensures ok == LetIn(client.creds, server.users) && client.down.data == Greeting(client.creds, server.users)
    ensures ok ==> client.up.data == rest
    ensures server.user == if ok && client.creds.Some? then Some(Cut(client.creds.value.user)) else None
  {
    MethodsRoundTrip(client.creds, server.Wanted(), Login(client.creds) + rest);
    ok := server.Greet();
    Padding(rest);
    if ok && server.users.Some? {
      KnownIsLetIn(client.creds, server, rest);
      ok := server.CheckUser();
    }
  }

  lemma KnownIsLetIn(creds: Option<Credentials>, server: Server, rest: seq<byte>)
    requires creds.Some? && server.users.Some?
    ensures server.Knows(ReadLogin(Login(creds) + rest)) <==> LetIn(creds, server.users)
    ensures LetIn(creds, server.users) ==>
      ReadLogin(Login(creds) + rest) == LoginRead(Credentials(Cut(creds.value.user), Cut(creds.value.pass)), rest)
  {
    LoginRoundTrip(creds.value, rest);
  }

  /** The client reads everything the server has written. */
  method ClientSide(client: Client, server: Server) returns (ok: bool)
    requires client.up != client.down && AddrOk(client.addr) && WorldOk(server.world)
    requires client.down.data ==
      Greeting(client.creds, server.users) + if LetIn(client.creds, server.users) then Answer(client, server) else []
    modifies client`bound, client.down`data
    ensures ok == (LetIn(client.creds, server.users) && Verdict(client.cmd, client.addr, server.world) == 0)
    ensures ok ==> client.down.data == [] && client.bound == FromSockaddr(ReplyTo(client, server))
  {
    ghost var answer := if LetIn(client.creds, server.users) then Answer(client, server) else [];
    var m := client.ReadMethod();
    if m == USER_AUTH as int {
      assert client.down.data == [1, if LetIn(client.creds, server.users) then 0 else 255] + answer;
      ok := client.ReadLogin();
      if !ok {
        return;
      }
    } else if m != NO_AUTH as int {
      return false;
    }
    assert client.down.data == answer;
    ResponseRoundTrip(Verdict(client.cmd, client.addr, server.world), ReplyTo(client, server), []);
    Padding(answer);
    ok := client.ReadReply();
  }

  lemma ScriptParts(a: seq<byte>, b: seq<byte>, c: seq<byte>)
    ensures [] + a + b + c == a + b + c == a + (b + c)
  {
  }

  /** The pipelined order: the client writes everything first. The bytes are those of the standard order whenever the
      server lets the client in, and the outcome is always the same. */
  method Pipelined(client: Client, server: Server) returns (clientOk: bool, serverOk: bool)
    requires Fresh(client, server)
    modifies client`bound, server`user, server`cmd, server`addr, client.up, client.down
    ensures client.up.sent == Script(client.creds, client.cmd, client.addr)
    ensures !LetIn(client.creds, server.users) ==> !clientOk && !serverOk && server.user == None
    ensures LetIn(client.creds, server.users) ==> Ended(client, server, clientOk, serverOk)
  {
    client.WriteMethods();
    client.WriteLogin();
    var written := client.WriteRequest();
    ScriptParts(Methods(client.creds), Login(client.creds), Request(client.cmd, client.addr));
    serverOk := ServerSide(client, server);
    clientOk := ClientSide(client, server);
  }
}
