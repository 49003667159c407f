// SOCKS5 requests and UDP datagrams (RFC 1928 sections 4, 5 and 7), and their way through
// toVlessRequest to the server.
module Socks5 {
  import opened Bytes
  import opened Streams
  import opened BufferedStream
  import opened Parsing
  import V = VlessHeader

  // Address types: not the VLESS codes.
  const ATYP_IPV4: byte := 0x01
  const ATYP_DOMAIN: byte := 0x03
  const ATYP_IPV6: byte := 0x04

  datatype Request = Request(cmd: byte, address: V.Address, port: int)

  datatype Error =
    | VersionMissing | VersionInvalid | CommandMissing | RsvMissing
    | TypeMissing | TypeInvalid
    | IPv4Missing | IPv6Missing | DomainLengthMissing | DomainMissing | PortMissing

  // ---- Parser::readRequest ----

  function ParseAddress(s: seq<byte>): Result<Error, V.Address> {
    if |s| < 1 then Err(TypeMissing)
    else if s[0] == ATYP_IPV4 then
      if |s| < 5 then Err(IPv4Missing) else Ok(V.IPv4(s[1..5]), s[5..])
    else if s[0] == ATYP_DOMAIN then
      if |s| < 2 then Err(DomainLengthMissing)
      else if |s| - 2 < s[1] as int then Err(DomainMissing)
      else Ok(V.Domain(s[2..2 + s[1] as int]), s[2 + s[1] as int..])
    else if s[0] == ATYP_IPV6 then
      if |s| < 17 then Err(IPv6Missing) else Ok(V.IPv6(s[1..17]), s[17..])
    else Err(TypeInvalid)
  }

  function ParseRequest(s: seq<byte>): Result<Error, Request> {
    if |s| < 1 then Err(VersionMissing)
    else if s[0] != 0x05 then Err(VersionInvalid)
    else if |s| < 2 then Err(CommandMissing)
    else if |s| < 3 then Err(RsvMissing)
    else
      match ParseAddress(s[3..])
      case Err(e) => Err(e)
      case Ok(address, t) =>
        if |t| < 2 then Err(PortMissing)
        else Ok(Request(s[1], address, Be16(t[0], t[1])), t[2..])
  }

  method ReadRequest(stream: UringBufferedStream) returns (r: Outcome<Error, Request>)
    requires stream.Valid()
    modifies stream, stream.stream
    ensures stream.Valid()
    ensures Agrees(r, stream.Remaining(), ParseRequest(old(stream.Remaining())))
  {
    hide UringBufferedStream.Remaining, UringBufferedStream.Valid, ParseAddress;
    ghost var s := stream.Remaining();
    var verBytes := stream.Read(1);
    if |verBytes| != 1 {
      return Failed(VersionMissing);
    }
    if verBytes[0] != 0x05 {
      return Failed(VersionInvalid);
    }
    var cmdBytes := stream.Read(1);
    if |cmdBytes| != 1 {
      return Failed(CommandMissing);
    }
    assert s[1..][1..] == s[2..];
    var rsvBytes := stream.Read(1);
    if |rsvBytes| != 1 {
      return Failed(RsvMissing);
    }
    assert s[2..][1..] == s[3..];
    var address := ReadAddress(stream);
    if address.Failed? {
      return Failed(address.error);
    }
    var portBytes := stream.Read(2);
    if |portBytes| != 2 {
      return Failed(PortMissing);
    }
    return Decoded(Request(cmdBytes[0], address.value, Be16(portBytes[0], portBytes[1])));
  }

  /** The address switch of readRequest. */
  method ReadAddress(stream: UringBufferedStream) returns (r: Outcome<Error, V.Address>)
    requires stream.Valid()
    modifies stream, stream.stream
    ensures stream.Valid()
    ensures Agrees(r, stream.Remaining(), ParseAddress(old(stream.Remaining())))
  {
    hide UringBufferedStream.Remaining, UringBufferedStream.Valid;
    ghost var s := stream.Remaining();
    var atypBytes := stream.Read(1);
    if |atypBytes| != 1 {
      return Failed(TypeMissing);
    }
    if atypBytes[0] == ATYP_IPV4 {
      var ip := stream.Read(4);
      if |ip| != 4 {
        return Failed(IPv4Missing);
      }
      assert s[1..][..4] == s[1..5] && s[1..][4..] == s[5..];
      return Decoded(V.IPv4(ip));
    } else if atypBytes[0] == ATYP_DOMAIN {
      var lenBytes := stream.Read(1);
      if |lenBytes| != 1 {
        return Failed(DomainLengthMissing);
      }
      var len: nat := lenBytes[0];
      assert s[1..][1..] == s[2..];
      var domain := stream.Read(len);
      if |domain| != len {
        return Failed(DomainMissing);
      }
      assert s[2..][..len] == s[2..2 + len] && s[2..][len..] == s[2 + len..];
      return Decoded(V.Domain(domain));
    } else if atypBytes[0] == ATYP_IPV6 {
      var ip := stream.Read(16);
      if |ip| != 16 {
        return Failed(IPv6Missing);
      }
      assert s[1..][..16] == s[1..17] && s[1..][16..] == s[17..];
      return Decoded(V.IPv6(ip));
    } else {
      return Failed(TypeInvalid);
    }
  }

  // ---- writeAddrPort ----

  function AddrBytes(a: V.Address): seq<byte>
    requires a.Domain? ==> |a.name| <= 255
  {
    match a
    case IPv4(ip) => [ATYP_IPV4] + ip
    case IPv6(ip) => [ATYP_IPV6] + ip
    case Domain(name) => [ATYP_DOMAIN, |name|] + name
  }

  function AddrPortBytes(a: V.Address, port: int): seq<byte>
    requires a.Domain? ==> |a.name| <= 255
  {
    AddrBytes(a) + [Hi(port), Lo(port)]
  }

  method WriteAddrPort(soFar: seq<byte>, a: V.Address, port: int) returns (r: Option<seq<byte>>)
    ensures r.Some? <==> (a.Domain? ==> |a.name| <= 255)
    ensures r.Some? ==> r.value == soFar + AddrPortBytes(a, port)
  {
    hide Hi, Lo;
    var out := soFar;
    match a {
      case IPv4(ip) =>
        out := out + [ATYP_IPV4] + ip;
        assert soFar + [ATYP_IPV4] + ip == soFar + ([ATYP_IPV4] + ip);
      case IPv6(ip) =>
        out := out + [ATYP_IPV6] + ip;
        assert soFar + [ATYP_IPV6] + ip == soFar + ([ATYP_IPV6] + ip);
      case Domain(name) =>
        if |name| > 255 {
          return None;
        }
        out := out + [ATYP_DOMAIN];
        out := out + [|name|] + name;
        assert soFar + [ATYP_DOMAIN] + [|name|] + name == soFar + ([ATYP_DOMAIN, |name|] + name);
    }
    assert out == soFar + AddrBytes(a);
    out := out + [Hi(port)] + [Lo(port)];
    return Some(out);
  }

  lemma AddressRoundTrip(a: V.Address, rest: seq<byte>)
    requires a.Valid() && (a.Domain? ==> |a.name| <= 255)
    ensures ParseAddress(AddrBytes(a) + rest) == Ok(a, rest)
  {
    var s := AddrBytes(a) + rest;
    match a {
      case IPv4(ip) => assert s[1..5] == ip && s[5..] == rest;
      case IPv6(ip) => assert s[1..17] == ip && s[17..] == rest;
      case Domain(name) => assert s[2..2 + |name|] == name && s[2 + |name|..] == rest;
    }
  }

  // ---- UDP datagrams ----

  datatype Datagram = Datagram(address: V.Address, port: int, payload: seq<byte>)

  /** What a datagram on the wire means: a fragment, a bad or short header gives nothing. */
  function DatagramOf(data: seq<byte>): Option<Datagram> {
    if |data| < 4 || data[2] != 0 then None
    else
      match ParseAddress(data[3..])
      case Err(_) => None
      case Ok(address, t) =>
        if |t| < 2 then None else Some(Datagram(address, Be16(t[0], t[1]), t[2..]))
  }

  lemma Shifted(data: seq<byte>, from: nat, to: nat)
    requires from <= to && 3 + to <= |data|
    ensures data[3..][from..to] == data[3 + from..3 + to] && data[3..][to..] == data[3 + to..]
  {
  }

  method ParseUdpDatagram(data: seq<byte>) returns (r: Option<Datagram>)
    ensures r == DatagramOf(data)
  {
    if |data| < 4 {
      return None;
    }
    var frag := data[2];
    if frag != 0 {
      return None;
    }
    var atyp := data[3];
    var pos: nat := 4;
    var address;
    ghost var s := data[3..];
    if atyp == ATYP_IPV4 {
      if |data| < pos + 4 + 2 {
        return None;
      }
      address := V.IPv4(data[pos..pos + 4]);
      Shifted(data, 1, 5);
      pos := pos + 4;
    } else if atyp == ATYP_DOMAIN {
      if |data| < pos + 1 {
        return None;
      }
      var len: nat := data[pos];
      pos := pos + 1;
      if |data| < pos + len + 2 {
        return None;
      }
      address := V.Domain(data[pos..pos + len]);
      Shifted(data, 2, 2 + len);
      pos := pos + len;
    } else if atyp == ATYP_IPV6 {
      if |data| < pos + 16 + 2 {
        return None;
      }
      address := V.IPv6(data[pos..pos + 16]);
      Shifted(data, 1, 17);
      pos := pos + 16;
    } else {
      return None;
    }
    assert s[pos - 3..] == data[pos..];
    var port := Be16(data[pos], data[pos + 1]);
    pos := pos + 2;
    assert data[pos - 2..][2..] == data[pos..];
    return Some(Datagram(address, port, data[pos..]));
  }

  method EncodeUdpDatagram(a: V.Address, port: int, payload: seq<byte>) returns (r: Option<seq<byte>>)
    ensures r.Some? <==> (a.Domain? ==> |a.name| <= 255)
    ensures r.Some? ==> r.value == [0x00, 0x00, 0x00] + AddrPortBytes(a, port) + payload
  {
    r := WriteAddrPort([0x00, 0x00, 0x00], a, port);
    if r.Some? {
      r := Some(r.value + payload);
    }
  }

  /** A datagram echoed to the application parses back to the same target and payload. */
  lemma DatagramRoundTrip(a: V.Address, port: int, payload: seq<byte>)
    requires a.Valid() && (a.Domain? ==> |a.name| <= 255) && 0 <= port < 0x1_0000
    ensures DatagramOf([0x00, 0x00, 0x00] + AddrPortBytes(a, port) + payload) == Some(Datagram(a, port, payload))
  {
    hide AddrBytes, ParseAddress, Hi, Lo, Be16;
    var s := [0x00, 0x00, 0x00] + AddrPortBytes(a, port) + payload;
    AddressRoundTrip(a, [Hi(port), Lo(port)] + payload);
    assert AddrPortBytes(a, port) + payload == AddrBytes(a) + ([Hi(port), Lo(port)] + payload);
    Be16OfHiLo(port);
    assert s[3..] == AddrPortBytes(a, port) + payload;
    assert ([Hi(port), Lo(port)] + payload)[2..] == payload;
  }

  // ---- Nothing else is accepted ----

  lemma AddressTaken(s: seq<byte>)
    ensures var r := ParseAddress(s);
            r.Ok? ==>
              && r.value.Valid() && (r.value.Domain? ==> |r.value.name| <= 255)
              && s == AddrBytes(r.value) + r.rest
  {
  }

  lemma TargetTaken(s: seq<byte>)
    ensures var r := ParseAddress(s);
            r.Ok? && |r.rest| >= 2 ==>
              && r.value.Valid() && (r.value.Domain? ==> |r.value.name| <= 255)
              && s == AddrPortBytes(r.value, Be16(r.rest[0], r.rest[1])) + r.rest[2..]
  {
    AddressTaken(s);
    hide ParseAddress, AddrBytes, Hi, Lo, Be16;
    var r := ParseAddress(s);
    if r.Ok? && |r.rest| >= 2 {
      HiLoOfBe16(r.rest[0], r.rest[1]);
      assert r.rest == [r.rest[0], r.rest[1]] + r.rest[2..];
    }
  }

  /** A request is accepted exactly when it is version 5, a command, a reserved byte, and an address
      and port, and then it is that request and leaves what follows. */
  lemma RequestExactly(s: seq<byte>, req: Request, rest: seq<byte>)
    ensures ParseRequest(s) == Ok(req, rest) <==>
              && req.address.Valid() && (req.address.Domain? ==> |req.address.name| <= 255) && 0 <= req.port < 0x1_0000
              && exists rsv :: s == [5, req.cmd, rsv] + AddrPortBytes(req.address, req.port) + rest
  {
    hide ParseAddress, AddrPortBytes, Be16;
    if ParseRequest(s) == Ok(req, rest) {
      TargetTaken(s[3..]);
      assert s == [5, s[1], s[2]] + s[3..];
      assert s == [5, req.cmd, s[2]] + AddrPortBytes(req.address, req.port) + rest;
    }
    if req.address.Valid() && (req.address.Domain? ==> |req.address.name| <= 255) && 0 <= req.port < 0x1_0000 {
      if rsv :| s == [5, req.cmd, rsv] + AddrPortBytes(req.address, req.port) + rest {
        ApplicationRequest(req.cmd, rsv, req.address, req.port, rest);
      }
    }
  }

  /** Another version, or an address type that is none, is refused. */
  lemma WrongBytesRefused(version: byte, kind: byte, s: seq<byte>)
    ensures version != 5 ==> ParseRequest([version] + s) == Err(VersionInvalid)
    ensures kind !in {1, 3, 4} ==> ParseAddress([kind] + s) == Err(TypeInvalid)
  {
  }

  /** A request that is cut short anywhere is refused, and the error says where. */
  lemma CutRequestRefused(cmd: byte, rsv: byte, a: V.Address, port: int, at: nat)
    requires a.Valid() && (a.Domain? ==> |a.name| <= 255) && 0 <= port < 0x1_0000
    requires at < |[5, cmd, rsv] + AddrPortBytes(a, port)|
    ensures ParseRequest(([5, cmd, rsv] + AddrPortBytes(a, port))[..at]) ==
            Err(if at == 0 then VersionMissing
                else if at == 1 then CommandMissing
                else if at == 2 then RsvMissing
                else if at == 3 then TypeMissing
                else if at >= 3 + |AddrBytes(a)| then PortMissing
                else if a.IPv4? then IPv4Missing
                else if a.IPv6? then IPv6Missing
                else if at == 4 then DomainLengthMissing
                else DomainMissing)
  {
    var s := ([5, cmd, rsv] + AddrPortBytes(a, port))[..at];
    if at >= 3 + |AddrBytes(a)| {
      var left := [Hi(port), Lo(port)][..at - 3 - |AddrBytes(a)|];
      hide ParseAddress, Hi, Lo;
      AddressRoundTrip(a, left);
      assert s[3..] == AddrBytes(a) + left;
    } else if at >= 3 {
      hide Hi, Lo;
      assert s[3..] == AddrBytes(a)[..at - 3];
      CutInAddress(a, at - 3);
      hide ParseAddress, AddrBytes;
    }
  }

  lemma CutInAddress(a: V.Address, m: nat)
    requires a.Valid() && (a.Domain? ==> |a.name| <= 255) && m < |AddrBytes(a)|
    ensures ParseAddress(AddrBytes(a)[..m]) ==
            Err(if m == 0 then TypeMissing else if a.IPv4? then IPv4Missing else if a.IPv6? then IPv6Missing
                else if m == 1 then DomainLengthMissing else DomainMissing)
  {
  }

  /** A datagram is accepted exactly when it is two reserved bytes, fragment 0, an address and port,
      and the payload. */
  lemma DatagramExactly(s: seq<byte>, d: Datagram)
    ensures DatagramOf(s) == Some(d) <==>
              && d.address.Valid() && (d.address.Domain? ==> |d.address.name| <= 255) && 0 <= d.port < 0x1_0000
              && exists r0, r1 :: s == [r0, r1, 0] + AddrPortBytes(d.address, d.port) + d.payload
  {
    hide ParseAddress, AddrPortBytes, Be16;
    if DatagramOf(s) == Some(d) {
      TargetTaken(s[3..]);
      assert s == [s[0], s[1], 0] + s[3..];
      assert s == [s[0], s[1], 0] + AddrPortBytes(d.address, d.port) + d.payload;
    }
    if d.address.Valid() && (d.address.Domain? ==> |d.address.name| <= 255) && 0 <= d.port < 0x1_0000 {
      if r0, r1 :| s == [r0, r1, 0] + AddrPortBytes(d.address, d.port) + d.payload {
        ReservedIgnored(r0, r1, d);
      }
    }
  }

  lemma ReservedIgnored(r0: byte, r1: byte, d: Datagram)
    requires d.address.Valid() && (d.address.Domain? ==> |d.address.name| <= 255) && 0 <= d.port < 0x1_0000
    ensures DatagramOf([r0, r1, 0] + AddrPortBytes(d.address, d.port) + d.payload) == Some(d)
  {
    hide AddrPortBytes, ParseAddress, Be16;
    var s := [r0, r1, 0] + AddrPortBytes(d.address, d.port) + d.payload;
    var t := [0x00, 0x00, 0x00] + AddrPortBytes(d.address, d.port) + d.payload;
    DatagramRoundTrip(d.address, d.port, d.payload);
    assert AddrPortBytes(d.address, d.port) != [] by {
      NotEmpty(d.address, d.port);
    }
    assert s[3..] == t[3..];
  }

  lemma NotEmpty(a: V.Address, port: int)
    requires a.Domain? ==> |a.name| <= 255
    ensures AddrPortBytes(a, port) != []
  {
  }

  /** The two protocols number the address types differently: for the same addresses, the bytes of
      the SOCKS5 form and of the VLESS form. */
  lemma TypesOnTheWire(ip4: seq<byte>, ip6: seq<byte>, name: seq<byte>)
    requires |ip4| == 4 && |ip6| == 16 && |name| <= 255
    ensures AddrBytes(V.IPv4(ip4)) == [1] + ip4 && V.AddressBytes(V.IPv4(ip4)) == [1] + ip4
    ensures AddrBytes(V.Domain(name)) == [3, |name|] + name && V.AddressBytes(V.Domain(name)) == [2, |name|] + name
    ensures AddrBytes(V.IPv6(ip6)) == [4] + ip6 && V.AddressBytes(V.IPv6(ip6)) == [3] + ip6
  {
  }

  // ---- Through the client to the server ----

  /** toVlessRequest, with the uuid the client adds before it sends the header. */
  function ToVlessRequest(req: Request, command: byte, uuid: seq<byte>): V.Request {
    V.Request(0, uuid, command, req.port, [], [], req.address)
  }

  /** Whatever SOCKS5 request the client accepts, its VLESS header can be encoded ... */
  lemma AcceptedIsEncodable(s: seq<byte>, command: byte, uuid: seq<byte>)
    requires ParseRequest(s).Ok? && |uuid| == 16
    ensures V.Encodable(ToVlessRequest(ParseRequest(s).value, command, uuid))
  {
    hide Be16;
    AddressIsShort(s[3..]);
  }

  lemma AddressIsShort(s: seq<byte>)
    requires ParseAddress(s).Ok?
    ensures var a := ParseAddress(s).value;
            a.Valid() && (a.Domain? ==> |a.name| <= 255)
  {
  }

  /** ... and the server decodes the same kind of address, the same bytes and the same port,
      although the two protocols number address types differently. */
  lemma TargetPreserved(s: seq<byte>, command: byte, uuid: seq<byte>, users: set<seq<byte>>, rest: seq<byte>)
    requires ParseRequest(s).Ok? && |uuid| == 16 && uuid in users
    requires command == V.TCP || command == V.UDP
    ensures var req := ParseRequest(s).value;
            && V.Encodable(ToVlessRequest(req, command, uuid))
            && V.ParseRequest(V.RequestBytes(ToVlessRequest(req, command, uuid)) + rest, users) ==
               Ok(V.Request(0, uuid, command, req.port, [], [], req.address), rest)
  {
    hide V.ParseRequest, V.RequestBytes;
    AcceptedIsEncodable(s, command, uuid);
    V.HeaderRoundTrip(ToVlessRequest(ParseRequest(s).value, command, uuid), rest, users);
  }

  /** The uplink of a CONNECT session reads the application's socket, not the buffered stream
      the request was read from: what the application sent right behind its request and was
      read along with it stays in the buffer. Nothing is lost exactly when nothing is there. */
  method ConnectUplink(stream: UringBufferedStream, remote: Sink) returns (ok: bool)
    requires stream.Valid()
    modifies stream.stream, remote
    ensures var p := PushAll(old(stream.stream.chunks), old(remote.outcomes));
            remote.sent == old(remote.sent) + p.sent
    ensures NoFailure(old(stream.stream.chunks), old(remote.outcomes)) ==>
              (remote.sent == old(remote.sent) + old(stream.Remaining()) <==> old(stream.Available()) == 0)
  {
    hide PushAll, NoFailure, NoGap;
    ghost var buffered, chunks := stream.buffer[stream.consumed..], stream.stream.chunks;
    assert buffered == [] ==> buffered + Flatten(chunks) == Flatten(chunks);
    assert |buffered + Flatten(chunks)| == |buffered| + |Flatten(chunks)|;
    ok := CopyStream(remote, stream.stream);
  }

  const CONNECT: byte := 0x01

  /** A CONNECT session from the request on: of what the application sends behind its request
      the target is sent what is unread when the request has been read, and nothing is lost
      exactly when no read of the request brought more along. `linked` says whether the tunnel
      could be opened, the reply sent and what came with the tunnel's response forwarded; if
      not, the target is sent nothing. */
  method ServeApplication(stream: UringBufferedStream, remote: Sink, linked: bool)
    returns (r: Outcome<Error, Request>)
    requires stream.Valid()
    modifies stream, stream.stream, remote
    ensures var request := ParseRequest(old(stream.Remaining()));
            match request
            case Err(e) => r == Failed(e) && remote.sent == old(remote.sent)
            case Ok(value, behind) =>
              var left := AllBut(stream.arriving, |behind|);
              && r == Decoded(value)
              && (value.cmd != CONNECT || !linked ==> remote.sent == old(remote.sent))
              && (value.cmd == CONNECT && linked ==>
                    && remote.sent == old(remote.sent) + PushAll(left.chunks, old(remote.outcomes)).sent
                    && (NoFailure(left.chunks, old(remote.outcomes)) ==>
                          (remote.sent == old(remote.sent) + behind <==> left.held == [])))
  {
    hide ParseRequest, PushAll, NoFailure, AllBut;
    r := ReadRequest(stream);
    if r.Decoded? && r.value.cmd == CONNECT && linked {
      stream.HoldsWhatWasReadAlong();
      var ok := ConnectUplink(stream, remote);
    }
  }

  /** The bytes of a SOCKS5 request for a target, as an application sends them. */
  lemma ApplicationRequest(cmd: byte, rsv: byte, a: V.Address, port: int, more: seq<byte>)
    requires a.Valid() && (a.Domain? ==> |a.name| <= 255) && 0 <= port < 0x1_0000
    ensures ParseRequest([0x05, cmd, rsv] + AddrPortBytes(a, port) + more) == Ok(Request(cmd, a, port), more)
  {
    hide AddrBytes, ParseAddress, Hi, Lo, Be16;
    var s := [0x05, cmd, rsv] + AddrPortBytes(a, port) + more;
    AddressRoundTrip(a, [Hi(port), Lo(port)] + more);
    assert AddrPortBytes(a, port) + more == AddrBytes(a) + ([Hi(port), Lo(port)] + more);
    Be16OfHiLo(port);
    assert s[3..] == AddrPortBytes(a, port) + more;
    assert ([Hi(port), Lo(port)] + more)[2..] == more;
  }

  /** Two bytes sent along with the request never reach the target. */
  lemma EarlyDataIsLost()
    ensures var sent: seq<byte> := [0x05, CONNECT, 0, ATYP_IPV4, 1, 2, 3, 4, 0, 80, 7, 8];
            && ParseRequest(sent) == Ok(Request(CONNECT, V.IPv4([1, 2, 3, 4]), 80), [7, 8])
            && AllBut([sent], 2) == Reading([7, 8], [])
            && NoFailure([], [2]) && PushAll([], [2]).sent == []
  {
    var sent: seq<byte> := [0x05, CONNECT, 0, ATYP_IPV4, 1, 2, 3, 4, 0, 80, 7, 8];
    assert sent == [0x05, CONNECT, 0] + AddrPortBytes(V.IPv4([1, 2, 3, 4]), 80) + [7, 8];
    assert sent[10..] == [7, 8];
    hide AllBut, AddrPortBytes, ParseRequest;
    ApplicationRequest(CONNECT, 0, V.IPv4([1, 2, 3, 4]), 80, [7, 8]);
    AllInOnePiece(sent, 2);
  }
}
