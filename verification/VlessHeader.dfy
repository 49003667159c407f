// The VLESS request and response headers: Decoder::decode, Encoder::encodeRequest and
// Encoder::decodeResponse, over a buffered stream.
module VlessHeader {
  import opened Bytes
  import opened Streams
  import opened BufferedStream
  import opened Parsing
  import Addons

  datatype Address =
    | IPv4(ip: seq<byte>)
    | IPv6(ip: seq<byte>)
    | Domain(name: seq<byte>)
  {
    predicate Valid() {
      match this
      case IPv4(ip) => |ip| == 4
      case IPv6(ip) => |ip| == 16
      case Domain(name) => true
    }
  }

  // Commands
  const TCP: byte := 1
  const UDP: byte := 2
  const MUX: byte := 3
  const RVS: byte := 4

  // Address types
  const TYPE_IPV4: byte := 1
  const TYPE_DOMAIN: byte := 2
  const TYPE_IPV6: byte := 3

  // "v1.mux.cool" and "v1.rvs.cool"
  const MUX_DOMAIN: seq<byte> := [118, 49, 46, 109, 117, 120, 46, 99, 111, 111, 108]
  const RVS_DOMAIN: seq<byte> := [118, 49, 46, 114, 118, 115, 46, 99, 111, 111, 108]

  datatype Request = Request(
    version: byte,
    uuid: seq<byte>,
    command: byte,
    port: int,
    flow: seq<byte>,
    seed: seq<byte>,
    address: Address)

  datatype Error =
    | VersionMissing | VersionInvalid
    | UuidMissing | UuidUnknown
    | AddonsLengthMissing | AddonsMissing | AddonsInvalid
    | CommandMissing | CommandInvalid
    | PortMissing
    | TypeMissing | TypeInvalid
    | IPv4Missing | IPv6Missing | DomainLengthMissing | DomainMissing

  // ---- What a header is, on the bytes that are to come ----

  function ParseAddons(s: seq<byte>): Result<Error, Addons.Parsed> {
    if |s| < 1 then Err(AddonsLengthMissing)
    else if s[0] == 0 then Ok(Addons.Parsed(true, [], []), s[1..])
    else if |s| - 1 < s[0] as int then Err(AddonsMissing)
    else
      var parsed := Addons.Meaning(s[1..1 + s[0] as int]);
      if parsed.ok then Ok(parsed, s[1 + s[0] as int..]) else Err(AddonsInvalid)
  }

  function ParseAddress(s: seq<byte>): Result<Error, Address> {
    if |s| < 1 then Err(TypeMissing)
    else if s[0] == TYPE_IPV4 then
      if |s| < 5 then Err(IPv4Missing) else Ok(IPv4(s[1..5]), s[5..])
    else if s[0] == TYPE_DOMAIN then
      if |s| < 2 then Err(DomainLengthMissing)
      else if |s| - 2 < s[1] as int then Err(DomainMissing)
      else Ok(Domain(s[2..2 + s[1] as int]), s[2 + s[1] as int..])
    else if s[0] == TYPE_IPV6 then
      if |s| < 17 then Err(IPv6Missing) else Ok(IPv6(s[1..17]), s[17..])
    else Err(TypeInvalid)
  }

  function ParseTarget(s: seq<byte>): Result<Error, (int, Address)> {
    if |s| < 2 then Err(PortMissing)
    else
      match ParseAddress(s[2..])
      case Ok(address, rest) => Ok((Be16(s[0], s[1]), address), rest)
      case Err(e) => Err(e)
  }

  function ParseCommand(uuid: seq<byte>, addons: Addons.Parsed, s: seq<byte>): Result<Error, Request> {
    if |s| < 1 then Err(CommandMissing)
    else if s[0] == MUX then
      Ok(Request(0, uuid, MUX, 0, addons.flow, addons.seed, Domain(MUX_DOMAIN)), s[1..])
    else if s[0] == RVS then
      Ok(Request(0, uuid, RVS, 0, addons.flow, addons.seed, Domain(RVS_DOMAIN)), s[1..])
    else if s[0] == TCP || s[0] == UDP then
      match ParseTarget(s[1..])
      case Ok(target, rest) => Ok(Request(0, uuid, s[0], target.0, addons.flow, addons.seed, target.1), rest)
      case Err(e) => Err(e)
    else Err(CommandInvalid)
  }

  function ParseRequest(s: seq<byte>, users: set<seq<byte>>): Result<Error, Request> {
    if |s| < 1 then Err(VersionMissing)
    else if s[0] != 0 then Err(VersionInvalid)
    else if |s| < 17 then Err(UuidMissing)
    else if s[1..17] !in users then Err(UuidUnknown)
    else
      match ParseAddons(s[17..])
      case Ok(addons, rest) => ParseCommand(s[1..17], addons, rest)
      case Err(e) => Err(e)
  }

  // ---- Decoder::decode ----

  method Decode(stream: UringBufferedStream, users: set<seq<byte>>) returns (r: Outcome<Error, Request>)
    requires stream.Valid()
    modifies stream, stream.stream
    ensures stream.Valid()
    ensures Agrees(r, stream.Remaining(), ParseRequest(old(stream.Remaining()), users))
  {
    hide ParseAddons, ParseCommand, UringBufferedStream.Remaining, UringBufferedStream.Valid;
    ghost var s := stream.Remaining();
    var versionBytes := stream.Read(1);
    if |versionBytes| != 1 {
      return Failed(VersionMissing);
    }
    if versionBytes[0] != 0 {
      return Failed(VersionInvalid);
    }
    var uuid := stream.Read(16);
    if |uuid| != 16 {
      return Failed(UuidMissing);
    }
    assert s[1..][..16] == s[1..17] && s[1..][16..] == s[17..];
    if uuid !in users {
      return Failed(UuidUnknown);
    }
    var addons := DecodeAddons(stream);
    if addons.Failed? {
      return Failed(addons.error);
    }
    r := DecodeCommand(stream, uuid, addons.value);
  }

  method DecodeAddons(stream: UringBufferedStream) returns (r: Outcome<Error, Addons.Parsed>)
    requires stream.Valid()
    modifies stream, stream.stream
    ensures stream.Valid()
    ensures Agrees(r, stream.Remaining(), ParseAddons(old(stream.Remaining())))
  {
    hide UringBufferedStream.Remaining, UringBufferedStream.Valid, Addons.Meaning;
    ghost var s := stream.Remaining();
    var lenBytes := stream.Read(1);
    if |lenBytes| != 1 {
      return Failed(AddonsLengthMissing);
    }
    var addonsLen: nat := lenBytes[0];
    if addonsLen == 0 {
      return Decoded(Addons.Parsed(true, [], []));
    }
    var data := stream.Read(addonsLen);
    if |data| != addonsLen {
      return Failed(AddonsMissing);
    }
    assert s[1..][..addonsLen] == s[1..1 + addonsLen] && s[1..][addonsLen..] == s[1 + addonsLen..];
    var parsed := Addons.ParseAddons(data);
    if !parsed.ok {
      return Failed(AddonsInvalid);
    }
    return Decoded(parsed);
  }

  method DecodeCommand(stream: UringBufferedStream, uuid: seq<byte>, addons: Addons.Parsed)
    returns (r: Outcome<Error, Request>)
    requires stream.Valid()
    modifies stream, stream.stream
    ensures stream.Valid()
    ensures Agrees(r, stream.Remaining(), ParseCommand(uuid, addons, old(stream.Remaining())))
  {
    hide UringBufferedStream.Remaining, UringBufferedStream.Valid, ParseAddress;
    ghost var s := stream.Remaining();
    var cmdBytes := stream.Read(1);
    if |cmdBytes| != 1 {
      return Failed(CommandMissing);
    }
    var command := cmdBytes[0];
    if command == MUX {
      return Decoded(Request(0, uuid, MUX, 0, addons.flow, addons.seed, Domain(MUX_DOMAIN)));
    } else if command == RVS {
      return Decoded(Request(0, uuid, RVS, 0, addons.flow, addons.seed, Domain(RVS_DOMAIN)));
    } else if command == TCP || command == UDP {
      var portBytes := stream.Read(2);
      if |portBytes| != 2 {
        return Failed(PortMissing);
      }
      var port := Be16(portBytes[0], portBytes[1]);
      var address := ReadAddress(stream);
      if address.Failed? {
        return Failed(address.error);
      }
      return Decoded(Request(0, uuid, command, port, addons.flow, addons.seed, address.value));
    } else {
      return Failed(CommandInvalid);
    }
  }

  method ReadAddress(stream: UringBufferedStream) returns (r: Outcome<Error, Address>)
    requires stream.Valid()
    modifies stream, stream.stream
    ensures stream.Valid()
    ensures Agrees(r, stream.Remaining(), ParseAddress(old(stream.Remaining())))
  {
    hide UringBufferedStream.Remaining, UringBufferedStream.Valid;
    ghost var s := stream.Remaining();
    var typeBytes := stream.Read(1);
    if |typeBytes| != 1 {
      return Failed(TypeMissing);
    }
    if typeBytes[0] == TYPE_IPV4 {
      var ip := stream.Read(4);
      if |ip| != 4 {
        return Failed(IPv4Missing);
      }
      assert s[1..][..4] == s[1..5] && s[1..][4..] == s[5..];
      return Decoded(IPv4(ip));
    } else if typeBytes[0] == TYPE_DOMAIN {
      var lenBytes := stream.Read(1);
      if |lenBytes| != 1 {
        return Failed(DomainLengthMissing);
      }
      var domainLen: nat := lenBytes[0];
      assert s[1..][1..] == s[2..];
      var domain := stream.Read(domainLen);
      if |domain| != domainLen {
        return Failed(DomainMissing);
      }
      assert s[2..][..domainLen] == s[2..2 + domainLen] && s[2..][domainLen..] == s[2 + domainLen..];
      return Decoded(Domain(domain));
    } else if typeBytes[0] == TYPE_IPV6 {
      var ip := stream.Read(16);
      if |ip| != 16 {
        return Failed(IPv6Missing);
      }
      assert s[1..][..16] == s[1..17] && s[1..][16..] == s[17..];
      return Decoded(IPv6(ip));
    } else {
      return Failed(TypeInvalid);
    }
  }

  /** processHandshake: decode, then hand over what is already buffered. With the pieces
      still unread that is exactly what followed the header. */
  method ProcessHandshake(stream: UringBufferedStream, users: set<seq<byte>>)
    returns (r: Outcome<Error, Request>, handshakeRemaining: seq<byte>)
    requires stream.Valid()
    modifies stream, stream.stream
    ensures stream.Valid()
    ensures Agrees(r, handshakeRemaining + Flatten(stream.stream.chunks), ParseRequest(old(stream.Remaining()), users))
  {
    hide ParseRequest;
    handshakeRemaining := [];
    r := Decode(stream, users);
    if r.Decoded? {
      handshakeRemaining := stream.DrainRemaining();
    }
  }

  // ---- Encoder::encodeRequest ----

  function AddressBytes(a: Address): seq<byte>
    requires a.Domain? ==> |a.name| <= 255
  {
    match a
    case IPv4(ip) => [TYPE_IPV4] + ip
    case IPv6(ip) => [TYPE_IPV6] + ip
    case Domain(name) => [TYPE_DOMAIN, |name|] + name
  }

  function RequestBytes(req: Request): seq<byte>
    requires req.address.Domain? ==> |req.address.name| <= 255
  {
    [0] + req.uuid + [0, req.command, Hi(req.port), Lo(req.port)] + AddressBytes(req.address)
  }

  /** Throws (None) exactly when the domain does not fit its length byte. */
  method EncodeRequest(req: Request) returns (r: Option<seq<byte>>)
    ensures r.Some? <==> (req.address.Domain? ==> |req.address.name| <= 255)
    ensures r.Some? ==> r.value == RequestBytes(req)
  {
    var out: seq<byte> := [0x00];
    out := out + req.uuid;
    out := out + [0x00];
    out := out + [req.command];
    out := out + [Hi(req.port)];
    out := out + [Lo(req.port)];
    assert out == [0] + req.uuid + [0, req.command, Hi(req.port), Lo(req.port)];
    r := WriteAddress(out, req.address);
  }

  method WriteAddress(soFar: seq<byte>, a: Address) returns (r: Option<seq<byte>>)
    ensures r.Some? <==> (a.Domain? ==> |a.name| <= 255)
    ensures r.Some? ==> r.value == soFar + AddressBytes(a)
  {
    var out := soFar;
    match a {
      case IPv4(ip) =>
        out := out + [TYPE_IPV4];
        out := out + ip;
      case IPv6(ip) =>
        out := out + [TYPE_IPV6];
        out := out + ip;
      case Domain(name) =>
        if |name| > 255 {
          return None;
        }
        out := out + [TYPE_DOMAIN];
        out := out + [|name|];
        out := out + name;
        assert soFar + [TYPE_DOMAIN] + [|name|] + name == soFar + AddressBytes(a);
    }
    return Some(out);
  }

  // ---- The decoder inverts the encoder ----

  ghost predicate Encodable(req: Request) {
    && |req.uuid| == 16 && 0 <= req.port < 0x1_0000 && req.address.Valid()
    && (req.address.Domain? ==> |req.address.name| <= 255)
  }

  lemma AddressRoundTrip(a: Address, rest: seq<byte>)
    requires a.Valid() && (a.Domain? ==> |a.name| <= 255)
    ensures ParseAddress(AddressBytes(a) + rest) == Ok(a, rest)
  {
    var s := AddressBytes(a) + rest;
    match a {
      case IPv4(ip) => assert s[1..5] == ip && s[5..] == rest;
      case IPv6(ip) => assert s[1..17] == ip && s[17..] == rest;
      case Domain(name) => assert s[2..2 + |name|] == name && s[2 + |name|..] == rest;
    }
  }

  /** For every request with a registered uuid, what the server reads from the encoded header
      followed by anything is the same request followed by that thing, exactly for the commands
      that carry an address; for Mux and Rvs the decoder leaves the port and address unread. */
  lemma HeaderRoundTrip(req: Request, rest: seq<byte>, users: set<seq<byte>>)
    requires Encodable(req) && req.uuid in users
    ensures var r := ParseRequest(RequestBytes(req) + rest, users);
            && (req.command == TCP || req.command == UDP <==>
                  r == Ok(Request(0, req.uuid, req.command, req.port, [], [], req.address), rest))
            && (req.command == MUX || req.command == RVS ==>
                  r.Ok? && r.rest == [Hi(req.port), Lo(req.port)] + AddressBytes(req.address) + rest)
            && (req.command == 0 || req.command > RVS ==> r == Err(CommandInvalid))
  {
    hide ParseAddress, AddressBytes, Hi, Lo, Be16;
    var s := RequestBytes(req) + rest;
    var target := [Hi(req.port), Lo(req.port)] + AddressBytes(req.address) + rest;
    var tail := [req.command] + target;
    assert s == [0] + req.uuid + ([0] + tail);
    assert s[1..17] == req.uuid && s[17..] == [0] + tail && ([0] + tail)[1..] == tail;
    assert tail[1..] == target;
    assert target[2..] == AddressBytes(req.address) + rest;
    AddressRoundTrip(req.address, rest);
    Be16OfHiLo(req.port);
    AddressNotEmpty(req.address);
  }

  lemma AddressNotEmpty(a: Address)
    requires a.Domain? ==> |a.name| <= 255
    ensures AddressBytes(a) != []
  {
  }

  /** A request from a uuid that is not registered is always rejected. */
  lemma UnknownUserRejected(req: Request, rest: seq<byte>, users: set<seq<byte>>)
    requires Encodable(req) && req.uuid !in users
    ensures ParseRequest(RequestBytes(req) + rest, users) == Err(UuidUnknown)
  {
    hide AddressBytes;
    var s := RequestBytes(req) + rest;
    var tail := [0, req.command, Hi(req.port), Lo(req.port)] + AddressBytes(req.address) + rest;
    assert s == [0] + req.uuid + tail;
    assert s[1..17] == req.uuid;
  }

  /** The server's handshake on the header that a client encoded, however it arrives and
      whatever follows it: the request comes back, and what is kept with what is still to come
      is what followed, exactly for a registered user and the commands that carry an address. */
  method ServeRequest(source: Source, users: set<seq<byte>>, ghost req: Request, ghost rest: seq<byte>)
    returns (r: Outcome<Error, Request>, kept: seq<byte>)
    requires source.Valid() && Encodable(req) && Flatten(source.chunks) == RequestBytes(req) + rest
    modifies source
    ensures req.uuid in users && (req.command == TCP || req.command == UDP) <==>
              && r == Decoded(Request(0, req.uuid, req.command, req.port, [], [], req.address))
              && kept + Flatten(source.chunks) == rest
    ensures req.uuid !in users ==> r == Failed(UuidUnknown)
    ensures req.uuid in users && (req.command == 0 || req.command > RVS) ==> r == Failed(CommandInvalid)
  {
    hide ParseRequest, RequestBytes;
    if req.uuid in users {
      HeaderRoundTrip(req, rest, users);
    } else {
      UnknownUserRejected(req, rest, users);
    }
    var stream := new UringBufferedStream(source);
    r, kept := ProcessHandshake(stream, users);
  }

  // ---- Responses ----

  function EncodeResponse(version: byte): seq<byte> {
    [version, 0x00]
  }

  function ParseResponse(s: seq<byte>): Option<seq<byte>> {
    if |s| < 2 || s[0] != 0 || |s| - 2 < s[1] as int then None else Some(s[2 + s[1] as int..])
  }

  method DecodeResponse(stream: UringBufferedStream) returns (ok: bool)
    requires stream.Valid()
    modifies stream, stream.stream
    ensures stream.Valid()
    ensures ok <==> ParseResponse(old(stream.Remaining())).Some?
    ensures ok ==> stream.Remaining() == ParseResponse(old(stream.Remaining())).value
  {
    hide UringBufferedStream.Remaining, UringBufferedStream.Valid;
    ghost var s := stream.Remaining();
    var data := stream.Read(2);
    if |data| != 2 {
      return false;
    }
    if data[0] != 0 {
      return false;
    }
    var addonsLen: nat := data[1];
    if addonsLen > 0 {
      var addons := stream.Read(addonsLen);
      if |addons| != addonsLen {
        return false;
      }
      assert s[2..][addonsLen..] == s[2 + addonsLen..];
    }
    return true;
  }

  /** The client accepts the server's response header exactly for version 0, and then finds
      all that follows it. */
  lemma ResponseRoundTrip(version: byte, rest: seq<byte>)
    ensures ParseResponse(EncodeResponse(version) + rest) == if version == 0 then Some(rest) else None
  {
    var s := EncodeResponse(version) + rest;
    assert s[2..] == rest;
  }
}
