// Whole VLESS request headers: what any header with an addons block decodes to, what a cut one
// gives, and that nothing else is accepted.
module VlessRequests {
  import opened Bytes
  import opened Streams
  import opened BufferedStream
  import opened Parsing
  import opened VlessHeader
  import A = Addons

  /** A header: version, uuid, addons block behind its length, and the rest. */
  function HeaderBytes(uuid: seq<byte>, block: seq<byte>, behind: seq<byte>): seq<byte>
    requires |block| <= 255
  {
    [0] + uuid + [|block|] + block + behind
  }

  function TargetBytes(command: byte, port: int, a: Address): seq<byte>
    requires a.Domain? ==> |a.name| <= 255
  {
    [command, Hi(port), Lo(port)] + AddressBytes(a)
  }

  ghost predicate Block(block: seq<byte>, fs: seq<A.Field>) {
    A.AllWellFormed(fs) && A.WireOf(fs) == block
  }

  /** The block is read off, and decides together with what follows it. */
  lemma BlockInFront(uuid: seq<byte>, block: seq<byte>, behind: seq<byte>, users: set<seq<byte>>)
    requires |uuid| == 16 && uuid in users && |block| <= 255
    ensures var r := ParseRequest(HeaderBytes(uuid, block, behind), users);
            && (A.Meaning(block).ok ==> r == ParseCommand(uuid, A.Meaning(block), behind))
            && (!A.Meaning(block).ok ==> r == Err(AddonsInvalid))
  {
    var tail := [|block|] + block + behind;
    var s := HeaderBytes(uuid, block, behind);
    assert s == [0] + uuid + tail;
    assert s[1..17] == uuid && s[17..] == tail;
    assert tail[1..1 + |block|] == block && tail[1 + |block|..] == behind;
    if block == [] {
      EmptyBlock();
      assert tail[1..] == behind;
    }
    hide ParseCommand, A.Meaning, HeaderBytes;
  }

  lemma EmptyBlock()
    ensures A.Meaning([]) == A.Parsed(true, [], [])
  {
    assert Block([], []);
    A.AddonsMeaning([]);
  }

  /** A request and what its header says: flow and seed are fields 1 and 2 of the block. */
  ghost predicate Says(req: Request, uuid: seq<byte>, fs: seq<A.Field>, command: byte, port: int, a: Address) {
    && req.version == 0 && req.uuid == uuid && req.command == command && req.port == port && req.address == a
    && A.LastSays(fs, 1, req.flow) && A.LastSays(fs, 2, req.seed)
  }

  lemma BlockSays(block: seq<byte>, fs: seq<A.Field>)
    requires Block(block, fs)
    ensures A.Meaning(block).ok
    ensures A.LastSays(fs, 1, A.Meaning(block).flow) && A.LastSays(fs, 2, A.Meaning(block).seed)
  {
    hide A.LastSays, A.LastOf, A.Meaning;
    A.AddonsMeaning(block);
    A.LastOfSays(fs, 1);
    A.LastOfSays(fs, 2);
  }

  /** Every header of a registered user for TCP or UDP, with any well-formed addons, decodes to
      the request it says and leaves what follows. */
  lemma HeaderDecodes(uuid: seq<byte>, fs: seq<A.Field>, command: byte, port: int, a: Address, rest: seq<byte>,
                      users: set<seq<byte>>)
    requires |uuid| == 16 && uuid in users && A.AllWellFormed(fs) && |A.WireOf(fs)| <= 255
    requires (command == 1 || command == 2) && 0 <= port < 0x1_0000
    requires a.Valid() && (a.Domain? ==> |a.name| <= 255)
    ensures var r := ParseRequest(HeaderBytes(uuid, A.WireOf(fs), TargetBytes(command, port, a) + rest), users);
            r.Ok? && Says(r.value, uuid, fs, command, port, a) && r.rest == rest
  {
    var block := A.WireOf(fs);
    BlockSays(block, fs);
    hide A.WireOf, A.AllWellFormed, A.LastSays, A.Meaning, ParseRequest, ParseCommand, HeaderBytes, TargetBytes;
    BlockInFront(uuid, block, TargetBytes(command, port, a) + rest, users);
    CommandRead(uuid, A.Meaning(block), command, port, a, rest);
  }

  lemma CommandRead(uuid: seq<byte>, addons: A.Parsed, command: byte, port: int, a: Address, rest: seq<byte>)
    requires (command == 1 || command == 2) && 0 <= port < 0x1_0000 && a.Valid() && (a.Domain? ==> |a.name| <= 255)
    ensures ParseCommand(uuid, addons, TargetBytes(command, port, a) + rest) ==
            Ok(Request(0, uuid, command, port, addons.flow, addons.seed, a), rest)
  {
    hide ParseTarget, AddressBytes, Hi, Lo;
    TargetRead(port, a, rest);
    assert (TargetBytes(command, port, a) + rest)[1..] == [Hi(port), Lo(port)] + AddressBytes(a) + rest;
  }

  lemma TargetRead(port: int, a: Address, rest: seq<byte>)
    requires 0 <= port < 0x1_0000 && a.Valid() && (a.Domain? ==> |a.name| <= 255)
    ensures ParseTarget([Hi(port), Lo(port)] + AddressBytes(a) + rest) == Ok((port, a), rest)
  {
    hide ParseAddress, AddressBytes, Hi, Lo, Be16;
    var s := [Hi(port), Lo(port)] + AddressBytes(a) + rest;
    AddressRoundTrip(a, rest);
    Be16OfHiLo(port);
    assert s[2..] == AddressBytes(a) + rest;
  }

  /** The other commands: Mux and Rvs stand for fixed targets and leave all that follows the
      command; any other is refused. */
  lemma OtherCommands(uuid: seq<byte>, fs: seq<A.Field>, command: byte, rest: seq<byte>, users: set<seq<byte>>)
    requires |uuid| == 16 && uuid in users && A.AllWellFormed(fs) && |A.WireOf(fs)| <= 255
    requires command != 1 && command != 2
    ensures var r := ParseRequest(HeaderBytes(uuid, A.WireOf(fs), [command] + rest), users);
            && (command == 3 ==> r.Ok? && r.rest == rest && Says(r.value, uuid, fs, 3, 0, Domain(Text("v1.mux.cool"))))
            && (command == 4 ==> r.Ok? && r.rest == rest && Says(r.value, uuid, fs, 4, 0, Domain(Text("v1.rvs.cool"))))
            && (command != 3 && command != 4 ==> r == Err(CommandInvalid))
  {
    var block := A.WireOf(fs);
    var behind := [command] + rest;
    BlockInFront(uuid, block, behind, users);
    BlockSays(block, fs);
    FixedDomains();
    hide A.WireOf, A.AllWellFormed, A.LastSays, A.Meaning, ParseRequest, HeaderBytes, Text, ParseTarget;
    assert behind[1..] == rest;
  }

  function Text(s: string): seq<byte> {
    seq(|s|, i requires 0 <= i < |s| => if s[i] as int < 256 then s[i] as int else 0)
  }

  lemma FixedDomains()
    ensures MUX_DOMAIN == Text("v1.mux.cool") && RVS_DOMAIN == Text("v1.rvs.cool")
  {
  }

  /** A block that is no sequence of well-formed fields is refused, whatever follows it. */
  lemma IllFormedRefused(uuid: seq<byte>, block: seq<byte>, behind: seq<byte>, users: set<seq<byte>>)
    requires |uuid| == 16 && uuid in users && |block| <= 255 && !exists fs :: Block(block, fs)
    ensures ParseRequest(HeaderBytes(uuid, block, behind), users) == Err(AddonsInvalid)
  {
    hide A.WireOf, A.AllWellFormed, A.Meaning, ParseRequest;
    BlockInFront(uuid, block, behind, users);
    A.AddonsMeaning(block);
    assert forall fs :: Block(block, fs) <==> A.AllWellFormed(fs) && A.WireOf(fs) == block;
  }

  // ---- A header that ends too soon ----

  /** Where a header with a block of n bytes ends too soon, and the error it gives. */
  function CutAt(n: nat, a: Address, at: nat): Error {
    if at == 0 then VersionMissing
    else if at < 17 then UuidMissing
    else if at == 17 then AddonsLengthMissing
    else if at < 18 + n then AddonsMissing
    else if at == 18 + n then CommandMissing
    else if at < 21 + n then PortMissing
    else if at == 21 + n then TypeMissing
    else if a.IPv4? then IPv4Missing
    else if a.IPv6? then IPv6Missing
    else if at == 22 + n then DomainLengthMissing
    else DomainMissing
  }

  /** Every header that is cut short anywhere is refused, and the error says where. */
  lemma CutHeaderRefused(uuid: seq<byte>, fs: seq<A.Field>, command: byte, port: int, a: Address, at: nat,
                         users: set<seq<byte>>)
    requires |uuid| == 16 && uuid in users && A.AllWellFormed(fs) && |A.WireOf(fs)| <= 255
    requires (command == 1 || command == 2) && 0 <= port < 0x1_0000
    requires a.Valid() && (a.Domain? ==> |a.name| <= 255)
    requires at < |HeaderBytes(uuid, A.WireOf(fs), TargetBytes(command, port, a))|
    ensures ParseRequest(HeaderBytes(uuid, A.WireOf(fs), TargetBytes(command, port, a))[..at], users)
         == Err(CutAt(|A.WireOf(fs)|, a, at))
  {
    var block, target := A.WireOf(fs), TargetBytes(command, port, a);
    BlockSays(block, fs);
    hide A.WireOf, A.AllWellFormed, A.LastSays, A.Meaning, TargetBytes;
    var n := |block|;
    hide ParseRequest, ParseCommand, CutAt;
    if at < 18 + n {
      CutInBlock(uuid, block, target, a, at, users);
    } else {
      var m := at - 18 - n;
      CutBehind(uuid, block, target, m);
      hide HeaderBytes;
      BlockInFront(uuid, block, target[..m], users);
      CutInTarget(uuid, A.Meaning(block), command, port, a, n, m);
    }
  }

  lemma CutBehind(uuid: seq<byte>, block: seq<byte>, behind: seq<byte>, m: nat)
    requires |uuid| == 16 && |block| <= 255
    ensures |HeaderBytes(uuid, block, behind)| == 18 + |block| + |behind|
    ensures m <= |behind| ==>
              HeaderBytes(uuid, block, behind)[..18 + |block| + m] == HeaderBytes(uuid, block, behind[..m])
  {
  }

  lemma CutInBlock(uuid: seq<byte>, block: seq<byte>, behind: seq<byte>, a: Address, at: nat, users: set<seq<byte>>)
    requires |uuid| == 16 && uuid in users && |block| <= 255 && at < 18 + |block|
    ensures at <= |HeaderBytes(uuid, block, behind)|
    ensures ParseRequest(HeaderBytes(uuid, block, behind)[..at], users) == Err(CutAt(|block|, a, at))
  {
    hide A.Meaning, ParseCommand;
    var whole := HeaderBytes(uuid, block, behind);
    var s := whole[..at];
    assert whole[0] == 0 && whole[1..17] == uuid && whole[17] == |block|;
    hide HeaderBytes;
    if at >= 17 {
      assert s[1..17] == uuid;
      assert at > 17 ==> s[17..][0] == |block|;
    }
  }

  lemma CutInTarget(uuid: seq<byte>, addons: A.Parsed, command: byte, port: int, a: Address, n: nat, m: nat)
    requires (command == 1 || command == 2) && 0 <= port < 0x1_0000
    requires a.Valid() && (a.Domain? ==> |a.name| <= 255) && m < |TargetBytes(command, port, a)|
    ensures ParseCommand(uuid, addons, TargetBytes(command, port, a)[..m]) == Err(CutAt(n, a, 18 + n + m))
  {
    hide Hi, Lo, AddressBytes, ParseAddress;
    var s := TargetBytes(command, port, a)[..m];
    if m >= 3 {
      assert s[1..][2..] == AddressBytes(a)[..m - 3];
      CutInAddress(a, m - 3);
    }
  }

  lemma CutInAddress(a: Address, m: nat)
    requires a.Valid() && (a.Domain? ==> |a.name| <= 255) && m < |AddressBytes(a)|
    ensures ParseAddress(AddressBytes(a)[..m]) ==
            Err(if m == 0 then TypeMissing else if a.IPv4? then IPv4Missing else if a.IPv6? then IPv6Missing
                else if m == 1 then DomainLengthMissing else DomainMissing)
  {
  }

  /** Another version, or an address type that is none, is refused. */
  lemma WrongBytesRefused(version: byte, kind: byte, s: seq<byte>, users: set<seq<byte>>)
    ensures version != 0 ==> ParseRequest([version] + s, users) == Err(VersionInvalid)
    ensures kind !in {1, 2, 3} ==> ParseAddress([kind] + s) == Err(TypeInvalid)
  {
  }

  // ---- Nothing else is accepted ----

  /** What is accepted for TCP or UDP is the header of the request it gives, with some
      well-formed block, and what is left is what follows it. */
  lemma AcceptedIsAHeader(s: seq<byte>, users: set<seq<byte>>)
    requires var r := ParseRequest(s, users); r.Ok? && (r.value.command == 1 || r.value.command == 2)
    ensures var r := ParseRequest(s, users);
            && r.value.uuid in users && Encodable(r.value)
            && exists fs ::
                 && A.AllWellFormed(fs) && |A.WireOf(fs)| <= 255
                 && s == HeaderBytes(r.value.uuid, A.WireOf(fs),
                                     TargetBytes(r.value.command, r.value.port, r.value.address) + r.rest)
  {
    var r := ParseRequest(s, users);
    hide ParseAddons, ParseCommand, A.WireOf, A.AllWellFormed;
    var uuid := s[1..17];
    var addons := ParseAddons(s[17..]);
    BlockTaken(s[17..]);
    CommandTaken(uuid, addons.value, addons.rest);
    var fs :| A.AllWellFormed(fs) && |A.WireOf(fs)| <= 255 && s[17..] == [|A.WireOf(fs)|] + A.WireOf(fs) + addons.rest;
    assert s == [0] + uuid + s[17..];
    hide TargetBytes;
    assert s == HeaderBytes(uuid, A.WireOf(fs), addons.rest);
  }

  lemma BlockTaken(s: seq<byte>)
    ensures var r := ParseAddons(s);
            r.Ok? ==>
              exists fs ::
                && A.AllWellFormed(fs) && |A.WireOf(fs)| <= 255
                && s == [|A.WireOf(fs)|] + A.WireOf(fs) + r.rest
  {
    hide A.WireOf, A.AllWellFormed, A.Meaning;
    var r := ParseAddons(s);
    if r.Ok? {
      var n: nat := s[0];
      var block := s[1..1 + n];
      EmptyBlock();
      if n == 0 {
        assert block == [];
      }
      A.AddonsMeaning(block);
      var fs :| A.AllWellFormed(fs) && A.WireOf(fs) == block;
      assert s == [n] + block + r.rest;
    }
  }

  lemma CommandTaken(uuid: seq<byte>, addons: A.Parsed, s: seq<byte>)
    ensures var r := ParseCommand(uuid, addons, s);
            r.Ok? && (r.value.command == 1 || r.value.command == 2) ==>
              && r.value.uuid == uuid && 0 <= r.value.port < 0x1_0000 && r.value.address.Valid()
              && (r.value.address.Domain? ==> |r.value.address.name| <= 255)
              && s == TargetBytes(r.value.command, r.value.port, r.value.address) + r.rest
  {
    hide ParseTarget, AddressBytes, Hi, Lo;
    if s != [] {
      TargetTaken(s[1..]);
      assert s == [s[0]] + s[1..];
      var r := ParseTarget(s[1..]);
      if r.Ok? {
        var a, p := AddressBytes(r.value.1), [Hi(r.value.0), Lo(r.value.0)];
        assert [s[0]] + (p + a + r.rest) == [s[0], p[0], p[1]] + a + r.rest;
      }
    }
  }

  lemma TargetTaken(s: seq<byte>)
    ensures var r := ParseTarget(s);
            r.Ok? ==>
              && 0 <= r.value.0 < 0x1_0000 && r.value.1.Valid() && (r.value.1.Domain? ==> |r.value.1.name| <= 255)
              && s == [Hi(r.value.0), Lo(r.value.0)] + AddressBytes(r.value.1) + r.rest
  {
    hide ParseAddress, AddressBytes, Be16, Hi, Lo;
    if |s| >= 2 {
      AddressTaken(s[2..]);
      HiLoOfBe16(s[0], s[1]);
      assert s == [s[0], s[1]] + s[2..];
    }
  }

  lemma AddressTaken(s: seq<byte>)
    ensures var r := ParseAddress(s);
            r.Ok? ==>
              && r.value.Valid() && (r.value.Domain? ==> |r.value.name| <= 255)
              && s == AddressBytes(r.value) + r.rest
  {
  }

  // ---- At the server ----

  lemma UnknownRefused(uuid: seq<byte>, block: seq<byte>, behind: seq<byte>, users: set<seq<byte>>)
    requires |uuid| == 16 && uuid !in users && |block| <= 255
    ensures ParseRequest(HeaderBytes(uuid, block, behind), users) == Err(UuidUnknown)
  {
    var s := HeaderBytes(uuid, block, behind);
    assert s[0] == 0 && s[1..17] == uuid;
    hide HeaderBytes;
  }

  /** The server's handshake on any header for TCP or UDP, however it arrives and whatever follows
      it: the request is the one the header says, with the flow and seed of its block, and what
      is kept with what is still to come is what follows. */
  method ServeHeader(source: Source, users: set<seq<byte>>, ghost uuid: seq<byte>, ghost block: seq<byte>,
                     ghost command: byte, ghost port: int, ghost a: Address, ghost rest: seq<byte>)
    returns (r: Outcome<Error, Request>, kept: seq<byte>)
    requires source.Valid() && |uuid| == 16 && |block| <= 255 && (command == 1 || command == 2)
    requires 0 <= port < 0x1_0000 && a.Valid() && (a.Domain? ==> |a.name| <= 255)
    requires Flatten(source.chunks) == HeaderBytes(uuid, block, TargetBytes(command, port, a) + rest)
    modifies source
    ensures uuid !in users ==> r == Failed(UuidUnknown)
    ensures uuid in users && (forall fs :: !Block(block, fs)) ==> r == Failed(AddonsInvalid)
    ensures uuid in users ==>
              forall fs :: Block(block, fs) ==>
                && r.Decoded? && Says(r.value, uuid, fs, command, port, a)
                && kept + Flatten(source.chunks) == rest
  {
    hide ParseRequest, Says, A.AllWellFormed, A.WireOf, HeaderBytes, TargetBytes;
    if uuid !in users {
      UnknownRefused(uuid, block, TargetBytes(command, port, a) + rest, users);
    } else {
      HeaderMeans(uuid, block, command, port, a, rest, users);
    }
    hide Block;
    var stream := new UringBufferedStream(source);
    r, kept := ProcessHandshake(stream, users);
  }

  lemma HeaderMeans(uuid: seq<byte>, block: seq<byte>, command: byte, port: int, a: Address, rest: seq<byte>,
                    users: set<seq<byte>>)
    requires |uuid| == 16 && uuid in users && |block| <= 255 && (command == 1 || command == 2)
    requires 0 <= port < 0x1_0000 && a.Valid() && (a.Domain? ==> |a.name| <= 255)
    ensures var r := ParseRequest(HeaderBytes(uuid, block, TargetBytes(command, port, a) + rest), users);
            && ((forall fs :: !Block(block, fs)) ==> r == Err(AddonsInvalid))
            && forall fs :: Block(block, fs) ==> r.Ok? && Says(r.value, uuid, fs, command, port, a) && r.rest == rest
  {
    hide ParseRequest, Says, A.AllWellFormed, A.WireOf, HeaderBytes, TargetBytes;
    forall fs | Block(block, fs)
      ensures var r := ParseRequest(HeaderBytes(uuid, block, TargetBytes(command, port, a) + rest), users);
              r.Ok? && Says(r.value, uuid, fs, command, port, a) && r.rest == rest
    {
      HeaderDecodes(uuid, fs, command, port, a, rest, users);
    }
    if forall fs :: !Block(block, fs) {
      IllFormedRefused(uuid, block, TargetBytes(command, port, a) + rest, users);
    }
  }

  /** The header of a Vision client: one field numbered 1 that names the flow. */
  lemma VisionHeader(uuid: seq<byte>, rest: seq<byte>, users: set<seq<byte>>)
    requires |uuid| == 16 && uuid in users
    ensures ParseRequest([0] + uuid + [18, 0x0A, 16] + Text("xtls-rprx-vision")
                         + [1, 0x01, 0xBB, 1, 1, 2, 3, 4] + rest, users)
         == Ok(Request(0, uuid, 1, 443, Text("xtls-rprx-vision"), [], IPv4([1, 2, 3, 4])), rest)
  {
    var flow := Text("xtls-rprx-vision");
    var f := A.Field([0x0A], [16], flow);
    OneField(f);
    hide Text, ParseRequest, A.LastSays, A.Value;
    var fs, a := [f], IPv4([1, 2, 3, 4]);
    assert TargetBytes(1, 443, a) == [1, 0x01, 0xBB, 1, 1, 2, 3, 4];
    hide TargetBytes;
    assert HeaderBytes(uuid, f.Wire(), TargetBytes(1, 443, a) + rest)
        == [0] + uuid + [18, 0x0A, 16] + flow + [1, 0x01, 0xBB, 1, 1, 2, 3, 4] + rest;
    HeaderDecodes(uuid, fs, 1, 443, a, rest, users);
  }

  lemma OneField(f: A.Field)
    requires f == A.Field([0x0A], [16], Text("xtls-rprx-vision"))
    ensures A.AllWellFormed([f]) && A.WireOf([f]) == f.Wire()
    ensures forall v :: (A.LastSays([f], 1, v) <==> v == f.payload) && (A.LastSays([f], 2, v) <==> v == [])
  {
    assert A.Value([0x0A]) == 10 by {
      assert A.GroupSum([0x0A]) == 10 + 128 * A.GroupSum([0x0A][1..]);
    }
    assert A.Value([16]) == 16 by {
      assert A.GroupSum([16]) == 16 + 128 * A.GroupSum([16][1..]);
    }
    assert [f][1..] == [] && f.Wire() + [] == f.Wire();
    hide A.Value;
    assert A.LastAt([f], 1, 0);
  }

  // ---- Responses ----

  /** A response with any addons is accepted exactly for version 0, and then all that follows it
      is left; one that is cut short is refused. */
  lemma ResponseDecodes(version: byte, block: seq<byte>, rest: seq<byte>, at: nat)
    requires |block| <= 255
    ensures ParseResponse([version, |block|] + block + rest) == if version == 0 then Some(rest) else None
    ensures at < 2 + |block| ==> ParseResponse(([version, |block|] + block + rest)[..at]) == None
  {
    var s := [version, |block|] + block + rest;
    assert s[2 + |block|..] == rest;
  }
}
