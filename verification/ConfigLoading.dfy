// What loadServerConfig makes of any JSON object, field by field: a member of the right kind
// replaces the earlier value, and anything else leaves it.
module ConfigLoading {
  import opened Bytes
  import opened Json
  import opened JsonText
  import opened Decimal
  import opened Config

  // ---- The first member with a key ----

  ghost predicate FirstWith(members: seq<Member>, key: string, i: int) {
    0 <= i < |members| && members[i].key == key && forall j :: 0 <= j < i ==> members[j].key != key
  }

  lemma {:induction false} GetIsFirst(members: seq<Member>, key: string)
    ensures Get(members, key).None? <==> forall i :: 0 <= i < |members| ==> members[i].key != key
    ensures Get(members, key).Some? ==>
              exists i :: FirstWith(members, key, i) && Get(members, key).value == members[i].value
  {
    if members != [] {
      if members[0].key == key {
        assert FirstWith(members, key, 0);
      } else {
        var more := members[1..];
        GetIsFirst(more, key);
        if i :| FirstWith(more, key, i) && Get(members, key).value == more[i].value {
          assert FirstWith(members, key, i + 1);
        }
      }
    }
  }

  // ---- One field ----

  ghost predicate Text(members: seq<Member>, key: string, before: string, now: string) {
    match Get(members, key)
    case Some(Str(s)) => now == s
    case _ => now == before
  }

  ghost predicate Flag(members: seq<Member>, key: string, before: bool, now: bool) {
    match Get(members, key)
    case Some(Bool(b)) => now == b
    case _ => now == before
  }

  /** A number is cut to an unsigned field of 16 bits. */
  ghost predicate Port(members: seq<Member>, key: string, before: int, now: int) {
    match Get(members, key)
    case Some(Number(token)) => 0 <= now < 0x1_0000 && (now - IntegerOf(token)) % 0x1_0000 == 0
    case _ => now == before
  }

  /** A number is cut to a signed field of 32 bits. */
  ghost predicate Count(members: seq<Member>, key: string, before: int, now: int) {
    match Get(members, key)
    case Some(Number(token)) =>
      -0x8000_0000 <= now < 0x8000_0000 && (now - IntegerOf(token)) % 0x1_0000_0000 == 0
    case _ => now == before
  }

  lemma PortCut(n: int)
    ensures (n % 0x1_0000 - n) % 0x1_0000 == 0
  {
    assert n % 0x1_0000 - n == -(n / 0x1_0000) * 0x1_0000;
  }

  lemma CountCut(n: int)
    ensures (AsInt32(n) - n) % 0x1_0000_0000 == 0
  {
    var low := n % 0x1_0000_0000;
    assert low - n == -(n / 0x1_0000_0000) * 0x1_0000_0000;
    assert low - 0x1_0000_0000 - n == (-(n / 0x1_0000_0000) - 1) * 0x1_0000_0000;
  }

  lemma PortLoaded(members: seq<Member>, key: string, before: uint16)
    ensures Port(members, key, before, ToUint16(IntAt(members, key), before))
  {
    var n := IntAt(members, key);
    if n.Some? {
      PortCut(n.value);
    }
    hide Get, IntegerOf;
  }

  lemma CountLoaded(members: seq<Member>, key: string, before: int32)
    ensures Count(members, key, before, ToInt32(IntAt(members, key), before))
  {
    var n := IntAt(members, key);
    if n.Some? {
      CountCut(n.value);
    }
    hide Get, IntegerOf, AsInt32;
  }

  // ---- The sections ----

  ghost predicate TlsFields(members: seq<Member>, before: Tls, now: Tls) {
    && Flag(members, "enabled", before.enabled, now.enabled)
    && Port(members, "port", before.port, now.port)
    && Text(members, "cert_file", before.certFile, now.certFile)
    && Text(members, "key_file", before.keyFile, now.keyFile)
    && Text(members, "cert_dir", before.certDir, now.certDir)
    && Count(members, "cert_days", before.certDays, now.certDays)
    && now.certSha256 == before.certSha256
  }

  lemma TlsLoaded(members: seq<Member>, before: Tls)
    ensures TlsFields(members, before, LoadedTls(members, before))
  {
    hide Get, Port, Count, IntAt, ToUint16, ToInt32;
    PortLoaded(members, "port", before.port);
    CountLoaded(members, "cert_days", before.certDays);
  }

  /** The user an item stands for, if it is an object with a text under "uuid" that is not empty. */
  ghost predicate UserOf(item: Json, users: seq<User>) {
    if item.Obj? && Get(item.members, "uuid").Some? && Get(item.members, "uuid").value.Str?
       && Get(item.members, "uuid").value.str != ""
    then
      |users| == 1 && users[0].uuid == Get(item.members, "uuid").value.str
      && Text(item.members, "name", "", users[0].name)
    else users == []
  }

  /** The users of an array are those of its items, in order. */
  lemma {:induction false} UsersLoaded(items: seq<Json>, more: seq<Json>)
    ensures LoadedUsers([]) == []
    ensures LoadedUsers(items + more) == LoadedUsers(items) + LoadedUsers(more)
    ensures forall item :: UserOf(item, LoadedUsers([item]))
  {
    hide Get;
    forall item
      ensures UserOf(item, LoadedUsers([item]))
    {
      assert [item][1..] == [];
    }
    if items == [] {
      assert items + more == more;
    } else {
      hide LoadedUser, UserOf;
      assert (items + more)[1..] == items[1..] + more;
      UsersLoaded(items[1..], more);
    }
  }

  ghost predicate Fields(members: seq<Member>, before: Server, now: Server) {
    && Port(members, "port", before.port, now.port)
    && Text(members, "host", before.host, now.host)
    && Text(members, "log_level", before.logLevel, now.logLevel)
    && Count(members, "workers", before.workers, now.workers)
    && Text(members, "remark", before.remark, now.remark)
    && (match Get(members, "tls")
        case Some(Obj(section)) => TlsFields(section, before.tls, now.tls)
        case _ => now.tls == before.tls)
    && (match Get(members, "users")
        case Some(Arr(items)) => now.users == before.users + LoadedUsers(items)
        case _ => now.users == before.users)
  }

  /** Every object: each field is the member's value where the first member with the key is of the
      right kind, and the earlier value otherwise. */
  lemma FieldByField(members: seq<Member>, before: Server)
    ensures Fields(members, before, Loaded(members, before))
  {
    hide Get, Port, Count, IntAt, ToUint16, ToInt32, LoadedTls, LoadedUsers, TlsFields;
    PortLoaded(members, "port", before.port);
    CountLoaded(members, "workers", before.workers);
    var tls := Get(members, "tls");
    if tls.Some? && tls.value.Obj? {
      TlsLoaded(tls.value.members, before.tls);
    }
  }

  /** Every text: it is refused exactly when it is no JSON object, and otherwise loaded field by
      field. */
  lemma TextFieldByField(text: string, before: Server)
    ensures LoadText(text, before).Some? <==> Document(text).Some? && Document(text).value.Obj?
    ensures LoadText(text, before).Some? ==>
              Fields(Document(text).value.members, before, LoadText(text, before).value)
  {
    hide Document, Loaded, Fields;
    if LoadText(text, before).Some? {
      FieldByField(Document(text).value.members, before);
    }
  }

  /** An object without members changes nothing. */
  lemma EmptyObjectChangesNothing(before: Server)
    ensures LoadText("{}", before) == Some(before)
  {
    var l := ObjectText("", NoFields);
    assert "" + Render(l, "") == "{}";
    DocumentRead("", l, "");
    hide Document;
    var now := Loaded([], before);
    FieldByField([], before);
    assert now.tls == before.tls && now.users == before.users;
    assert now == before;
  }
}
