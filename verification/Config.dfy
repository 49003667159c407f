// The server's configuration file: what writeServerConfig prints and what loadServerConfig
// makes of a text.
module Config {
  import opened Bytes
  import opened Json
  import opened JsonText
  import opened Decimal

  type uint16 = x: int | 0 <= x < 0x1_0000
  type int32 = x: int | -0x8000_0000 <= x < 0x8000_0000

  datatype User = User(uuid: string, name: string)

  datatype Tls = Tls(
    enabled: bool,
    port: uint16,
    certFile: string,
    keyFile: string,
    certDir: string,
    certDays: int32,
    certSha256: string)           // filled in at run time, never printed

  datatype Server = Server(
    port: uint16,
    logLevel: string,
    workers: int32,
    host: string,
    remark: string,
    tls: Tls,
    users: seq<User>)

  const DEFAULT_TLS := Tls(false, 8848, "", "", "./certs", 365, "")
  const DEFAULT := Server(1080, "info", 0, "", "cppvless", DEFAULT_TLS, [])

  // ---- The printed text, as a layout ----

  /** A string as jsonEscape spells it. */
  function Text(s: string): Layout {
    StringText(Spelling(s))
  }

  /** A field on a line of its own, or at the end of one. */
  function Line(before: string, key: string, value: Layout, next: FieldsText): FieldsText {
    Field(before, Spelling(key), "", " ", value, "", next)
  }

  function LastLine(before: string, key: string, value: Layout, after: string): FieldsText {
    Field(before, Spelling(key), "", " ", value, after, NoFields)
  }

  function UserText(u: User): Layout {
    ObjectText("", Line("", "uuid", Text(u.uuid), LastLine(" ", "name", Text(u.name), "")))
  }

  function UsersText(users: seq<User>): (items: ItemsText)
    ensures items.Item? <==> users != []
  {
    if users == [] then NoItems
    else Item("\n    ", UserText(users[0]), if |users| == 1 then "\n  " else "", UsersText(users[1..]))
  }

  const INNER := "\n    "

  function TlsFromDays(t: Tls): FieldsText {
    LastLine(INNER, "cert_days", NumberText(Print(t.certDays)), "\n  ")
  }

  function TlsFromDir(t: Tls): FieldsText {
    Line(INNER, "cert_dir", Text(t.certDir), TlsFromDays(t))
  }

  function TlsFromKey(t: Tls): FieldsText {
    Line(INNER, "key_file", Text(t.keyFile), TlsFromDir(t))
  }

  function TlsFromCert(t: Tls): FieldsText {
    Line(INNER, "cert_file", Text(t.certFile), TlsFromKey(t))
  }

  function TlsFromPort(t: Tls): FieldsText {
    Line(INNER, "port", NumberText(Print(t.port)), TlsFromCert(t))
  }

  function TlsText(t: Tls): FieldsText {
    Line(INNER, "enabled", BoolText(t.enabled), TlsFromPort(t))
  }

  const OUTER := "\n  "

  function FromUsers(c: Server): FieldsText {
    LastLine(OUTER, "users", ArrayText("\n  ", UsersText(c.users)), "\n")
  }

  function FromTls(c: Server): FieldsText {
    Line(OUTER, "tls", ObjectText("", TlsText(c.tls)), FromUsers(c))
  }

  function FromRemark(c: Server): FieldsText {
    Line(OUTER, "remark", Text(c.remark), FromTls(c))
  }

  function FromWorkers(c: Server): FieldsText {
    Line(OUTER, "workers", NumberText(Print(c.workers)), FromRemark(c))
  }

  function FromLogLevel(c: Server): FieldsText {
    Line(OUTER, "log_level", Text(c.logLevel), FromWorkers(c))
  }

  function FromHost(c: Server): FieldsText {
    Line(OUTER, "host", Text(c.host), FromLogLevel(c))
  }

  function ServerFields(c: Server): FieldsText {
    Line(OUTER, "port", NumberText(Print(c.port)), FromHost(c))
  }

  function ServerText(c: Server): Layout {
    ObjectText("", ServerFields(c))
  }

  // ---- Loading ----

  function IntAt(members: seq<Member>, key: string): Option<int> {
    var v := Get(members, key);
    if v.Some? && v.value.Number? then Some(IntegerOf(v.value.token)) else None
  }

  function StringAt(members: seq<Member>, key: string, otherwise: string): string {
    var v := Get(members, key);
    if v.Some? && v.value.Str? then v.value.str else otherwise
  }

  function BoolAt(members: seq<Member>, key: string, otherwise: bool): bool {
    var v := Get(members, key);
    if v.Some? && v.value.Bool? then v.value.b else otherwise
  }

  function ToUint16(n: Option<int>, otherwise: uint16): uint16 {
    if n.Some? then n.value % 0x1_0000 else otherwise
  }

  function ToInt32(n: Option<int>, otherwise: int32): int32 {
    if n.Some? then AsInt32(n.value) else otherwise
  }

  function LoadedUser(members: seq<Member>): User {
    User(StringAt(members, "uuid", ""), StringAt(members, "name", ""))
  }

  /** The users of an array: its objects that have a uuid. */
  function LoadedUsers(items: seq<Json>): seq<User> {
    if items == [] then []
    else if items[0].Obj? && LoadedUser(items[0].members).uuid != "" then
      [LoadedUser(items[0].members)] + LoadedUsers(items[1..])
    else LoadedUsers(items[1..])
  }

  function LoadedTls(members: seq<Member>, t: Tls): Tls {
    Tls(BoolAt(members, "enabled", t.enabled),
        ToUint16(IntAt(members, "port"), t.port),
        StringAt(members, "cert_file", t.certFile),
        StringAt(members, "key_file", t.keyFile),
        StringAt(members, "cert_dir", t.certDir),
        ToInt32(IntAt(members, "cert_days"), t.certDays),
        t.certSha256)
  }

  function Loaded(members: seq<Member>, c: Server): Server {
    var tls := Get(members, "tls");
    var users := Get(members, "users");
    Server(ToUint16(IntAt(members, "port"), c.port),
           StringAt(members, "log_level", c.logLevel),
           ToInt32(IntAt(members, "workers"), c.workers),
           StringAt(members, "host", c.host),
           StringAt(members, "remark", c.remark),
           if tls.Some? && tls.value.Obj? then LoadedTls(tls.value.members, c.tls) else c.tls,
           if users.Some? && users.value.Arr? then c.users + LoadedUsers(users.value.items) else c.users)
  }

  /** What loadServerConfig makes of an existing file. */
  function LoadText(text: string, c: Server): Option<Server> {
    var root := Document(text);
    if root.Some? && root.value.Obj? then Some(Loaded(root.value.members, c)) else None
  }

  // ---- The round trip ----

  function Named(users: seq<User>): seq<User> {
    if users == [] then []
    else (if users[0].uuid != "" then [users[0]] else []) + Named(users[1..])
  }

  /** Loading the printed text into c0: every printed field is the printed configuration's,
      and the users that have a uuid are added in order. */
  function Restored(c: Server, c0: Server): Server {
    c.(tls := c.tls.(certSha256 := c0.tls.certSha256), users := c0.users + Named(c.users))
  }

  // Looking keys up in a layout.

  ghost predicate Finds(f: FieldsText, found: map<string, Json>) {
    forall key :: key in found ==> Get(FieldValues(f), key) == Some(found[key])
  }

  lemma FindsLast(f: FieldsText)
    requires f.Field?
    ensures Finds(f, map[Stands(f.key) := Meaning(f.value)])
  {
  }

  lemma FindsMore(f: FieldsText, found: map<string, Json>)
    requires f.Field? && Stands(f.key) !in found && Finds(f.next, found)
    ensures Finds(f, found[Stands(f.key) := Meaning(f.value)])
  {
    assert FieldValues(f)[1..] == FieldValues(f.next);
  }

  lemma UserFound(u: User)
    ensures LoadedUser(Meaning(UserText(u)).members) == u
  {
    SpellingsMean();
    hide Spelling, Spell, Stands, Escape, ProperChars;
    var last := LastLine(" ", "name", Text(u.name), "");
    var first := Line("", "uuid", Text(u.uuid), last);
    FindsLast(last);
    assert "uuid"[0] != "name"[0];
    FindsMore(first, map["name" := Str(u.name)]);
    assert Meaning(UserText(u)).members == FieldValues(first);
    hide FieldValues, Get;
  }

  lemma {:induction false} UsersFound(users: seq<User>)
    ensures LoadedUsers(ItemValues(UsersText(users))) == Named(users)
  {
    SpellingsMean();
    hide Spelling, Spell, Stands, Escape, ProperChars;
    if users != [] {
      var items := UsersText(users);
      UserFound(users[0]);
      UsersFound(users[1..]);
      assert ItemValues(items)[1..] == ItemValues(items.next);
    }
  }

  function TlsValues(t: Tls): map<string, Json> {
    map["cert_days" := Number(Print(t.certDays)), "cert_dir" := Str(t.certDir), "key_file" := Str(t.keyFile),
        "cert_file" := Str(t.certFile), "port" := Number(Print(t.port)), "enabled" := Json.Bool(t.enabled)]
  }

  lemma TlsFinds(t: Tls)
    ensures Finds(TlsText(t), TlsValues(t))
  {
    SpellingsMean();
    hide Spelling, Spell, Stands, Escape, ProperChars;
    TlsKeys();
    hide FieldValues, Get, Finds, Print;
    var m1 := map["cert_days" := Number(Print(t.certDays))];
    FindsLast(TlsFromDays(t));
    var m2 := m1["cert_dir" := Str(t.certDir)];
    FindsMore(TlsFromDir(t), m1);
    var m3 := m2["key_file" := Str(t.keyFile)];
    FindsMore(TlsFromKey(t), m2);
    var m4 := m3["cert_file" := Str(t.certFile)];
    FindsMore(TlsFromCert(t), m3);
    var m5 := m4["port" := Number(Print(t.port))];
    FindsMore(TlsFromPort(t), m4);
    FindsMore(TlsText(t), m5);
  }

  lemma TlsGets(t: Tls)
    ensures var members := FieldValues(TlsText(t));
            && Get(members, "enabled") == Some(Json.Bool(t.enabled))
            && Get(members, "port") == Some(Number(Print(t.port)))
            && Get(members, "cert_file") == Some(Str(t.certFile))
            && Get(members, "key_file") == Some(Str(t.keyFile))
            && Get(members, "cert_dir") == Some(Str(t.certDir))
            && Get(members, "cert_days") == Some(Number(Print(t.certDays)))
  {
    SpellingsMean();
    hide Spelling, Spell, Stands, Escape, ProperChars;
    TlsFinds(t);
    TlsKeys();
    hide FieldValues, Get, TlsText, Print;
  }

  lemma TlsFound(t: Tls, t0: Tls)
    ensures LoadedTls(FieldValues(TlsText(t)), t0) == t.(certSha256 := t0.certSha256)
  {
    TlsGets(t);
    PrintReadBack(t.port);
    PrintReadBack(t.certDays);
    hide FieldValues, Get, TlsText, Print, IntegerOf;
  }

  lemma TlsKeys()
    ensures var keys := ["enabled", "port", "cert_file", "key_file", "cert_dir", "cert_days"];
            forall i, j :: 0 <= i < j < |keys| ==> keys[i] != keys[j]
  {
    assert "cert_file"[5] != "cert_days"[5];
    assert "key_file"[0] != "cert_dir"[0];
  }

  function ServerValues(c: Server): map<string, Json> {
    map["users" := Arr(ItemValues(UsersText(c.users))), "tls" := Obj(FieldValues(TlsText(c.tls))),
        "remark" := Str(c.remark), "workers" := Number(Print(c.workers)), "log_level" := Str(c.logLevel),
        "host" := Str(c.host), "port" := Number(Print(c.port))]
  }

  function LaterValues(c: Server): map<string, Json> {
    map["users" := Arr(ItemValues(UsersText(c.users))), "tls" := Obj(FieldValues(TlsText(c.tls))),
        "remark" := Str(c.remark), "workers" := Number(Print(c.workers))]
  }

  lemma LaterFinds(c: Server)
    ensures Finds(FromWorkers(c), LaterValues(c))
  {
    SpellingsMean();
    hide Spelling, Spell, Stands, Escape, ProperChars;
    ServerKeys();
    hide FieldValues, ItemValues, Get, Finds, Print, UsersText, TlsText;
    var m1 := map["users" := Arr(ItemValues(UsersText(c.users)))];
    FindsLast(FromUsers(c));
    var m2 := m1["tls" := Obj(FieldValues(TlsText(c.tls)))];
    FindsMore(FromTls(c), m1);
    var m3 := m2["remark" := Str(c.remark)];
    FindsMore(FromRemark(c), m2);
    FindsMore(FromWorkers(c), m3);
  }

  lemma ServerFinds(c: Server)
    ensures Finds(ServerFields(c), ServerValues(c))
  {
    LaterFinds(c);
    SpellingsMean();
    hide Spelling, Spell, Stands, Escape, ProperChars;
    ServerKeys();
    hide FieldValues, ItemValues, Get, Finds, Print, UsersText, TlsText, FromWorkers;
    var m4 := LaterValues(c);
    var m5 := m4["log_level" := Str(c.logLevel)];
    FindsMore(FromLogLevel(c), m4);
    var m6 := m5["host" := Str(c.host)];
    FindsMore(FromHost(c), m5);
    FindsMore(ServerFields(c), m6);
  }

  lemma ServerGets(c: Server)
    ensures var members := FieldValues(ServerFields(c));
            && Get(members, "port") == Some(Number(Print(c.port)))
            && Get(members, "host") == Some(Str(c.host))
            && Get(members, "log_level") == Some(Str(c.logLevel))
            && Get(members, "workers") == Some(Number(Print(c.workers)))
            && Get(members, "remark") == Some(Str(c.remark))
            && Get(members, "tls") == Some(Obj(FieldValues(TlsText(c.tls))))
            && Get(members, "users") == Some(Arr(ItemValues(UsersText(c.users))))
  {
    SpellingsMean();
    hide Spelling, Spell, Stands, Escape, ProperChars;
    ServerFinds(c);
    ServerKeys();
    hide FieldValues, ItemValues, Get, ServerFields, Print, UsersText, TlsText;
  }

  lemma ServerKeys()
    ensures var keys := ["port", "host", "log_level", "workers", "remark", "tls", "users"];
            forall i, j :: 0 <= i < j < |keys| ==> keys[i] != keys[j]
  {
    assert "port"[0] != "host"[0];
  }

  lemma ServerFound(c: Server, c0: Server)
    ensures Loaded(FieldValues(ServerFields(c)), c0) == Restored(c, c0)
  {
    ServerGets(c);
    PrintReadBack(c.port);
    PrintReadBack(c.workers);
    TlsFound(c.tls, c0.tls);
    UsersFound(c.users);
    hide FieldValues, ItemValues, Get, ServerFields, Print, IntegerOf, LoadedTls, LoadedUsers, Named;
  }

  // The layout is a proper one.

  lemma {:induction false} UsersProper(users: seq<User>)
    ensures ProperItems(UsersText(users))
  {
    SpellingsMean();
    hide Spelling, Spell, Stands, Escape, ProperChars;
    if users != [] {
      var last := LastLine(" ", "name", Text(users[0].name), "");
      assert ProperFields(last);
      assert ProperFields(Line("", "uuid", Text(users[0].uuid), last));
      UsersProper(users[1..]);
    }
  }

  lemma TlsProper(t: Tls)
    ensures ProperFields(TlsText(t))
  {
    SpellingsMean();
    hide Spelling, Spell, Stands, Escape, ProperChars;
    PrintReadBack(t.port);
    PrintReadBack(t.certDays);
    hide Print;
    assert ProperFields(TlsFromDays(t));
    assert ProperFields(TlsFromDir(t));
    assert ProperFields(TlsFromKey(t));
    assert ProperFields(TlsFromCert(t));
    assert ProperFields(TlsFromPort(t));
  }

  lemma ServerProper(c: Server)
    ensures Proper(ServerText(c))
  {
    SpellingsMean();
    hide Spelling, Spell, Stands, Escape, ProperChars;
    PrintReadBack(c.port);
    PrintReadBack(c.workers);
    UsersProper(c.users);
    TlsProper(c.tls);
    hide Print, UsersText, TlsText;
    assert ProperFields(FromUsers(c));
    assert Proper(FromUsers(c).value) && Proper(FromTls(c).value);
    assert ProperFields(FromTls(c));
    assert ProperFields(FromRemark(c));
    assert ProperFields(FromWorkers(c));
    assert ProperFields(FromLogLevel(c));
    assert ProperFields(FromHost(c));
    assert ProperFields(ServerFields(c));
  }

  /** Loading what was written restores every printed field, and the users with a uuid. */
  lemma WriteThenLoad(c: Server, c0: Server)
    ensures LoadText(Render(ServerText(c), "\n"), c0) == Some(Restored(c, c0))
  {
    ServerProper(c);
    DocumentRead("", ServerText(c), "\n");
    assert "" + Render(ServerText(c), "\n") == Render(ServerText(c), "\n");
    ServerFound(c, c0);
    hide Render, Document, Proper, ServerFields, Loaded, Restored;
  }

  lemma {:induction false} NamedKeepsAll(users: seq<User>)
    ensures |Named(users)| <= |users|
    ensures Named(users) == users <==> forall u :: u in users ==> u.uuid != ""
  {
    if users != [] {
      NamedKeepsAll(users[1..]);
      assert users == [users[0]] + users[1..];
      if users[0].uuid != "" {
        assert Named(users)[1..] == Named(users[1..]);
      }
    }
  }

  /** Written and loaded into a default configuration, a configuration comes back as it was
      exactly when every user has a uuid and the certificate's hash was not filled in. */
  lemma ConfigRoundTrip(c: Server)
    ensures LoadText(Render(ServerText(c), "\n"), DEFAULT) == Some(c) <==>
              (forall u :: u in c.users ==> u.uuid != "") && c.tls.certSha256 == ""
  {
    WriteThenLoad(c, DEFAULT);
    NamedKeepsAll(c.users);
    assert [] + Named(c.users) == Named(c.users);
    hide LoadText, Render, Named, ServerText;
  }

  /** A user without a uuid is printed and not read back. */
  lemma UnnamedUserIsDropped()
    ensures var c := DEFAULT.(users := [User("", "guest")]);
            LoadText(Render(ServerText(c), "\n"), DEFAULT) == Some(DEFAULT) != Some(c)
  {
    var c := DEFAULT.(users := [User("", "guest")]);
    hide LoadText, Render, ServerText;
    WriteThenLoad(c, DEFAULT);
    assert Named(c.users) == [] by {
      assert c.users[1..] == [];
    }
    assert Restored(c, DEFAULT) == DEFAULT;
    assert |c.users| != |DEFAULT.users|;
  }
}
