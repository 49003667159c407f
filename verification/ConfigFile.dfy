// writeServerConfig and loadServerConfig as they run: the text is appended to piece by piece,
// and the configuration is filled in field by field.
module ConfigFile {
  import opened Bytes
  import opened Json
  import opened JsonText
  import opened Decimal
  import opened Config

  // ---- Printing ----

  predicate Plain(key: string) {
    forall i :: 0 <= i < |key| ==> key[i] !in {'"', '\\', '\n', '\t', '\r'}
  }

  lemma {:induction false} PlainIsItsEscape(key: string)
    requires Plain(key)
    ensures Escape(key) == key
  {
    if key != "" {
      PlainIsItsEscape(key[1..]);
      assert [key[0]] + key[1..] == key;
    }
  }

  /** What is still to be printed when the line of a field is about to start. */
  function Left(f: FieldsText, indent: string, rest: string): string
    requires f.Field?
  {
    RenderFields(f.(before := indent), rest)
  }

  function KeyText(indent: string, key: string): string {
    indent + ("\"" + key + "\": ")
  }

  lemma LineStarts(f: FieldsText, key: string, indent: string, rest: string)
    requires f.Field? && f.key == Spelling(key) && Plain(key) && f.beforeColon == "" && f.afterColon == " "
    ensures Left(f, indent, rest) == KeyText(indent, key) + Render(f.value, f.after + FieldClose(f, rest))
  {
    SpellingsMean();
    PlainIsItsEscape(key);
    hide Spelling, Spell;
    var v := Render(f.value, f.after + FieldClose(f, rest));
    assert "" + (":" + (" " + v)) == ": " + v;
    assert indent + ("\"" + key + "\"" + (": " + v)) == indent + ("\"" + key + "\": ") + v;
    CloseSame(f, indent, rest);
    hide Render, FieldClose, Escape;
    var g := f.(before := indent);
    assert Left(f, indent, rest) == indent + (Quoted(f.key) + AfterKey(g, FieldClose(g, rest)));
  }

  lemma CloseSame(f: FieldsText, indent: string, rest: string)
    requires f.Field?
    ensures FieldClose(f.(before := indent), rest) == FieldClose(f, rest)
  {
  }

  lemma FieldsBefore(f: FieldsText, a: string, b: string, rest: string)
    requires f.Field? && f.before == a + b
    ensures RenderFields(f, rest) == a + Left(f, b, rest)
  {
    CloseSame(f, b, rest);
    var u := Quoted(f.key) + AfterKey(f, FieldClose(f, rest));
    var next := f.(before := b);
    assert AfterKey(next, FieldClose(next, rest)) == AfterKey(f, FieldClose(f, rest));
    assert Left(f, b, rest) == b + u;
    assert a + b + u == a + (b + u);
  }

  lemma LineEnds(key: string, value: Layout, next: FieldsText, indent: string, rest: string)
    requires next.Field? && next.before == "\n" + indent
    ensures "" + FieldClose(Line(indent, key, value, next), rest) == ",\n" + Left(next, indent, rest)
  {
    FieldsBefore(next, "\n", indent, rest);
    assert FieldClose(Line(indent, key, value, next), rest) == "," + ("\n" + Left(next, indent, rest));
    hide *;
    assert "" + ("," + ("\n" + Left(next, indent, rest))) == ",\n" + Left(next, indent, rest);
  }

  lemma Regroup(out: string, a: string, b: string, c: string, d: string)
    ensures out + (a + (b + (c + d))) == out + a + b + c + d
  {
  }

  lemma Glue(a: string, b: string, c: string, d: string, rest: string)
    requires a + b == c + d
    ensures a + (b + rest) == c + (d + rest)
  {
    assert a + (b + rest) == a + b + rest;
  }

  lemma ScalarLine(out: string, before: string, key: string, value: Layout, text: string, next: FieldsText,
                   indent: string, rest: string)
    requires Plain(key) && next.Field? && next.before == "\n" + indent
    requires value == NumberText(text) || (value.BoolText? && text == if value.b then "true" else "false")
    ensures out + Left(Line(before, key, value, next), indent, rest)
         == out + KeyText(indent, key) + text + ",\n" + Left(next, indent, rest)
  {
    var f := Line(indent, key, value, next);
    LineStarts(f, key, indent, rest);
    LineEnds(key, value, next, indent, rest);
    Regroup(out, KeyText(indent, key), text, ",\n", Left(next, indent, rest));
  }

  lemma StringLine(out: string, before: string, key: string, str: string, next: FieldsText, indent: string,
                   rest: string)
    requires Plain(key) && next.Field? && next.before == "\n" + indent
    ensures out + Left(Line(before, key, Text(str), next), indent, rest)
         == out + KeyText(indent, key) + ("\"" + Escape(str) + "\"") + ",\n" + Left(next, indent, rest)
  {
    SpellingsMean();
    var f := Line(indent, key, Text(str), next);
    LineStarts(f, key, indent, rest);
    LineEnds(key, Text(str), next, indent, rest);
    Regroup(out, KeyText(indent, key), "\"" + Escape(str) + "\"", ",\n", Left(next, indent, rest));
  }

  function UsersFrom(users: seq<User>): (items: ItemsText)
    requires users != []
    ensures items.Item?
  {
    var items := UsersText(users);
    items.(before := "    ")
  }

  /** What is still to be printed of the users, from one on. */
  function UsersLeft(users: seq<User>, rest: string): string {
    if users == [] then "  ]" + rest
    else RenderItems(UsersFrom(users), rest)
  }

  function UserLead(u: User): string {
    "    {\"uuid\": \"" + Escape(u.uuid) + "\", \"name\": \"" + Escape(u.name) + "\"}"
  }

  lemma NameRendered(u: User, rest: string)
    ensures RenderFields(LastLine(" ", "name", Text(u.name), ""), rest)
         == " \"name\": " + ("\"" + Escape(u.name) + "\"" + ("}" + rest))
  {
    SpellingsMean();
    hide Spelling, Spell, Stands;
    var last := LastLine(" ", "name", Text(u.name), "");
    LineStarts(last, "name", " ", rest);
    assert KeyText(" ", "name") == " \"name\": " && last.(before := " ") == last;
    assert FieldClose(last, rest) == "}" + rest && "" + ("}" + rest) == "}" + rest;
    hide Escape;
  }

  lemma UserRendered(u: User, rest: string)
    ensures "    " + Render(UserText(u), rest) == UserLead(u) + rest
  {
    SpellingsMean();
    hide Spelling, Spell, Stands;
    NameRendered(u, rest);
    hide Escape;
    var last := LastLine(" ", "name", Text(u.name), "");
    var first := Line("", "uuid", Text(u.uuid), last);
    LineStarts(first, "uuid", "", rest);
    assert KeyText("", "uuid") == "\"uuid\": " && first.(before := "") == first;
    assert FieldClose(first, rest) == "," + RenderFields(last, rest);
    hide FieldClose, RenderFields;
    var uuid, name := Escape(u.uuid), Escape(u.name);
    var tail := " \"name\": " + ("\"" + name + "\"" + ("}" + rest));
    assert "" + ("," + tail) == "," + tail;
    assert Render(UserText(u), rest) == "{" + ("\"uuid\": " + ("\"" + uuid + "\"" + ("," + tail)));
    UserRegroup(uuid, name, rest);
  }

  lemma UserRegroup(uuid: string, name: string, rest: string)
    ensures "    " + ("{" + ("\"uuid\": " + ("\"" + uuid + "\""
                   + ("," + (" \"name\": " + ("\"" + name + "\"" + ("}" + rest)))))))
         == "    {\"uuid\": \"" + uuid + "\", \"name\": \"" + name + "\"}" + rest
  {
    var end := "\"}" + rest;
    assert "\"" + name + "\"" + ("}" + rest) == "\"" + (name + end);
    var mid := "\", \"name\": \"" + (name + end);
    assert "\"" + ("," + (" \"name\": " + ("\"" + (name + end)))) == mid;
    assert "\"" + uuid + "\"" + ("," + (" \"name\": " + ("\"" + (name + end)))) == "\"" + (uuid + mid);
  }

  function UserEnd(users: seq<User>): string
    requires users != []
  {
    if |users| > 1 then ",\n" else "\n"
  }

  lemma UserLine(out: string, users: seq<User>, rest: string)
    requires users != []
    ensures out + UsersLeft(users, rest) == out + UserLead(users[0]) + UserEnd(users) + UsersLeft(users[1..], rest)
  {
    OneUser(users, rest);
    hide *;
    assert out + (UserLead(users[0]) + (UserEnd(users) + UsersLeft(users[1..], rest)))
        == out + UserLead(users[0]) + UserEnd(users) + UsersLeft(users[1..], rest);
  }

  lemma OneUser(users: seq<User>, rest: string)
    requires users != []
    ensures UsersLeft(users, rest) == UserLead(users[0]) + (UserEnd(users) + UsersLeft(users[1..], rest))
  {
    var items := UsersFrom(users);
    UserRendered(users[0], items.after + ItemClose(items, rest));
    UserCloses(users, rest);
    hide UserLead, Render, ItemClose, UserEnd;
  }

  lemma UserCloses(users: seq<User>, rest: string)
    requires users != []
    ensures var items := UsersFrom(users);
            items.after + ItemClose(items, rest) == UserEnd(users) + UsersLeft(users[1..], rest)
  {
    var items := UsersFrom(users);
    if |users| == 1 {
      assert users[1..] == [];
      assert ItemClose(items, rest) == "]" + rest;
      Glue("\n  ", "]", "\n", "  ]", rest);
    } else {
      var next := UsersText(users[1..]);
      ItemsBefore(next, "\n", "    ", rest);
      var left := UsersLeft(users[1..], rest);
      assert ItemClose(items, rest) == "," + ("\n" + left);
      hide UsersLeft, ItemClose;
      assert "" + ("," + ("\n" + left)) == ",\n" + left;
    }
  }

  lemma ItemsBefore(items: ItemsText, a: string, b: string, rest: string)
    requires items.Item? && items.before == a + b
    ensures RenderItems(items, rest) == a + RenderItems(items.(before := b), rest)
  {
    var u := Render(items.value, items.after + ItemClose(items, rest));
    assert ItemClose(items.(before := b), rest) == ItemClose(items, rest);
    assert a + b + u == a + (b + u);
  }

  method PrintUsers(users: seq<User>, ghost rest: string) returns (oss: string)
    ensures oss + ("  ]" + rest) == UsersLeft(users, rest)
  {
    oss := "";
    assert users[0..] == users && "" + UsersLeft(users, rest) == UsersLeft(users, rest);
    hide UsersLeft, Escape;
    for i := 0 to |users|
      invariant oss + UsersLeft(users[i..], rest) == UsersLeft(users, rest)
    {
      UserLine(oss, users[i..], rest);
      assert users[i..][1..] == users[i + 1..];
      ghost var was := oss;
      var uuid := JsonEscape(users[i].uuid);
      var name := JsonEscape(users[i].name);
      oss := oss + ("    {\"uuid\": \"" + uuid + "\", \"name\": \"" + name + "\"}");
      if i + 1 < |users| {
        oss := oss + ",";
      }
      oss := oss + "\n";
      assert oss == was + UserLead(users[i]) + UserEnd(users[i..]);
    }
    assert users[|users|..] == [];
    assert UsersLeft([], rest) == "  ]" + rest by { NoUsersLeft(rest); }
  }

  lemma NoUsersLeft(rest: string)
    ensures UsersLeft([], rest) == "  ]" + rest
  {
  }

  lemma Keys()
    ensures Plain("enabled") && Plain("port") && Plain("cert_file") && Plain("key_file") && Plain("cert_dir")
    ensures Plain("cert_days") && Plain("host") && Plain("log_level") && Plain("workers") && Plain("remark")
    ensures Plain("tls") && Plain("users")
  {
  }

  lemma Indents()
    ensures INNER == "\n" + "    " && OUTER == "\n" + "  "
  {
  }

  /** The lines of the tls section. */
  method PrintTls(t: Tls, ghost rest: string) returns (oss: string)
    ensures oss + ("  }" + rest) == Left(TlsText(t), "    ", rest)
  {
    Keys();
    Indents();
    hide Escape, Print, FieldClose, Left, Plain, KeyText;
    var lead := "    ";
    assert "" + Left(TlsText(t), lead, rest) == Left(TlsText(t), lead, rest);
    var enabled := if t.enabled then "true" else "false";
    ScalarLine("", INNER, "enabled", BoolText(t.enabled), enabled, TlsFromPort(t), lead, rest);
    oss := "" + KeyText(lead, "enabled") + enabled + ",\n";
    ScalarLine(oss, INNER, "port", NumberText(Print(t.port)), Print(t.port), TlsFromCert(t), lead, rest);
    oss := oss + KeyText(lead, "port") + Print(t.port) + ",\n";
    StringLine(oss, INNER, "cert_file", t.certFile, TlsFromKey(t), lead, rest);
    var escaped := JsonEscape(t.certFile);
    oss := oss + KeyText(lead, "cert_file") + ("\"" + escaped + "\"") + ",\n";
    StringLine(oss, INNER, "key_file", t.keyFile, TlsFromDir(t), lead, rest);
    escaped := JsonEscape(t.keyFile);
    oss := oss + KeyText(lead, "key_file") + ("\"" + escaped + "\"") + ",\n";
    StringLine(oss, INNER, "cert_dir", t.certDir, TlsFromDays(t), lead, rest);
    escaped := JsonEscape(t.certDir);
    oss := oss + KeyText(lead, "cert_dir") + ("\"" + escaped + "\"") + ",\n";
    DaysLine(oss, t, rest);
    oss := oss + KeyText(lead, "cert_days") + Print(t.certDays) + "\n";
  }

  lemma DaysLine(out: string, t: Tls, rest: string)
    ensures out + Left(TlsFromDays(t), "    ", rest)
         == out + KeyText("    ", "cert_days") + Print(t.certDays) + "\n" + ("  }" + rest)
  {
    DaysStart(t, rest);
    Regroup(out, KeyText("    ", "cert_days"), Print(t.certDays), "\n", "  }" + rest) by { hide *; }
    hide *;
  }

  lemma DaysStart(t: Tls, rest: string)
    ensures Left(TlsFromDays(t), "    ", rest)
         == KeyText("    ", "cert_days") + (Print(t.certDays) + ("\n" + ("  }" + rest)))
  {
    Keys();
    hide Plain, Print, KeyText;
    LineStarts(TlsFromDays(t), "cert_days", "    ", rest);
    assert FieldClose(TlsFromDays(t), rest) == "}" + rest;
    Glue("\n  ", "}", "\n", "  }", rest);
    hide FieldClose, Left;
  }

  /** The text writeServerConfig puts into the file. */
  method PrintServer(c: Server) returns (oss: string)
    ensures oss == Render(ServerText(c), "\n")
  {
    Keys();
    Indents();
    ServerStarts(c);
    hide Escape, Print, FieldClose, Left, Plain, KeyText, Render, UsersLeft;
    var lead := "  ";
    oss := "{\n";
    ScalarLine(oss, OUTER, "port", NumberText(Print(c.port)), Print(c.port), FromHost(c), lead, "\n");
    oss := oss + KeyText(lead, "port") + Print(c.port) + ",\n";
    StringLine(oss, OUTER, "host", c.host, FromLogLevel(c), lead, "\n");
    var escaped := JsonEscape(c.host);
    oss := oss + KeyText(lead, "host") + ("\"" + escaped + "\"") + ",\n";
    StringLine(oss, OUTER, "log_level", c.logLevel, FromWorkers(c), lead, "\n");
    escaped := JsonEscape(c.logLevel);
    oss := oss + KeyText(lead, "log_level") + ("\"" + escaped + "\"") + ",\n";
    ScalarLine(oss, OUTER, "workers", NumberText(Print(c.workers)), Print(c.workers), FromRemark(c), lead, "\n");
    oss := oss + KeyText(lead, "workers") + Print(c.workers) + ",\n";
    StringLine(oss, OUTER, "remark", c.remark, FromTls(c), lead, "\n");
    escaped := JsonEscape(c.remark);
    oss := oss + KeyText(lead, "remark") + ("\"" + escaped + "\"") + ",\n";
    ghost var end := "\n" + ("}" + "\n");
    ghost var behindTls := ",\n" + Left(FromUsers(c), lead, "\n");
    TlsLine(oss, c);
    var tls := PrintTls(c.tls, behindTls);
    TlsEnds(oss, c, tls);
    oss := oss + KeyText(lead, "tls") + "{\n" + tls + "  },\n";
    UsersStart(oss, c);
    var users := PrintUsers(c.users, end);
    UsersEnd(oss, c, users);
    oss := oss + KeyText(lead, "users") + "[\n" + users + "  ]\n}\n";
  }

  lemma ServerStarts(c: Server)
    ensures Render(ServerText(c), "\n") == "{\n" + Left(ServerFields(c), "  ", "\n")
  {
    Indents();
    ObjectStarts(ServerFields(c), "  ", "\n");
    hide Left, Render;
  }

  lemma TlsLine(out: string, c: Server)
    ensures out + Left(FromTls(c), "  ", "\n")
         == out + KeyText("  ", "tls") + "{\n" + Left(TlsText(c.tls), "    ", ",\n" + Left(FromUsers(c), "  ", "\n"))
  {
    TlsStarts(c);
    var left := Left(TlsText(c.tls), "    ", ",\n" + Left(FromUsers(c), "  ", "\n"));
    hide *;
    assert out + (KeyText("  ", "tls") + ("{\n" + left)) == out + KeyText("  ", "tls") + "{\n" + left;
  }

  lemma TlsStarts(c: Server)
    ensures Left(FromTls(c), "  ", "\n")
         == KeyText("  ", "tls") + ("{\n" + Left(TlsText(c.tls), "    ", ",\n" + Left(FromUsers(c), "  ", "\n")))
  {
    Keys();
    Indents();
    var behind := ",\n" + Left(FromUsers(c), "  ", "\n");
    LineEnds("tls", ObjectText("", TlsText(c.tls)), FromUsers(c), "  ", "\n");
    LineStarts(FromTls(c), "tls", "  ", "\n");
    CloseSame(FromTls(c), "  ", "\n");
    ObjectStarts(TlsText(c.tls), "    ", behind);
    hide Left, KeyText, Plain, FieldClose, RenderFields, Render;
  }

  lemma ObjectStarts(f: FieldsText, indent: string, rest: string)
    requires f.Field? && f.before == "\n" + indent
    ensures Render(ObjectText("", f), rest) == "{\n" + Left(f, indent, rest)
  {
    FieldsBefore(f, "\n", indent, rest);
    var left := Left(f, indent, rest);
    assert "{" + ("\n" + left) == "{\n" + left;
  }

  lemma TlsEnds(out: string, c: Server, tls: string)
    requires var behind := ",\n" + Left(FromUsers(c), "  ", "\n");
             tls + ("  }" + behind) == Left(TlsText(c.tls), "    ", behind)
    ensures out + KeyText("  ", "tls") + "{\n" + Left(TlsText(c.tls), "    ", ",\n" + Left(FromUsers(c), "  ", "\n"))
         == out + KeyText("  ", "tls") + "{\n" + tls + "  },\n" + Left(FromUsers(c), "  ", "\n")
  {
    var left := Left(FromUsers(c), "  ", "\n");
    hide *;
    Glue("  }", ",\n", "", "  },\n", left);
    assert "" + ("  },\n" + left) == "  },\n" + left;
    assert tls + ("  },\n" + left) == tls + "  },\n" + left;
  }

  lemma UsersStart(out: string, c: Server)
    ensures out + Left(FromUsers(c), "  ", "\n")
         == out + KeyText("  ", "users") + "[\n" + UsersLeft(c.users, "\n" + ("}" + "\n"))
  {
    Keys();
    hide Plain, KeyText, Left;
    var end := "\n" + ("}" + "\n");
    LineStarts(FromUsers(c), "users", "  ", "\n");
    assert FromUsers(c).after + FieldClose(FromUsers(c), "\n") == end;
    hide FieldClose;
    ArrayStarts(c.users, end);
    var left := UsersLeft(c.users, end);
    hide *;
    assert out + (KeyText("  ", "users") + ("[\n" + left)) == out + KeyText("  ", "users") + "[\n" + left;
  }

  lemma ArrayStarts(users: seq<User>, rest: string)
    ensures Render(ArrayText("\n  ", UsersText(users)), rest) == "[\n" + UsersLeft(users, rest)
  {
    if users == [] {
      EmptyArrayStarts(rest);
    } else {
      ItemsBefore(UsersText(users), "\n", "    ", rest);
      var left := UsersLeft(users, rest);
      assert left == RenderItems(UsersFrom(users), rest);
      assert Render(ArrayText("\n  ", UsersText(users)), rest) == "[" + ("\n" + left);
      hide *;
      assert "[" + ("\n" + left) == "[\n" + left;
    }
  }

  lemma EmptyArrayStarts(rest: string)
    ensures Render(ArrayText("\n  ", NoItems), rest) == "[\n" + ("  ]" + rest)
  {
    Glue("\n  ", "]", "\n", "  ]", rest);
    Glue("[", "\n", "", "[\n", "  ]" + rest);
    assert "" + ("[\n" + ("  ]" + rest)) == "[\n" + ("  ]" + rest);
  }

  lemma UsersEnd(out: string, c: Server, users: string)
    requires users + ("  ]" + ("\n" + ("}" + "\n"))) == UsersLeft(c.users, "\n" + ("}" + "\n"))
    ensures out + KeyText("  ", "users") + "[\n" + UsersLeft(c.users, "\n" + ("}" + "\n"))
         == out + KeyText("  ", "users") + "[\n" + users + "  ]\n}\n"
  {
    hide *;
    assert "  ]" + ("\n" + ("}" + "\n")) == "  ]\n}\n";
  }

  // ---- Loading ----

  /** The loop over the "users" array. */
  method LoadUsers(items: seq<Json>, before: seq<User>) returns (users: seq<User>)
    ensures users == before + LoadedUsers(items)
  {
    users := before;
    assert items[0..] == items;
    hide LoadedUser, StringAt;
    for i := 0 to |items|
      invariant users + LoadedUsers(items[i..]) == before + LoadedUsers(items)
    {
      assert items[i..][1..] == items[i + 1..];
      if !items[i].Obj? {
        continue;
      }
      var uc := LoadUser(items[i].members);
      if uc.uuid != "" {
        assert users + ([uc] + LoadedUsers(items[i + 1..])) == users + [uc] + LoadedUsers(items[i + 1..]);
        users := users + [uc];
      }
    }
    assert LoadedUsers(items[|items|..]) == [];
  }

  method LoadUser(members: seq<Member>) returns (uc: User)
    ensures uc == LoadedUser(members)
  {
    uc := User("", "");
    var v := Get(members, "uuid");
    if v.Some? && v.value.Str? {
      uc := uc.(uuid := v.value.str);
    }
    v := Get(members, "name");
    if v.Some? && v.value.Str? {
      uc := uc.(name := v.value.str);
    }
  }

  method LoadTls(members: seq<Member>, before: Tls) returns (tls: Tls)
    ensures tls == LoadedTls(members, before)
  {
    hide Get, IntegerOf;
    tls := before;
    var v := Get(members, "enabled");
    if v.Some? && v.value.Bool? {
      tls := tls.(enabled := v.value.b);
    }
    v := Get(members, "port");
    if v.Some? && v.value.Number? {
      tls := tls.(port := IntegerOf(v.value.token) % 0x1_0000);
    }
    v := Get(members, "cert_file");
    if v.Some? && v.value.Str? {
      tls := tls.(certFile := v.value.str);
    }
    v := Get(members, "key_file");
    if v.Some? && v.value.Str? {
      tls := tls.(keyFile := v.value.str);
    }
    v := Get(members, "cert_dir");
    if v.Some? && v.value.Str? {
      tls := tls.(certDir := v.value.str);
    }
    v := Get(members, "cert_days");
    if v.Some? && v.value.Number? {
      tls := tls.(certDays := AsInt32(IntegerOf(v.value.token)));
    }
  }

  /** The fields of the root object, one after the other. */
  method Fill(members: seq<Member>, before: Server) returns (cfg: Server)
    ensures cfg == Loaded(members, before)
  {
    hide Get, LoadedTls, LoadedUsers, IntegerOf;
    cfg := before;
    var v := Get(members, "port");
    if v.Some? && v.value.Number? {
      cfg := cfg.(port := IntegerOf(v.value.token) % 0x1_0000);
    }
    v := Get(members, "host");
    if v.Some? && v.value.Str? {
      cfg := cfg.(host := v.value.str);
    }
    v := Get(members, "log_level");
    if v.Some? && v.value.Str? {
      cfg := cfg.(logLevel := v.value.str);
    }
    v := Get(members, "workers");
    if v.Some? && v.value.Number? {
      cfg := cfg.(workers := AsInt32(IntegerOf(v.value.token)));
    }
    v := Get(members, "remark");
    if v.Some? && v.value.Str? {
      cfg := cfg.(remark := v.value.str);
    }
    assert cfg == Server(ToUint16(IntAt(members, "port"), before.port),
                         StringAt(members, "log_level", before.logLevel),
                         ToInt32(IntAt(members, "workers"), before.workers),
                         StringAt(members, "host", before.host),
                         StringAt(members, "remark", before.remark), before.tls, before.users);
    hide IntAt, StringAt, ToUint16, ToInt32;
    v := Get(members, "tls");
    if v.Some? && v.value.Obj? {
      var tls := LoadTls(v.value.members, cfg.tls);
      cfg := cfg.(tls := tls);
    }
    v := Get(members, "users");
    if v.Some? && v.value.Arr? {
      var users := LoadUsers(v.value.items, cfg.users);
      cfg := cfg.(users := users);
    }
  }

  /** loadServerConfig. `file` is the text at the path, None when it cannot be opened; `uuid`
      is the generated one; `writable` tells whether a new file could be written. The result
      `file'` is the text at the path afterwards. */
  method LoadServerConfig(file: Option<string>, before: Server, uuid: string, writable: bool)
    returns (ok: bool, created: bool, cfg: Server, file': Option<string>)
    ensures file.None? ==>
              && cfg == before.(users := before.users + [User(uuid, "default")])
              && ok == created == writable
              && file' == if writable then Some(Render(ServerText(cfg), "\n")) else None
    ensures file.Some? ==>
              && !created && file' == file
              && (ok <==> LoadText(file.value, before).Some?)
              && cfg == if ok then LoadText(file.value, before).value else before
  {
    cfg, created, file' := before, false, file;
    if file.None? {
      cfg := cfg.(users := cfg.users + [User(uuid, "default")]);
      var text := PrintServer(cfg);
      if !writable {
        return false, false, cfg, None;
      }
      return true, true, cfg, Some(text);
    }
    var parser := new Parser(file.value);
    var root := parser.ParseDocument();
    if root.None? || !root.value.Obj? {
      return false, false, cfg, file;
    }
    cfg := Fill(root.value.members, cfg);
    return true, false, cfg, file;
  }
}
