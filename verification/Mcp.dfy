/**
 * MCP server entries: the canonical writer, the merge into the shared
 * .claude.json document, and the hash both sides of the drift check compute.
 */
module Mcp {
  import opened Collections
  import opened Numerals
  import opened Ordering
  import opened Json
  import opened Text

  const ENABLED_KEY := "enabledMcpjsonServers"

  /** A growing output buffer. */
  class Buffer {
    var text: string

    constructor ()
      ensures text == ""
    {
      text := "";
    }

    method Write(s: string)
      modifies this
      ensures text == old(text) + s
    {
      text := text + s;
    }
  }

  /** The keys of a map in whatever order iteration happens to yield them. */
  lemma OneMoreKey(keys: seq<string>, k: string)
    ensures Elements(keys + [k]) == Elements(keys) + {k}
    ensures Distinct(keys) && k !in Elements(keys) ==> Distinct(keys + [k])
  {
    assert k in Elements(keys) <==> k in keys;
  }

  method IterateKeys(fields: map<string, Value>) returns (keys: seq<string>)
    ensures Distinct(keys) && Elements(keys) == fields.Keys
  {
    keys := [];
    var left := fields.Keys;
    while left != {}
      invariant Distinct(keys) && Elements(keys) !! left && Elements(keys) + left == fields.Keys
      decreases |left|
    {
      var k :| k in left;
      OneMoreKey(keys, k);
      keys := keys + [k];
      left := left - {k};
    }
  }

  ghost function Separator(i: nat): string { if i > 0 then "," else "" }

  /** The text of the first i items or members, separators included. */
  ghost function ItemsDone(items: seq<Value>, i: nat): string
    requires i <= |items|
  {
    if i == 0 then "" else ItemsDone(items, i - 1) + (Separator(i - 1) + Print(items[i - 1]))
  }

  ghost function MembersDone(fields: map<string, Value>, keys: seq<string>, i: nat): string
    requires i <= |keys| && forall k :: k in keys ==> k in fields
  {
    if i == 0 then ""
    else MembersDone(fields, keys, i - 1) + (Separator(i - 1) + (Quote(keys[i - 1]) + ":" + Print(fields[keys[i - 1]])))
  }

  // Items from i on, the way the printer spells them front to back.
  lemma {:induction false} ItemsDoneAll(items: seq<Value>, i: nat)
    requires i < |items|
    ensures ItemsDone(items, i) + (Separator(i) + ShowItems(SortedItems(items[i..]))) == ItemsDone(items, |items|)
    decreases |items| - i
  {
    ItemsSplit(items, i);
    if i + 1 < |items| {
      ItemsDoneAll(items, i + 1);
      Glue(ItemsDone(items, i), Separator(i), Print(items[i]), ShowItems(SortedItems(items[i + 1..])));
    }
  }

  lemma ItemsSplit(items: seq<Value>, i: nat)
    requires i < |items|
    ensures ShowItems(SortedItems(items[i..]))
         == if i + 1 == |items| then Print(items[i]) else Print(items[i]) + "," + ShowItems(SortedItems(items[i + 1..]))
  {
    var tail := items[i..];
    var docs := SortedItems(tail);
    assert tail[0] == items[i] && tail[1..] == items[i + 1..];
    assert docs[0] == Sorted(items[i]) && docs[1..] == SortedItems(tail[1..]);
  }

  lemma {:induction false} MembersDoneAll(v: Value, keys: seq<string>, i: nat)
    requires v.Object? && i < |keys| && forall k :: k in keys ==> k in v.fields
    ensures Elements(keys[i..]) <= v.fields.Keys
    ensures MembersDone(v.fields, keys, i) + (Separator(i) + ShowMembers(SortedMembers(v, keys[i..])))
         == MembersDone(v.fields, keys, |keys|)
    decreases |keys| - i
  {
    MembersSplit(v, keys, i);
    if i + 1 < |keys| {
      MembersDoneAll(v, keys, i + 1);
      Glue(MembersDone(v.fields, keys, i), Separator(i), Quote(keys[i]) + ":" + Print(v.fields[keys[i]]),
           ShowMembers(SortedMembers(v, keys[i + 1..])));
    }
  }

  lemma MembersSplit(v: Value, keys: seq<string>, i: nat)
    requires v.Object? && i < |keys| && forall k :: k in keys ==> k in v.fields
    ensures Elements(keys[i..]) <= v.fields.Keys && Elements(keys[i + 1..]) <= v.fields.Keys
    ensures var first := Quote(keys[i]) + ":" + Print(v.fields[keys[i]]);
      ShowMembers(SortedMembers(v, keys[i..]))
      == if i + 1 == |keys| then first else first + "," + ShowMembers(SortedMembers(v, keys[i + 1..]))
  {
    var tail := keys[i..];
    assert tail[0] == keys[i] && tail[1..] == keys[i + 1..];
    assert Elements(tail) <= v.fields.Keys;
    var members := SortedMembers(v, tail);
    assert members[0] == Member(keys[i], Sorted(v.fields[keys[i]])) && members[1..] == SortedMembers(v, tail[1..]);
  }

  lemma Glue(done: string, separator: string, first: string, rest: string)
    ensures done + (separator + (first + "," + rest)) == (done + (separator + first)) + ("," + rest)
  {
  }

  lemma Wrap(a: string, open: string, inner: string, close: string)
    ensures a + open + inner + close == a + (open + inner + close)
  {
  }

  /** Appends the value's canonical text to the buffer. */
  method WriteCanonical(buf: Buffer, v: Value)
    modifies buf
    ensures buf.text == old(buf.text) + Print(v)
    decreases v, 2
  {
    match v {
      case Object(_) => WriteObject(buf, v);
      case Array(items) => WriteArray(buf, v);
      case _ => buf.Write(ShowLeaf(v));
    }
  }

  method WriteItem(buf: Buffer, i: nat, v: Value)
    modifies buf
    ensures buf.text == old(buf.text) + (Separator(i) + Print(v))
    decreases v, 3
  {
    hide Print, Quote;
    if i > 0 {
      buf.Write(",");
    }
    WriteCanonical(buf, v);
  }

  method WriteMember(buf: Buffer, i: nat, key: string, v: Value)
    modifies buf
    ensures buf.text == old(buf.text) + (Separator(i) + (Quote(key) + ":" + Print(v)))
    decreases v, 3
  {
    hide Print, Quote;
    if i > 0 {
      buf.Write(",");
    }
    ghost var start := buf.text;
    buf.Write(Quote(key));
    buf.Write(":");
    WriteCanonical(buf, v);
    Wrap(start, Quote(key), ":", Print(v));
  }

  method WriteArray(buf: Buffer, v: Value)
    requires v.Array?
    modifies buf
    ensures buf.text == old(buf.text) + Print(v)
    decreases v, 1
  {
    buf.Write("[");
    ghost var start := buf.text;
    for i := 0 to |v.items|
      invariant buf.text == start + ItemsDone(v.items, i)
    {
      WriteItem(buf, i, v.items[i]);
      Regroup(start, ItemsDone(v.items, i), Separator(i) + Print(v.items[i]));
    }
    buf.Write("]");
    ghost var inner := ShowItems(SortedItems(v.items));
    assert ItemsDone(v.items, |v.items|) == inner by {
      if v.items != [] {
        ItemsDoneAll(v.items, 0);
        assert v.items[0..] == v.items;
      }
    }
    assert Print(v) == "[" + inner + "]";
    Wrap(old(buf.text), "[", inner, "]");
  }

  method WriteObject(buf: Buffer, v: Value)
    requires v.Object?
    modifies buf
    ensures buf.text == old(buf.text) + Print(v)
    decreases v, 1
  {
    var keys := IterateKeys(v.fields);
    SortOfListing(keys, v.fields.Keys);
    keys := Sort(keys);
    assert forall k :: k in keys ==> k in Elements(keys);
    buf.Write("{");
    ghost var start := buf.text;
    for i := 0 to |keys|
      invariant buf.text == start + MembersDone(v.fields, keys, i)
    {
      WriteMember(buf, i, keys[i], v.fields[keys[i]]);
      Regroup(start, MembersDone(v.fields, keys, i), Separator(i) + (Quote(keys[i]) + ":" + Print(v.fields[keys[i]])));
    }
    buf.Write("}");
    ghost var inner := MembersDone(v.fields, keys, |keys|);
    ObjectText(v, keys);
    Wrap(old(buf.text), "{", inner, "}");
  }

  lemma ObjectText(v: Value, keys: seq<string>)
    requires v.Object? && keys == SortedList(v.fields.Keys) && forall k :: k in keys ==> k in v.fields
    ensures Print(v) == "{" + MembersDone(v.fields, keys, |keys|) + "}"
  {
    var members := SortedMembers(v, keys);
    assert Sorted(v) == Members(members);
    assert MembersDone(v.fields, keys, |keys|) == ShowMembers(members) by {
      if keys != [] {
        assert keys[0..] == keys;
        MembersDoneAll(v, keys, 0);
      }
    }
  }

  // ------------------------------------------------------------ server entries

  /** A catalog record, as far as materialisation reads it. */
  datatype RemoteServer = RemoteServer(
    transport: string, command: string, args: seq<string>, env: map<string, string>,
    url: string, headers: map<string, string>)

  /** An on-disk entry; empty fields are omitted when it is written. */
  datatype Entry = Entry(
    kind: string, command: string, args: seq<string>, env: map<string, string>,
    url: string, headers: map<string, string>)

  function EntryForRemote(r: RemoteServer): Option<Entry> {
    if r.transport == "stdio" then Some(Entry("stdio", r.command, r.args, r.env, "", map[]))
    else if r.transport == "http" || r.transport == "sse" then
      Some(Entry(r.transport, "", [], map[], r.url, r.headers))
    else None
  }

  function Strings(xs: seq<string>): Value { Array(seq(|xs|, i requires 0 <= i < |xs| => Text(xs[i]))) }

  function StringMap(m: map<string, string>): Value { Object(map k | k in m :: Text(m[k])) }

  function Unless(empty: bool, v: Value): Option<Value> { if empty then None else Some(v) }

  /** One field as written; None where it is omitted. */
  function FieldValue(e: Entry, name: string): Option<Value> {
    if name == "type" then Some(Text(e.kind))
    else if name == "command" then Unless(e.command == "", Text(e.command))
    else if name == "args" then Unless(e.args == [], Strings(e.args))
    else if name == "env" then Unless(e.env == map[], StringMap(e.env))
    else if name == "url" then Unless(e.url == "", Text(e.url))
    else if name == "headers" then Unless(e.headers == map[], StringMap(e.headers))
    else None
  }

  function EntryValue(e: Entry): Value {
    Object(map name | name in {"type", "command", "args", "env", "url", "headers"} && FieldValue(e, name).Some?
              :: FieldValue(e, name).value)
  }

  /** Decoding into a string: null leaves it empty, any other type is an error. */
  function ReadString(v: Value): Option<string> {
    match v
    case Text(chars) => Some(chars)
    case Null => Some("")
    case _ => None
  }

  function ReadText(fields: map<string, Value>, name: string): Option<string> {
    if name in fields then ReadString(fields[name]) else Some("")
  }

  predicate AllStrings(items: seq<Value>) { forall i :: 0 <= i < |items| ==> ReadString(items[i]).Some? }

  function ReadStrings(fields: map<string, Value>, name: string): Option<seq<string>> {
    if name !in fields || fields[name] == Null then Some([])
    else if fields[name].Array? && AllStrings(fields[name].items) then
      var items := fields[name].items;
      Some(seq(|items|, i requires 0 <= i < |items| && ReadString(items[i]).Some? => ReadString(items[i]).value))
    else None
  }

  function ReadMap(v: Value): Option<map<string, string>> {
    if v.Object? && forall k :: k in v.fields ==> ReadString(v.fields[k]).Some? then
      Some(map k | k in v.fields && ReadString(v.fields[k]).Some? :: ReadString(v.fields[k]).value)
    else None
  }

  function ReadStringMap(fields: map<string, Value>, name: string): Option<map<string, string>> {
    if name !in fields || fields[name] == Null then Some(map[]) else ReadMap(fields[name])
  }

  /** What a decoded string may have been: text as it is, null as nothing, and no other type. */
  predicate DecodesTo(v: Value, s: string) { v == Text(s) || (v == Null && s == "") }

  lemma ReadTextExactly(fields: map<string, Value>, name: string, s: string)
    ensures ReadText(fields, name) == Some(s) <==> if name in fields then DecodesTo(fields[name], s) else s == ""
  {
  }

  lemma ReadStringsExactly(fields: map<string, Value>, name: string, xs: seq<string>)
    ensures ReadStrings(fields, name) == Some(xs) <==>
      if name !in fields || fields[name] == Null then xs == []
      else fields[name].Array? && |fields[name].items| == |xs|
           && forall i :: 0 <= i < |xs| ==> DecodesTo(fields[name].items[i], xs[i])
  {
    if name in fields && fields[name].Array? && AllStrings(fields[name].items) {
      var read := ReadStrings(fields, name).value;
      if |read| == |xs| && forall i :: 0 <= i < |xs| ==> read[i] == xs[i] {
        assert read == xs;
      }
    }
  }

  lemma ReadStringMapExactly(fields: map<string, Value>, name: string, m: map<string, string>)
    ensures ReadStringMap(fields, name) == Some(m) <==>
      if name !in fields || fields[name] == Null then m == map[]
      else fields[name].Object? && fields[name].fields.Keys == m.Keys
           && forall k :: k in m ==> DecodesTo(fields[name].fields[k], m[k])
  {
    if name in fields && ReadMap(fields[name]).Some? {
      var read := ReadMap(fields[name]).value;
      if read.Keys == m.Keys && forall k :: k in m ==> read[k] == m[k] {
        assert read == m;
      }
    }
  }

  lemma ReadMapWritten(m: map<string, string>)
    ensures ReadMap(StringMap(m)) == Some(m)
  {
    assert ReadMap(StringMap(m)).value == m;
  }

  function ReadEntry(v: Value): Option<Entry> {
    if !v.Object? then None
    else
      var kind, command, url := ReadText(v.fields, "type"), ReadText(v.fields, "command"), ReadText(v.fields, "url");
      var args, env := ReadStrings(v.fields, "args"), ReadStringMap(v.fields, "env");
      var headers := ReadStringMap(v.fields, "headers");
      if kind == None || command == None || url == None || args == None || env == None || headers == None then None
      else Some(Entry(kind.value, command.value, args.value, env.value, url.value, headers.value))
  }

  lemma StringsRead(fields: map<string, Value>, name: string, xs: seq<string>)
    requires if xs == [] then name !in fields else name in fields && fields[name] == Strings(xs)
    ensures ReadStrings(fields, name) == Some(xs)
  {
    if xs != [] {
      assert ReadStrings(fields, name).value == xs;
    }
  }

  lemma StringMapRead(fields: map<string, Value>, name: string, m: map<string, string>)
    requires if m == map[] then name !in fields else name in fields && fields[name] == StringMap(m)
    ensures ReadStringMap(fields, name) == Some(m)
  {
    ReadMapWritten(m);
  }

  /** Reading back a written entry loses nothing. */
  lemma EntryRoundTrip(e: Entry)
    ensures ReadEntry(EntryValue(e)) == Some(e)
  {
    hide ReadStrings, ReadStringMap, ReadText, Strings, StringMap, FieldValue;
    var fields := EntryValue(e).fields;
    WrittenFields(e);
    StringsRead(fields, "args", e.args);
    StringMapRead(fields, "env", e.env);
    StringMapRead(fields, "headers", e.headers);
  }

  /** What each field holds, and which are left out. */
  lemma WrittenFields(e: Entry)
    ensures var fields := EntryValue(e).fields;
      && ReadText(fields, "type") == Some(e.kind)
      && ReadText(fields, "command") == Some(e.command)
      && ReadText(fields, "url") == Some(e.url)
      && (if e.args == [] then "args" !in fields else "args" in fields && fields["args"] == Strings(e.args))
      && (if e.env == map[] then "env" !in fields else "env" in fields && fields["env"] == StringMap(e.env))
      && (if e.headers == map[] then "headers" !in fields
          else "headers" in fields && fields["headers"] == StringMap(e.headers))
  {
    hide Strings, StringMap;
  }

  lemma EntryIsObject(e: Entry)
    ensures EntryValue(e).Object?
  {
  }

  lemma EntryProper(e: Entry)
    ensures Proper(EntryValue(e))
  {
    forall name | FieldValue(e, name).Some? ensures Proper(FieldValue(e, name).value) {
    }
  }

  /** The entry text HQ sends, decoded, merged and read back off disk, hashes to what HQ hashed. */
  lemma {:induction false} PulledEntryHashesAlike(e: Entry)
    ensures var sent := Print(EntryValue(e));
      && ParseValue(sent).Some?
      && ReadEntry(ParseValue(sent).value.0) == Some(e)
      && Canonical(Print(EntryValue(e))) == Some(sent)
  {
    var v := EntryValue(e);
    EntryProper(e);
    EntryRoundTrip(e);
    SortedFaithful(v);
    ParseShow(Sorted(v), "");
    assert Print(v) + "" == Print(v);
  }

  // ------------------------------------------------------------------- hashing

  predicate Plain(c: char) { c != '\r' && c != '\n' }

  lemma EscapePlain(c: char)
    ensures forall x :: x in EscapeChar(c) ==> Plain(x)
  {
  }

  lemma {:induction false} QuotePlain(s: string)
    ensures forall x :: x in Escape(s) ==> Plain(x)
  {
    if s != [] {
      EscapePlain(s[0]);
      QuotePlain(s[1..]);
    }
  }

  lemma {:induction false} NumberPlain(s: string)
    requires IsNumber(s)
    ensures forall x :: x in s ==> Plain(x)
    ensures !Space(s[0]) && !Space(s[|s| - 1])
  {
    var start := if s[0] == '-' then 1 else 0;
    var i := IntegerEnd(s, start).value;
    var f := FractionEnd(s, i).value;
    forall k: nat | k <= |s| ensures forall x :: k <= x < DigitsEnd(s, k) ==> IsDigit(s[x]) {
      DigitsRun(s, k);
    }
  }

  lemma {:induction false} DigitsRun(s: string, k: nat)
    requires k <= |s|
    ensures forall x :: k <= x < DigitsEnd(s, k) ==> IsDigit(s[x])
    decreases |s| - k
  {
    if k < |s| && IsDigit(s[k]) {
      DigitsRun(s, k + 1);
    }
  }

  lemma {:induction false} ShowPlain(d: Doc)
    requires Sound(d)
    ensures forall x :: x in Show(d) ==> Plain(x)
    ensures Show(d) != [] && !Space(Show(d)[0]) && !Space(Show(d)[|Show(d)| - 1])
    decreases d, 1
  {
    match d
    case Leaf(v) =>
      if v.Number? {
        NumberPlain(v.literal);
      } else if v.Text? {
        QuotePlain(v.chars);
      }
    case List(items) => ShowItemsPlain(items);
    case Members(members) => ShowMembersPlain(members);
  }

  lemma {:induction false} ShowItemsPlain(items: seq<Doc>)
    requires forall i :: 0 <= i < |items| ==> Sound(items[i])
    ensures forall x :: x in ShowItems(items) ==> Plain(x)
    decreases items, 0
  {
    if items != [] {
      ShowPlain(items[0]);
      ShowItemsPlain(items[1..]);
    }
  }

  lemma {:induction false} ShowMembersPlain(members: seq<Member>)
    requires forall i :: 0 <= i < |members| ==> Sound(members[i].doc)
    ensures forall x :: x in ShowMembers(members) ==> Plain(x)
    decreases members, 0
  {
    if members != [] {
      QuotePlain(members[0].key);
      ShowPlain(members[0].doc);
      ShowMembersPlain(members[1..]);
    }
  }

  /** Hashing strips and folds nothing from canonical text: the hash is over the text itself. */
  lemma {:induction false} CanonicalIsHashBasis(v: Value)
    requires Proper(v)
    ensures HashBasis(Print(v)) == Print(v)
  {
    SortedFaithful(v);
    ShowPlain(Sorted(v));
    NormalizeIdentity(Print(v));
    TrimSpaceIdentity(Print(v));
  }

  // ---------------------------------------------------------- the shared document

  /** The names an approval list holds; anything in it that is not a string reads as "". */
  function ListedNames(v: Value): seq<string> {
    if v.Array? then seq(|v.items|, i requires 0 <= i < |v.items| => if v.items[i].Text? then v.items[i].chars else "")
    else []
  }

  /** The approval list after name was enabled. */
  function Enabled(extra: map<string, Value>, name: string): map<string, Value> {
    var names := if ENABLED_KEY in extra then ListedNames(extra[ENABLED_KEY]) else [];
    if name in names then extra else extra[ENABLED_KEY := Strings(Sort(names + [name]))]
  }

  /** The document: one entry per server, and every other top-level key. */
  class McpFile {
    var servers: map<string, Value>
    var extra: map<string, Value>

    constructor (servers: map<string, Value>, extra: map<string, Value>)
      ensures this.servers == servers && this.extra == extra
    {
      this.servers, this.extra := servers, extra;
    }

    method EnableServer(name: string)
      modifies this`extra
      ensures extra == Enabled(old(extra), name)
    {
      var names := [];
      if ENABLED_KEY in extra {
        names := ListedNames(extra[ENABLED_KEY]);
      }
      for i := 0 to |names|
        invariant forall k :: 0 <= k < i ==> names[k] != name
      {
        if names[i] == name {
          return;
        }
      }
      names := Sort(names + [name]);
      extra := extra[ENABLED_KEY := Strings(names)];
    }

    method Merge(name: string, e: Entry)
      modifies this
      ensures servers == old(servers)[name := EntryValue(e)]
      ensures extra == Enabled(old(extra), name)
    {
      servers := servers[name := EntryValue(e)];
      EnableServer(name);
    }
  }

  /** The merged server is enabled, whoever was enabled stays so, and no other key moves. */
  lemma {:induction false} EnableKeepsOthers(extra: map<string, Value>, name: string)
    ensures var after := Enabled(extra, name);
      && ENABLED_KEY in after && name in ListedNames(after[ENABLED_KEY])
      && (ENABLED_KEY in extra ==> forall n :: n in ListedNames(extra[ENABLED_KEY]) ==>
           n in ListedNames(after[ENABLED_KEY]))
      && after.Keys == extra.Keys + {ENABLED_KEY}
      && (forall k :: k in extra && k != ENABLED_KEY ==> after[k] == extra[k])
  {
    hide ListedNames, Strings, Sort;
    var names := if ENABLED_KEY in extra then ListedNames(extra[ENABLED_KEY]) else [];
    if name !in names {
      ListedStrings(Sort(names + [name]));
      SortOrders(names + [name]);
      forall n | n in names + [name] ensures n in Sort(names + [name]) {
        assert n in multiset(Sort(names + [name]));
      }
    }
  }

  lemma ListedStrings(names: seq<string>)
    ensures ListedNames(Strings(names)) == names
  {
  }

  function EnabledNames(extra: map<string, Value>): set<string> {
    if ENABLED_KEY in extra then Elements(ListedNames(extra[ENABLED_KEY])) else {}
  }

  /** The names enabled afterwards are those enabled before and the merged one. */
  lemma {:induction false} EnableAdds(extra: map<string, Value>, name: string)
    ensures EnabledNames(Enabled(extra, name)) == EnabledNames(extra) + {name}
  {
    hide ListedNames, Strings, Sort;
    var names := if ENABLED_KEY in extra then ListedNames(extra[ENABLED_KEY]) else [];
    if name !in names {
      var sorted := Sort(names + [name]);
      ListedStrings(sorted);
      SortOrders(names + [name]);
      forall n ensures n in sorted <==> n in names || n == name {
        assert n in sorted <==> n in multiset(sorted);
        assert n in names + [name] <==> n in multiset(names + [name]);
      }
    }
  }

  /** Enabling again changes nothing: a repeated pull does not churn the file. */
  lemma {:induction false} EnableIdempotent(extra: map<string, Value>, name: string)
    ensures Enabled(Enabled(extra, name), name) == Enabled(extra, name)
  {
    EnableKeepsOthers(extra, name);
  }

  /** On a list of strings each name occurs as often as before, plus once if it was missing. */
  lemma {:induction false} EnableAddsAtMostOne(extra: map<string, Value>, names: seq<string>, name: string)
    requires ENABLED_KEY in extra && extra[ENABLED_KEY] == Strings(names)
    ensures multiset(ListedNames(Enabled(extra, name)[ENABLED_KEY]))
         == multiset(names) + if name in names then multiset{} else multiset{name}
  {
    ListedStrings(names);
    ListedStrings(Sort(names + [name]));
    SortOrders(names + [name]);
  }

  /** The listed names with one more slipped in somewhere, none of them overtaking another. */
  ghost predicate SlippedIn(names: seq<string>, name: string, after: seq<string>) {
    exists p: nat :: p <= |names| && after == names[..p] + [name] + names[p..]
  }

  /** The approval list is neither order-stable nor de-duplicating: enabling a new name sorts the list, so the
      listed names keep their order exactly when they were sorted, and repeated names stay repeated. */
  lemma {:induction false} EnableSorts(extra: map<string, Value>, names: seq<string>, name: string)
    requires ENABLED_KEY in extra && extra[ENABLED_KEY] == Strings(names) && name !in names
    ensures var after := ListedNames(Enabled(extra, name)[ENABLED_KEY]);
      && Ordered(after)
      && (SlippedIn(names, name, after) <==> Ordered(names))
      && (Distinct(after) <==> Distinct(names))
  {
    hide Ordered, Sort, SlippedIn, Distinct;
    var after := Sort(names + [name]);
    ListedStrings(names);
    ListedStrings(after);
    SortOrders(names + [name]);
    assert multiset(after) == multiset(names) + multiset{name};
    SortedSlips(names, name, after);
    OneMoreDistinct(names, name, after);
  }

  lemma SortedSlips(names: seq<string>, name: string, after: seq<string>)
    requires Ordered(after) && multiset(after) == multiset(names) + multiset{name}
    ensures SlippedIn(names, name, after) <==> Ordered(names)
  {
    if Ordered(names) {
      var p := PlaceFor(name, names);
      var slipped := names[..p] + [name] + names[p..];
      assert names == names[..p] + names[p..];
      OrderedUnique(slipped, after);
    }
    if SlippedIn(names, name, after) {
      var p: nat :| p <= |names| && after == names[..p] + [name] + names[p..];
      SlippedOrdered(names, name, p);
    }
  }

  lemma SlippedOrdered(names: seq<string>, name: string, p: nat)
    requires p <= |names| && Ordered(names[..p] + [name] + names[p..])
    ensures Ordered(names)
  {
    var after := names[..p] + [name] + names[p..];
    forall i, j | 0 <= i < j < |names| ensures names[i] == names[j] || Below(names[i], names[j]) {
      var i', j' := if i < p then i else i + 1, if j < p then j else j + 1;
      assert after[i'] == names[i] && after[j'] == names[j];
    }
  }

  lemma OneMoreDistinct(names: seq<string>, name: string, after: seq<string>)
    requires name !in names && multiset(after) == multiset(names) + multiset{name}
    ensures Distinct(after) <==> Distinct(names)
  {
    CountsOfDistinct(names);
    CountsOfDistinct(after);
    assert forall x :: multiset(after)[x] == multiset(names)[x] + if x == name then 1 else 0;
    assert multiset(names)[name] == 0;
  }

  /** An unsorted list with a repeated name: it is reordered, and the repetition stays. */
  lemma EnableReorders(extra: map<string, Value>)
    requires "enabledMcpjsonServers" in extra && extra["enabledMcpjsonServers"] == Strings(["b", "a", "b"])
    ensures "enabledMcpjsonServers" in Enabled(extra, "c")
    ensures ListedNames(Enabled(extra, "c")["enabledMcpjsonServers"]) == ["a", "b", "b", "c"]
  {
    hide Sort, Strings, ListedNames;
    var names := ["b", "a", "b"];
    ListedStrings(names);
    ListedStrings(Sort(names + ["c"]));
    SortFour("a", "b", "c");
  }

  lemma SortFour(a: string, b: string, c: string)
    requires Below(a, b) && Below(a, c) && Below(b, c)
    ensures a != b && c !in [b, a, b] && Sort([b, a, b] + [c]) == [a, b, b, c]
  {
    hide Sort, Insert, Below;
    BelowIrreflexive(b);
    BelowIrreflexive(c);
    BelowAntisymmetric(a, b);
    BelowAntisymmetric(b, c);
    var none: seq<string> := [];
    SortFrom(c, none);
    InsertAt(c, none);
    assert [c] + none == [c] && Sort([c]) == [c];
    SortFrom(b, [c]);
    InsertAt(b, [c]);
    assert [b] + [c] == [b, c] && Sort([b, c]) == [b, c];
    SortFrom(a, [b, c]);
    InsertAt(a, [b, c]);
    assert [a] + [b, c] == [a, b, c] && Sort([a, b, c]) == [a, b, c];
    SortFrom(b, [a, b, c]);
    InsertAt(b, [a, b, c]);
    InsertAt(b, [b, c]);
    assert [a, b, c][1..] == [b, c] && [a] + ([b] + [b, c]) == [a, b, b, c];
    assert [b] + [a, b, c] == [b, a, b] + [c];
  }

  lemma SortFrom(x: string, xs: seq<string>)
    ensures Sort([x] + xs) == Insert(x, Sort(xs)) && Sort([]) == []
  {
    hide Insert;
    assert ([x] + xs)[1..] == xs;
  }

  lemma InsertAt(x: string, xs: seq<string>)
    ensures Insert(x, xs) == if xs == [] || !Below(xs[0], x) then [x] + xs else [xs[0]] + Insert(x, xs[1..])
  {
    hide Below;
  }

  // ------------------------------------------------------------------- pushing

  /** What a push of an on-disk entry authors; None for an unknown type. */
  function PushPayload(e: Entry): Option<RemoteServer> {
    if e.kind == "stdio" then Some(RemoteServer("stdio", e.command, e.args, e.env, "", map[]))
    else if e.kind == "http" || e.kind == "sse" then Some(RemoteServer(e.kind, "", [], map[], e.url, e.headers))
    else None
  }

  /** The fields its transport uses are all a record says. */
  predicate UsesItsFields(r: RemoteServer) {
    if r.transport == "stdio" then r.url == "" && r.headers == map[]
    else r.command == "" && r.args == [] && r.env == map[]
  }

  /** Pulled to disk, read back and pushed again, a record is itself exactly when it holds no field of the other
      transport; a record of unknown transport never reaches the disk. */
  lemma PushedBackIff(r: RemoteServer)
    ensures EntryForRemote(r).Some? <==> r.transport in {"stdio", "http", "sse"}
    ensures EntryForRemote(r).Some? ==>
      var read := ReadEntry(EntryValue(EntryForRemote(r).value));
      read.Some? && (PushPayload(read.value) == Some(r) <==> UsesItsFields(r))
  {
    hide ReadEntry, EntryValue;
    if EntryForRemote(r).Some? {
      EntryRoundTrip(EntryForRemote(r).value);
    }
  }
}
