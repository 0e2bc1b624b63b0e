/**
 * Drift and reconcile: comparing a project's config root with what HQ serves,
 * pulling what is missing, and ensuring the skills its agents depend on.
 */
module Reconcile {
  import opened Collections
  import opened Text
  import Json
  import Mcp
  import SkillFiles

  datatype Kind = Agent | Server | Skill | Workflow

  datatype Key = Key(kind: Kind, name: string)

  /** A local definition: its hash, and whether it was flagged as malformed. */
  datatype Item = Item(key: Key, hash: string, err: bool)

  datatype RemoteItem = RemoteItem(key: Key, scope: string, hash: string)

  datatype Drift = NeedsPush | NeedsPull | Differs | InSync | Error

  datatype Row = Row(key: Key, drift: Drift, scope: string)

  // -------------------------------------------------------------- a config root

  const MCP_FILE := ".claude.json"

  datatype McpDoc = Malformed | Doc(servers: map<string, Json.Value>, extra: map<string, Json.Value>)

  /** The agent and workflow files, the two forms of a skill, and the shared document. */
  datatype Tree = Tree(
    agents: map<string, string>, workflows: map<string, string>,
    skills: map<string, SkillFiles.Files>, flatSkills: map<string, string>, mcp: McpDoc)

  /** What a root holds under one key. */
  datatype Stored =
    | Nothing
    | Plain(content: string)
    | Forms(dir: Option<SkillFiles.Files>, flat: Option<string>)
    | Entry(value: Json.Value)
    | Broken

  function At<V>(m: map<string, V>, name: string): Option<V> { if name in m then Some(m[name]) else None }

  function Find(tree: Tree, key: Key): Stored {
    match key.kind
    case Agent => if key.name in tree.agents then Plain(tree.agents[key.name]) else Nothing
    case Workflow => if key.name in tree.workflows then Plain(tree.workflows[key.name]) else Nothing
    case Skill =>
      if key.name in tree.skills || key.name in tree.flatSkills
      then Forms(At(tree.skills, key.name), At(tree.flatSkills, key.name)) else Nothing
    case Server =>
      if tree.mcp.Malformed? then (if key.name == MCP_FILE then Broken else Nothing)
      else if key.name in tree.mcp.servers then Entry(tree.mcp.servers[key.name]) else Nothing
  }

  /** A shared document that cannot be read shows as one malformed item, named after its file, and as no server. */
  lemma MalformedIsFlagged(tree: Tree, name: string, sha: string -> string)
    requires tree.mcp.Malformed?
    ensures ItemsOf(Key(Server, name), Find(tree, Key(Server, name)), sha)
      == if name == ".claude.json" then [Item(Key(Server, ".claude.json"), "", true)] else []
  {
    hide Blank, ValidJson, DirItem;
  }

  function Blank(content: string): bool { TrimSpace(content) == "" }

  /** The text is one JSON value and nothing else. */
  function ValidJson(text: string): bool {
    match Json.ParseValue(text)
    case None => false
    case Some((_, rest)) => Json.SkipSpace(rest) == ""
  }

  ghost function DirItem(key: Key, files: SkillFiles.Files, sha: string -> string): Item {
    if SkillFiles.MAIN !in files then Item(key, "", true)
    else Item(key, sha(HashBasis(SkillFiles.Canonical(files))), Blank(files[SkillFiles.MAIN]))
  }

  /** The items a scan reports for what is stored; a skill in both forms is reported twice. */
  ghost function ItemsOf(key: Key, stored: Stored, sha: string -> string): seq<Item> {
    match stored
    case Nothing => []
    case Broken => [Item(key, "", true)]
    case Plain(content) =>
      [Item(key, sha(HashBasis(content)), Blank(content) || (key.kind == Workflow && !ValidJson(content)))]
    case Forms(dir, flat) =>
      (if dir.Some? then [DirItem(key, dir.value, sha)] else [])
      + (if flat.Some? then [Item(key, sha(HashBasis(flat.value)), Blank(flat.value))] else [])
    case Entry(value) => [Item(key, sha(HashBasis(Json.Print(value))), false)]
  }

  // ------------------------------------------------------------ the local items

  function OfKey(items: seq<Item>, key: Key): seq<Item> {
    if items == [] then []
    else OfKey(items[..|items| - 1], key) + if items[|items| - 1].key == key then [items[|items| - 1]] else []
  }

  function KeysOf(items: seq<Item>): set<Key> {
    if items == [] then {} else KeysOf(items[..|items| - 1]) + {items[|items| - 1].key}
  }

  /** The user's own definition wins over the root's. */
  ghost function LocalAt(user: Tree, plus: Tree, key: Key, sha: string -> string): seq<Item> {
    if Find(user, key) != Nothing then ItemsOf(key, Find(user, key), sha) else ItemsOf(key, Find(plus, key), sha)
  }

  /** items lists, in whatever order, what the user's tree and the root define. */
  ghost predicate Lists(items: seq<Item>, user: Tree, plus: Tree, sha: string -> string) {
    forall key :: OfKey(items, key) == LocalAt(user, plus, key, sha)
  }

  lemma {:induction false} KeysOfItems(items: seq<Item>, key: Key)
    ensures key in KeysOf(items) <==> OfKey(items, key) != []
  {
    if items != [] {
      KeysOfItems(items[..|items| - 1], key);
    }
  }

  lemma OfKeyAppend(items: seq<Item>, item: Item, key: Key)
    ensures OfKey(items + [item], key) == OfKey(items, key) + if item.key == key then [item] else []
    ensures KeysOf(items + [item]) == KeysOf(items) + {item.key}
  {
    assert (items + [item])[..|items|] == items;
  }

  /** The union of two scans: an item of the second is dropped when the first has its key. */
  method UnionLocal(userItems: seq<Item>, plusItems: seq<Item>) returns (items: seq<Item>)
    ensures forall key :: OfKey(items, key)
                       == if key in KeysOf(userItems) then OfKey(userItems, key) else OfKey(plusItems, key)
  {
    hide OfKey, KeysOf;
    items := userItems;
    var seen: set<Key> := {};
    EmptyKeys();
    for i := 0 to |userItems|
      invariant seen == KeysOf(userItems[..i])
    {
      OfKeyAppend(userItems[..i], userItems[i], userItems[i].key);
      assert userItems[..i + 1] == userItems[..i] + [userItems[i]];
      seen := seen + {userItems[i].key};
    }
    assert userItems[..|userItems|] == userItems;
    assert plusItems[..0] == [];
    forall key ensures key !in seen ==> OfKey(userItems, key) == [] {
      KeysOfItems(userItems, key);
    }
    for i := 0 to |plusItems|
      invariant forall key :: key in seen ==> OfKey(items, key) == OfKey(userItems, key)
      invariant forall key :: key !in seen ==> OfKey(items, key) == OfKey(plusItems[..i], key)
    {
      var item := plusItems[i];
      assert plusItems[..i + 1] == plusItems[..i] + [item];
      forall key
        ensures OfKey(plusItems[..i + 1], key) == OfKey(plusItems[..i], key) + if item.key == key then [item] else []
      {
        OfKeyAppend(plusItems[..i], item, key);
      }
      if item.key !in seen {
        forall key ensures OfKey(items + [item], key) == OfKey(items, key) + if item.key == key then [item] else [] {
          OfKeyAppend(items, item, key);
        }
        items := items + [item];
      }
    }
    assert plusItems[..|plusItems|] == plusItems;
  }

  lemma EmptyKeys()
    ensures KeysOf([]) == {} && forall key :: OfKey([], key) == []
  {
  }

  // ---------------------------------------------------------------------- drift

  /** The last remote item under a key. */
  function RemoteAt(remote: seq<RemoteItem>, key: Key): Option<RemoteItem> {
    if remote == [] then None
    else if remote[|remote| - 1].key == key then Some(remote[|remote| - 1])
    else RemoteAt(remote[..|remote| - 1], key)
  }

  function LocalRow(item: Item, remote: seq<RemoteItem>): Row {
    if item.err then Row(item.key, Error, "")
    else
      match RemoteAt(remote, item.key)
      case None => Row(item.key, NeedsPush, "")
      case Some(r) => Row(item.key, if r.hash != item.hash then Differs else InSync, r.scope)
  }

  function LocalRows(local: seq<Item>, remote: seq<RemoteItem>): seq<Row> {
    if local == [] then []
    else LocalRows(local[..|local| - 1], remote) + [LocalRow(local[|local| - 1], remote)]
  }

  function PullRows(remote: seq<RemoteItem>, seen: set<Key>): seq<Row> {
    if remote == [] then []
    else
      var r := remote[|remote| - 1];
      PullRows(remote[..|remote| - 1], seen) + if r.key in seen then [] else [Row(r.key, NeedsPull, r.scope)]
  }

  function DiffRows(local: seq<Item>, remote: seq<RemoteItem>): seq<Row> {
    LocalRows(local, remote) + PullRows(remote, KeysOf(local))
  }

  function Count(rows: seq<Row>, drift: Drift): nat {
    if rows == [] then 0 else Count(rows[..|rows| - 1], drift) + if rows[|rows| - 1].drift == drift then 1 else 0
  }

  datatype Report = Report(rows: seq<Row>, needsPush: nat, needsPull: nat, differs: nat, errors: nat)

  ghost predicate Counted(report: Report) {
    && report.needsPush == Count(report.rows, NeedsPush) && report.needsPull == Count(report.rows, NeedsPull)
    && report.differs == Count(report.rows, Differs) && report.errors == Count(report.rows, Error)
  }

  lemma CountAppend(rows: seq<Row>, row: Row)
    ensures forall drift :: Count(rows + [row], drift) == Count(rows, drift) + if row.drift == drift then 1 else 0
  {
    assert (rows + [row])[..|rows|] == rows;
  }

  /** The index of the remote items gives, under each key, the last item. */
  ghost predicate Indexes(index: map<Key, RemoteItem>, remote: seq<RemoteItem>) {
    forall key :: IndexedAt(index, remote, key)
  }

  ghost predicate IndexedAt(index: map<Key, RemoteItem>, remote: seq<RemoteItem>, key: Key) {
    RemoteAt(remote, key) == if key in index then Some(index[key]) else None
  }

  lemma IndexStep(index: map<Key, RemoteItem>, remote: seq<RemoteItem>, i: nat)
    requires i < |remote| && Indexes(index, remote[..i])
    ensures Indexes(index[remote[i].key := remote[i]], remote[..i + 1])
  {
    hide RemoteAt;
    RemoteAtStep(remote, i);
    var grown, front := index[remote[i].key := remote[i]], remote[..i + 1];
    forall key ensures IndexedAt(grown, front, key) {
      assert IndexedAt(index, remote[..i], key);
    }
  }

  method Diff(local: seq<Item>, remote: seq<RemoteItem>) returns (report: Report)
    ensures report.rows == DiffRows(local, remote) && Counted(report)
  {
    hide Count, RemoteAt, LocalRows, PullRows, KeysOf, Counted;
    DiffStarts(remote);
    var remoteByKey: map<Key, RemoteItem> := map[];
    for i := 0 to |remote|
      invariant Indexes(remoteByKey, remote[..i])
    {
      IndexStep(remoteByKey, remote, i);
      remoteByKey := remoteByKey[remote[i].key := remote[i]];
    }
    assert remote[..|remote|] == remote;
    report := Report([], 0, 0, 0, 0);
    var seen: set<Key> := {};
    for i := 0 to |local|
      invariant report.rows == LocalRows(local[..i], remote) && seen == KeysOf(local[..i]) && Counted(report)
    {
      var item := local[i];
      seen := seen + {item.key};
      LocalRowsStep(local, remote, i);
      var row := Row(item.key, Error, "");
      if !item.err {
        assert IndexedAt(remoteByKey, remote, item.key);
        if item.key !in remoteByKey {
          row := row.(drift := NeedsPush);
        } else if remoteByKey[item.key].hash != item.hash {
          row := row.(drift := Differs, scope := remoteByKey[item.key].scope);
        } else {
          row := row.(drift := InSync, scope := remoteByKey[item.key].scope);
        }
      }
      report := Tally(report, row);
    }
    assert local[..|local|] == local;
    ghost var rows := report.rows;
    assert rows + [] == rows;
    for i := 0 to |remote|
      invariant report.rows == rows + PullRows(remote[..i], seen) && Counted(report)
    {
      PullRowsStep(remote, seen, i);
      if remote[i].key !in seen {
        var row := Row(remote[i].key, NeedsPull, remote[i].scope);
        assert report.rows + [row] == rows + (PullRows(remote[..i], seen) + [row]);
        report := Tally(report, row);
      }
    }
  }

  function Tally(report: Report, row: Row): (r: Report)
    ensures r.rows == report.rows + [row] && (Counted(report) ==> Counted(r))
  {
    CountAppend(report.rows, row);
    var counted := report.(rows := report.rows + [row]);
    match row.drift
    case NeedsPush => counted.(needsPush := report.needsPush + 1)
    case NeedsPull => counted.(needsPull := report.needsPull + 1)
    case Differs => counted.(differs := report.differs + 1)
    case Error => counted.(errors := report.errors + 1)
    case InSync => counted
  }

  lemma DiffStarts(remote: seq<RemoteItem>)
    ensures remote[..0] == [] && Counted(Report([], 0, 0, 0, 0)) && KeysOf([]) == {} && LocalRows([], remote) == []
    ensures Indexes(map[], [])
    ensures forall seen :: PullRows([], seen) == []
  {
  }

  lemma RemoteAtStep(remote: seq<RemoteItem>, i: nat)
    requires i < |remote|
    ensures forall key ::
      RemoteAt(remote[..i + 1], key) == if remote[i].key == key then Some(remote[i]) else RemoteAt(remote[..i], key)
  {
    var front := remote[..i + 1];
    assert front[..|front| - 1] == remote[..i] && front[|front| - 1] == remote[i];
    forall key
      ensures RemoteAt(front, key) == if remote[i].key == key then Some(remote[i]) else RemoteAt(remote[..i], key)
    {
    }
  }

  lemma LocalRowsStep(local: seq<Item>, remote: seq<RemoteItem>, i: nat)
    requires i < |local|
    ensures LocalRows(local[..i + 1], remote) == LocalRows(local[..i], remote) + [LocalRow(local[i], remote)]
    ensures KeysOf(local[..i + 1]) == KeysOf(local[..i]) + {local[i].key}
  {
    assert local[..i + 1][..i] == local[..i];
  }

  lemma PullRowsStep(remote: seq<RemoteItem>, seen: set<Key>, i: nat)
    requires i < |remote|
    ensures PullRows(remote[..i + 1], seen) == PullRows(remote[..i], seen)
      + if remote[i].key in seen then [] else [Row(remote[i].key, NeedsPull, remote[i].scope)]
  {
    assert remote[..i + 1][..i] == remote[..i];
  }

  // -------------------------------------------------------------------- applying

  /** What HQ resolves a key to, and what it hashes and sends for it. */
  datatype Record = File(text: string) | Directory(files: SkillFiles.Files) | McpServer(entry: Mcp.Entry)

  ghost predicate Suits(record: Record, kind: Kind) {
    match kind
    case Agent => record.File?
    case Workflow => record.File?
    case Skill => record.Directory?
    case Server => record.McpServer?
  }

  ghost function BodyOf(record: Record): string {
    match record
    case File(text) => text
    case Directory(files) => SkillFiles.Encode(files)
    case McpServer(entry) => Json.Print(Mcp.EntryValue(entry))
  }

  ghost function HashOf(record: Record, sha: string -> string): string {
    match record
    case File(text) => sha(HashBasis(text))
    case Directory(files) => sha(HashBasis(SkillFiles.Canonical(files)))
    case McpServer(entry) => sha(HashBasis(Json.Print(Mcp.EntryValue(entry))))
  }

  /** A single SKILL.md whose text is itself a file-map envelope is decoded as one. */
  ghost predicate SpellsEnvelope(record: Record) {
    && record.Directory? && SkillFiles.SingleFile(record.files)
    && SkillFiles.Enveloped(record.files[SkillFiles.MAIN]).Some?
  }

  /** What a pulled record becomes under a key that was free. */
  function StoredBy(record: Record): Stored {
    match record
    case File(text) => Plain(text)
    case Directory(files) => Forms(Some(files), None)
    case McpServer(entry) => Entry(Mcp.EntryValue(entry))
  }

  function DecodeEntry(body: string): Option<Mcp.Entry> {
    match Json.ParseValue(body)
    case None => None
    case Some((v, rest)) =>
      if Json.SkipSpace(rest) != "" then None
      else if v == Json.Null then Some(Mcp.Entry("", "", [], map[], "", map[]))
      else Mcp.ReadEntry(v)
  }

  /** Materialising a body; None when it cannot be decoded or the shared document is malformed. */
  function Apply(tree: Tree, key: Key, body: string): Option<Tree> {
    match key.kind
    case Agent => Some(tree.(agents := tree.agents[key.name := body]))
    case Workflow => Some(tree.(workflows := tree.workflows[key.name := body]))
    case Skill =>
      var present := if key.name in tree.skills then tree.skills[key.name] else map[];
      Some(tree.(skills := tree.skills[key.name := present + SkillFiles.Decode(body)]))
    case Server =>
      if tree.mcp.Malformed? || DecodeEntry(body) == None then None
      else
        var servers := tree.mcp.servers[key.name := Mcp.EntryValue(DecodeEntry(body).value)];
        Some(tree.(mcp := Doc(servers, Mcp.Enabled(tree.mcp.extra, key.name))))
  }

  lemma DecodeEntryWritten(e: Mcp.Entry)
    ensures DecodeEntry(Json.Print(Mcp.EntryValue(e))) == Some(e)
  {
    hide Mcp.EntryValue, Mcp.ReadEntry, Json.ParseValue, Json.Sorted, Json.Show, Json.Sound, Json.Proper;
    var v := Mcp.EntryValue(e);
    Mcp.EntryProper(e);
    Mcp.EntryRoundTrip(e);
    Mcp.EntryIsObject(e);
    Json.SortedFaithful(v);
    Json.ParseShow(Json.Sorted(v), "");
    assert Json.Print(v) + "" == Json.Print(v);
  }

  /** The top-level keys a pull may not touch. */
  function OtherKeys(doc: McpDoc): Option<map<string, Json.Value>> {
    if doc.Malformed? then None else Some(doc.extra - {Mcp.ENABLED_KEY})
  }

  /** The servers the shared document approves. */
  function Approved(doc: McpDoc): set<string> { if doc.Malformed? then {} else Mcp.EnabledNames(doc.extra) }

  /** A pulled server is approved, and no other name is. */
  lemma ApplyApproves(tree: Tree, key: Key, body: string)
    requires Apply(tree, key, body).Some?
    ensures var after := Apply(tree, key, body).value;
      Approved(after.mcp) == Approved(tree.mcp) + ServerNames({key})
  {
    hide Mcp.Enabled, Mcp.EnabledNames, SkillFiles.Decode, DecodeEntry;
    if key.kind == Server {
      Mcp.EnableAdds(tree.mcp.extra, key.name);
    }
  }

  function ServerNames(keys: set<Key>): set<string> { set key | key in keys && key.kind == Server :: key.name }

  /** A pull changes nothing but its own key and the approval list. */
  lemma ApplyKeepsOthers(tree: Tree, key: Key, body: string, other: Key)
    requires Apply(tree, key, body).Some?
    ensures var after := Apply(tree, key, body).value;
      && (other != key ==> Find(after, other) == Find(tree, other))
      && Find(after, key) != Nothing
      && OtherKeys(after.mcp) == OtherKeys(tree.mcp)
  {
    hide Mcp.Enabled, SkillFiles.Decode, DecodeEntry;
    if key.kind == Server {
      EnabledElsewhere(tree.mcp.extra, key.name);
    }
  }

  lemma EnabledElsewhere(extra: map<string, Json.Value>, name: string)
    ensures Mcp.Enabled(extra, name) - {Mcp.ENABLED_KEY} == extra - {Mcp.ENABLED_KEY}
  {
    hide Mcp.Enabled;
    Mcp.EnableKeepsOthers(extra, name);
  }

  /** Under a free key the record itself is stored. */
  lemma ApplyStores(tree: Tree, key: Key, record: Record)
    requires Suits(record, key.kind) && !SpellsEnvelope(record)
    requires Find(tree, key) == Nothing && Apply(tree, key, BodyOf(record)).Some?
    ensures Find(Apply(tree, key, BodyOf(record)).value, key) == StoredBy(record)
  {
    hide Mcp.Enabled, Mcp.EntryValue, SkillFiles.Decode, SkillFiles.Encode, SkillFiles.Enveloped, DecodeEntry,
      Json.Print;
    match record {
      case File(_) =>
      case Directory(files) =>
        SkillFiles.EnvelopeRoundTrip(files);
        ApplyFresh(tree, key, BodyOf(record), files);
      case McpServer(entry) =>
        DecodeEntryWritten(entry);
    }
  }

  lemma ApplyFresh(tree: Tree, key: Key, body: string, files: SkillFiles.Files)
    requires key.kind == Skill && Find(tree, key) == Nothing && SkillFiles.Decode(body) == files
    ensures Find(Apply(tree, key, body).value, key) == Forms(Some(files), None)
  {
    hide SkillFiles.Decode;
    assert map[] + files == files;
  }

  /** There is something to read in it. */
  predicate Says(text: string) { exists c :: c in text && !Space(c) }

  lemma BlankIff(text: string)
    ensures Blank(text) <==> !Says(text)
  {
    var left := TrimLeftSpace(text);
    var trimmed := TrimSpace(text);
    TrimLeftSpaceShape(text);
    TrimRightSpaceShape(left);
    hide Space, TrimLeftSpace, TrimRightSpace;
    if left != "" {
      assert !Space(left[0]) && left[0] == text[|text| - |left|];
    }
  }

  /** The canonical text of a value is valid, text with a comma behind it is not, and neither is empty text. */
  lemma ValidJsonTexts(v: Json.Value, tail: string)
    requires Json.Proper(v)
    ensures ValidJson(Json.Print(v)) && !ValidJson(Json.Print(v) + ("," + tail)) && !ValidJson("")
  {
    hide Json.Print, Json.Sorted, Json.Show, Json.Sound, Json.Denote;
    Json.SortedFaithful(v);
    assert Json.Print(v) == Json.Show(Json.Sorted(v)) by { PrintIs(v); }
    Json.ParseShow(Json.Sorted(v), "");
    assert Json.Print(v) + "" == Json.Print(v);
    Json.ParseShow(Json.Sorted(v), "," + tail);
    hide Json.ParseValue;
    EmptyIsNoJson();
  }

  lemma PrintIs(v: Json.Value)
    ensures Json.Print(v) == Json.Show(Json.Sorted(v))
  {
    hide Json.Show, Json.Sorted;
  }

  lemma EmptyIsNoJson()
    ensures Json.ParseValue("") == None
  {
  }

  /** An empty definition is flagged when it is read back. */
  predicate Whole(record: Record, kind: Kind) {
    match record
    case File(text) => Says(text) && (kind == Workflow ==> ValidJson(text))
    case Directory(files) => SkillFiles.MAIN in files && Says(files[SkillFiles.MAIN])
    case McpServer(_) => true
  }

  /** Hash parity: what a pull stores reads back clean with HQ's hash, exactly for whole definitions. */
  lemma ParityIffWhole(record: Record, key: Key, sha: string -> string)
    requires Suits(record, key.kind)
    ensures ItemsOf(key, StoredBy(record), sha) == [Item(key, HashOf(record, sha), false)] <==> Whole(record, key.kind)
  {
    hide SkillFiles.Canonical, Json.Print, HashBasis, Blank, Says, ValidJson, Mcp.EntryValue;
    if record.File? {
      BlankIff(record.text);
    }
    if record.Directory? {
      if SkillFiles.MAIN in record.files {
        BlankIff(record.files[SkillFiles.MAIN]);
      }
      assert [DirItem(key, record.files, sha)] + [] == [DirItem(key, record.files, sha)];
    }
  }

  /** The config root as it is changed in place. */
  class Root {
    var tree: Tree

    constructor (initial: Tree)
      ensures tree == initial
    {
      tree := initial;
    }

    method ApplyPulled(key: Key, body: string, writable: bool) returns (ok: bool)
      modifies this
      ensures ok <==> writable && Apply(old(tree), key, body).Some?
      ensures tree == if ok then Apply(old(tree), key, body).value else old(tree)
    {
      if !writable {
        return false;
      }
      match key.kind {
        case Agent =>
          tree := tree.(agents := tree.agents[key.name := body]);
        case Workflow =>
          tree := tree.(workflows := tree.workflows[key.name := body]);
        case Skill =>
          var present: SkillFiles.Files := map[];
          if key.name in tree.skills {
            present := tree.skills[key.name];
          }
          tree := tree.(skills := tree.skills[key.name := present + SkillFiles.Decode(body)]);
        case Server =>
          var entry := DecodeEntry(body);
          if entry == None || tree.mcp.Malformed? {
            return false;
          }
          var file := new Mcp.McpFile(tree.mcp.servers, tree.mcp.extra);
          file.Merge(key.name, entry.value);
          tree := tree.(mcp := Doc(file.servers, file.extra));
      }
      return true;
    }

    /** One report row. */
    method ReconcileRow(row: Row, src: Source, local: seq<Item>, pushes: Key -> bool, run: Run) returns (next: Run)
      requires run.tree == tree
      modifies this
      ensures next == RowStep(run, row, src, local, pushes) && tree == next.tree
    {
      next := run;
      match row.drift {
        case NeedsPull =>
          if row.key !in src.bodies {
            return run.(errors := run.errors + 1);
          }
          var ok := ApplyPulled(row.key, src.bodies[row.key], row.key !in src.faults);
          if !ok {
            return run.(errors := run.errors + 1);
          }
          next := next.(tree := tree, pulled := next.pulled + 1);
          if row.key.kind == Skill {
            next := next.(present := next.present + {row.key.name});
          }
          if row.key.kind == Agent {
            next := next.(agents := next.agents + [row.key.name]);
          }
        case NeedsPush =>
          if row.key in KeysOf(local) {
            if pushes(row.key) {
              next := next.(pushed := next.pushed + 1);
            } else {
              next := next.(errors := next.errors + 1);
            }
          }
        case InSync =>
          if row.key.kind == Agent {
            next := next.(agents := next.agents + [row.key.name]);
          }
        case Differs =>
          if row.key.kind == Agent {
            next := next.(agents := next.agents + [row.key.name]);
          }
        case Error =>
      }
    }

    /** Pulls every dependency of the given agents that is still missing. */
    method EnsureAgentSkillDeps(src: Source, agents: seq<string>, run: Run) returns (next: Run)
      requires run.tree == tree
      modifies this
      ensures next == DepsRun(run, DepList(agents, src), src) && tree == next.tree
    {
      hide DepStep, Apply;
      next := run;
      ghost var done: seq<string> := [];
      DepsStart(run, src);
      for i := 0 to |agents|
        invariant done == DepList(agents[..i], src) && next == DepsRun(run, done, src) && tree == next.tree
      {
        var skills := DepsOf(agents[i], src);
        ghost var before := done;
        DepListStep(agents, src, i);
        assert before + skills[..0] == before;
        for j := 0 to |skills|
          invariant done == before + skills[..j] && next == DepsRun(run, done, src) && tree == next.tree
        {
          DepsRunStep(run, done, skills[j], src);
          assert before + skills[..j + 1] == done + [skills[j]];
          next := EnsureSkill(src, skills[j], next);
          done := done + [skills[j]];
        }
        assert skills[..|skills|] == skills;
      }
      assert agents[..|agents|] == agents;
    }

    method EnsureSkill(src: Source, skill: string, run: Run) returns (next: Run)
      requires run.tree == tree
      modifies this
      ensures next == DepStep(run, skill, src) && tree == next.tree
    {
      if skill == "" || skill in run.present {
        return run;
      }
      next := run.(present := run.present + {skill});
      var key := Key(Skill, skill);
      if key !in src.bodies {
        return next.(errors := next.errors + 1);
      }
      var ok := ApplyPulled(key, src.bodies[key], key !in src.faults);
      if ok {
        next := next.(tree := tree, pulled := next.pulled + 1);
      } else {
        next := next.(errors := next.errors + 1);
      }
    }

    method Reconcile(rows: seq<Row>, src: Source, local: seq<Item>, pushes: Key -> bool)
      returns (pulled: nat, pushed: nat, errors: nat)
      modifies this
      ensures var end := Reconciled(old(tree), rows, src, local, pushes);
        tree == end.tree && pulled == end.pulled && pushed == end.pushed && errors == end.errors
    {
      hide RowStep, DepsRun;
      var present: set<string> := {};
      for i := 0 to |local|
        invariant present == SkillNames(local[..i])
      {
        assert local[..i + 1][..i] == local[..i];
        if local[i].key.kind == Skill {
          present := present + {local[i].key.name};
        }
      }
      assert local[..|local|] == local;
      var run := Run(tree, present, [], 0, 0, 0);
      for i := 0 to |rows|
        invariant run == RowsRun(Start(old(tree), local), rows[..i], src, local, pushes) && run.tree == tree
      {
        assert rows[..i + 1][..i] == rows[..i];
        run := ReconcileRow(rows[i], src, local, pushes, run);
      }
      assert rows[..|rows|] == rows;
      run := EnsureAgentSkillDeps(src, run.agents, run);
      return run.pulled, run.pushed, run.errors;
    }
  }

  // ------------------------------------------------------------------ whole runs

  /** One fetch: the effective items, the cached bodies, and each agent's skills; and where writing will fail. */
  datatype Source = Source(
    remote: seq<RemoteItem>, bodies: map<Key, string>, agentSkills: map<string, seq<string>>, faults: set<Key>)

  datatype Run = Run(tree: Tree, present: set<string>, agents: seq<string>, pulled: nat, pushed: nat, errors: nat)

  function SkillNames(local: seq<Item>): set<string> {
    if local == [] then {}
    else
      var key := local[|local| - 1].key;
      SkillNames(local[..|local| - 1]) + if key.kind == Skill then {key.name} else {}
  }

  function Start(tree: Tree, local: seq<Item>): Run { Run(tree, SkillNames(local), [], 0, 0, 0) }

  function Pull(run: Run, key: Key, src: Source): Run {
    if key in src.bodies && key !in src.faults && Apply(run.tree, key, src.bodies[key]).Some?
    then run.(tree := Apply(run.tree, key, src.bodies[key]).value, pulled := run.pulled + 1)
    else run.(errors := run.errors + 1)
  }

  function Noted(run: Run, key: Key): Run {
    run.(present := if key.kind == Skill then run.present + {key.name} else run.present,
         agents := if key.kind == Agent then run.agents + [key.name] else run.agents)
  }

  function RowStep(run: Run, row: Row, src: Source, local: seq<Item>, pushes: Key -> bool): Run {
    match row.drift
    case NeedsPull =>
      var next := Pull(run, row.key, src);
      if next.pulled == run.pulled then next else Noted(next, row.key)
    case NeedsPush =>
      if row.key !in KeysOf(local) then run
      else if pushes(row.key) then run.(pushed := run.pushed + 1) else run.(errors := run.errors + 1)
    case Error => run
    case _ => run.(agents := if row.key.kind == Agent then run.agents + [row.key.name] else run.agents)
  }

  function RowsRun(run: Run, rows: seq<Row>, src: Source, local: seq<Item>, pushes: Key -> bool): Run {
    if rows == [] then run
    else RowStep(RowsRun(run, rows[..|rows| - 1], src, local, pushes), rows[|rows| - 1], src, local, pushes)
  }

  function DepStep(run: Run, skill: string, src: Source): Run {
    if skill == "" || skill in run.present then run
    else
      var next := Pull(run, Key(Skill, skill), src);
      next.(present := next.present + {skill})
  }

  function DepsRun(run: Run, skills: seq<string>, src: Source): Run {
    if skills == [] then run else DepStep(DepsRun(run, skills[..|skills| - 1], src), skills[|skills| - 1], src)
  }

  function DepsOf(agent: string, src: Source): seq<string> {
    if agent in src.agentSkills then src.agentSkills[agent] else []
  }

  function DepList(agents: seq<string>, src: Source): seq<string> {
    if agents == [] then [] else DepList(agents[..|agents| - 1], src) + DepsOf(agents[|agents| - 1], src)
  }

  function Reconciled(tree: Tree, rows: seq<Row>, src: Source, local: seq<Item>, pushes: Key -> bool): Run {
    var run := RowsRun(Start(tree, local), rows, src, local, pushes);
    DepsRun(run, DepList(run.agents, src), src)
  }

  lemma DepsStart(run: Run, src: Source)
    ensures DepList([], src) == [] && DepsRun(run, [], src) == run
  {
  }

  lemma DepListStep(agents: seq<string>, src: Source, i: nat)
    requires i < |agents|
    ensures DepList(agents[..i + 1], src) == DepList(agents[..i], src) + DepsOf(agents[i], src)
  {
    assert agents[..i + 1][..i] == agents[..i];
  }

  lemma DepsRunStep(run: Run, done: seq<string>, skill: string, src: Source)
    ensures DepsRun(run, done + [skill], src) == DepStep(DepsRun(run, done, src), skill, src)
  {
    assert (done + [skill])[..|done|] == done;
  }

  // ------------------------------------------------------------------ invariants

  /** Every body served is the encoding of a record; each effective item carries its record's hash. */
  ghost predicate Serves(src: Source, records: map<Key, Record>, sha: string -> string) {
    && (forall key :: key in src.bodies ==> Served(src, records, key))
    && (forall i :: 0 <= i < |src.remote| ==> HasHash(src.remote[i], src, records, sha))
  }

  ghost predicate Served(src: Source, records: map<Key, Record>, key: Key)
    requires key in src.bodies
  {
    && key in records && Suits(records[key], key.kind)
    && !SpellsEnvelope(records[key]) && src.bodies[key] == BodyOf(records[key])
  }

  ghost predicate HasHash(r: RemoteItem, src: Source, records: map<Key, Record>, sha: string -> string) {
    r.key in src.bodies && r.key in records && r.hash == HashOf(records[r.key], sha)
  }

  /** One effective record of the catalog. */
  datatype Listing = Listing(key: Key, scope: string, record: Record)

  function RecordsOf(listings: seq<Listing>): map<Key, Record> {
    if listings == [] then map[]
    else
      var last := listings[|listings| - 1];
      RecordsOf(listings[..|listings| - 1])[last.key := last.record]
  }

  /** What a fetch publishes: per record the body to write and the hash taken over the same content. */
  ghost function Fetched(listings: seq<Listing>, agentSkills: map<string, seq<string>>, sha: string -> string): Source {
    if listings == [] then Source([], map[], agentSkills, {})
    else
      WithListing(Fetched(listings[..|listings| - 1], agentSkills, sha), listings[|listings| - 1], sha)
  }

  ghost function WithListing(before: Source, last: Listing, sha: string -> string): Source {
    before.(remote := before.remote + [RemoteItem(last.key, last.scope, HashOf(last.record, sha))],
            bodies := before.bodies[last.key := BodyOf(last.record)])
  }

  ghost predicate Listed(listings: seq<Listing>) {
    && (forall i :: 0 <= i < |listings| ==>
         Suits(listings[i].record, listings[i].key.kind) && !SpellsEnvelope(listings[i].record))
    && (forall i, j :: 0 <= i < j < |listings| ==> listings[i].key != listings[j].key)
  }

  ghost predicate HasKey(listings: seq<Listing>, key: Key) {
    exists i :: 0 <= i < |listings| && listings[i].key == key
  }

  lemma HasKeyAppend(init: seq<Listing>, last: Listing, key: Key)
    ensures HasKey(init + [last], key) <==> HasKey(init, key) || key == last.key
  {
    var all := init + [last];
    assert all[|init|] == last;
    if i :| 0 <= i < |init| && init[i].key == key {
      assert all[i].key == key;
    }
  }

  /** A fetch lists the records in order and serves a body for exactly their keys. */
  lemma {:induction false} FetchLists(listings: seq<Listing>, agentSkills: map<string, seq<string>>,
                                      sha: string -> string)
    ensures var src := Fetched(listings, agentSkills, sha);
      && |src.remote| == |listings|
      && (forall i :: 0 <= i < |listings| ==> src.remote[i].key == listings[i].key)
      && (forall key :: key in src.bodies <==> HasKey(listings, key))
  {
    hide BodyOf, HashOf;
    if listings != [] {
      hide HasKey;
      var init, last := listings[..|listings| - 1], listings[|listings| - 1];
      FetchLists(init, agentSkills, sha);
      assert listings == init + [last];
      forall key ensures HasKey(listings, key) <==> HasKey(init, key) || key == last.key {
        HasKeyAppend(init, last, key);
      }
    }
  }

  /** A catalog without repeated keys is served with hashes that match its bodies. */
  lemma {:induction false} FetchServes(listings: seq<Listing>, agentSkills: map<string, seq<string>>,
                                       sha: string -> string)
    requires Listed(listings)
    ensures var src := Fetched(listings, agentSkills, sha);
      Serves(src, RecordsOf(listings), sha) && UniqueKeys(src.remote)
  {
    hide BodyOf, HashOf, Suits, SpellsEnvelope, Serves, WithListing;
    FetchLists(listings, agentSkills, sha);
    if listings == [] {
      ServesNothing(agentSkills, sha);
    } else {
      var init, last := listings[..|listings| - 1], listings[|listings| - 1];
      FetchServes(init, agentSkills, sha);
      FetchLists(init, agentSkills, sha);
      assert listings == init + [last];
      assert !HasKey(init, last.key);
      OneMoreServed(Fetched(init, agentSkills, sha), RecordsOf(init), last, sha);
    }
  }

  lemma ServesNothing(agentSkills: map<string, seq<string>>, sha: string -> string)
    ensures Serves(Source([], map[], agentSkills, {}), map[], sha)
  {
  }

  lemma OneMoreServed(before: Source, records: map<Key, Record>, last: Listing, sha: string -> string)
    requires Serves(before, records, sha) && last.key !in before.bodies
    requires Suits(last.record, last.key.kind) && !SpellsEnvelope(last.record)
    ensures Serves(WithListing(before, last, sha), records[last.key := last.record], sha)
  {
    hide BodyOf, HashOf, Suits, SpellsEnvelope;
    var src, all := WithListing(before, last, sha), records[last.key := last.record];
    forall key | key in src.bodies ensures Served(src, all, key) {
      assert key == last.key || (key in before.bodies && Served(before, records, key));
    }
    forall i | 0 <= i < |src.remote| ensures HasHash(src.remote[i], src, all, sha) {
      assert i < |before.remote| ==> HasHash(before.remote[i], before, records, sha);
    }
  }

  /** One key after some pulls: as it was, or newly the record HQ has for it. */
  ghost predicate Grown(before: Tree, after: Tree, records: map<Key, Record>, key: Key) {
    || Find(after, key) == Find(before, key)
    || (Find(before, key) == Nothing && key in records && Find(after, key) == StoredBy(records[key]))
  }

  /** Keys pulled so far; the count is exact, so nothing was pulled twice. */
  ghost predicate Gained(before: Tree, after: Tree, gained: set<Key>) {
    forall key :: key in gained <==> Find(before, key) == Nothing && Find(after, key) != Nothing
  }

  ghost predicate SkillsKnown(user: Tree, run: Run) {
    && (forall name :: Find(run.tree, Key(Skill, name)) != Nothing ==> name in run.present)
    && (run.errors == 0 ==> forall name :: name in run.present ==> HasSkill(user, run.tree, name))
  }

  ghost predicate HasSkill(user: Tree, plus: Tree, name: string) {
    Find(user, Key(Skill, name)) != Nothing || Find(plus, Key(Skill, name)) != Nothing
  }

  ghost predicate RunOk(run: Run, user: Tree, before: Tree, records: map<Key, Record>, gained: set<Key>) {
    && (forall key :: Grown(before, run.tree, records, key))
    && OtherKeys(run.tree.mcp) == OtherKeys(before.mcp)
    && Approved(run.tree.mcp) == Approved(before.mcp) + ServerNames(gained)
    && Gained(before, run.tree, gained) && run.pulled == |gained|
    && SkillsKnown(user, run)
  }

  lemma PullGrows(run: Run, user: Tree, before: Tree, records: map<Key, Record>, gained: set<Key>, key: Key,
                  src: Source)
    requires RunOk(run, user, before, records, gained) && Find(run.tree, key) == Nothing
    requires key in src.bodies ==> Served(src, records, key)
    ensures var next := Pull(run, key, src);
      && (next.pulled == run.pulled ==> next == run.(errors := run.errors + 1))
      && (next.pulled != run.pulled ==>
          && next == run.(tree := next.tree, pulled := run.pulled + 1)
          && Find(next.tree, key) != Nothing
          && RunOk(Noted(next, key).(agents := run.agents), user, before, records, gained + {key}))
  {
    hide Apply, Find, OtherKeys, Approved, ServerNames, BodyOf, SpellsEnvelope, StoredBy;
    if Pull(run, key, src).pulled != run.pulled {
      var body := src.bodies[key];
      var after := Apply(run.tree, key, body).value;
      ApplyApproves(run.tree, key, body);
      ServerNamesGrow(gained, key);
      ApplyStores(run.tree, key, records[key]);
      ApplyKeepsOthers(run.tree, key, body, key);
      forall other ensures other != key ==> Find(after, other) == Find(run.tree, other) {
        ApplyKeepsOthers(run.tree, key, body, other);
      }
      assert Grown(before, run.tree, records, key);
      assert key !in gained;
      forall other ensures Grown(before, after, records, other) {
        assert Grown(before, run.tree, records, other);
      }
    }
  }

  lemma ServerNamesGrow(keys: set<Key>, key: Key)
    ensures ServerNames(keys + {key}) == ServerNames(keys) + ServerNames({key})
    ensures ServerNames({}) == {}
  {
  }

  // ------------------------------------------------------------- the row loop

  /** The keys of the needs_pull rows. */
  function PullKeys(rows: seq<Row>): seq<Key> {
    if rows == [] then []
    else PullKeys(rows[..|rows| - 1]) + if rows[|rows| - 1].drift == NeedsPull then [rows[|rows| - 1].key] else []
  }

  /** Agents whose dependencies a report asks for without pulling them. */
  function PresentAgents(rows: seq<Row>): set<string> {
    if rows == [] then {}
    else
      var row := rows[|rows| - 1];
      PresentAgents(rows[..|rows| - 1])
      + if row.key.kind == Agent && (row.drift == InSync || row.drift == Differs) then {row.key.name} else {}
  }

  /** What the row loop leaves behind. */
  ghost predicate RowsDone(run: Run, rows: seq<Row>, gained: set<Key>) {
    && gained <= Elements(PullKeys(rows))
    && (run.errors == 0 ==> Elements(PullKeys(rows)) <= gained)
    && (run.errors == 0 ==> Elements(run.agents) == PresentAgents(rows) + AgentNames(gained))
  }

  function AgentNames(keys: set<Key>): set<string> { set key | key in keys && key.kind == Agent :: key.name }

  lemma {:induction false} RowsKeepOk(user: Tree, before: Tree, start: Run, rows: seq<Row>, src: Source,
                                      local: seq<Item>, pushes: Key -> bool, records: map<Key, Record>)
    returns (gained: set<Key>)
    requires RunOk(start, user, before, records, {}) && start.tree == before && start.agents == []
    requires Distinct(PullKeys(rows)) && forall key :: key in PullKeys(rows) ==> Find(before, key) == Nothing
    requires forall key :: key in src.bodies ==> Served(src, records, key)
    ensures var run := RowsRun(start, rows, src, local, pushes);
      RunOk(run, user, before, records, gained) && RowsDone(run, rows, gained)
  {
    hide RunOk, Find, Served;
    if rows == [] {
      gained := {};
      assert AgentNames({}) == {};
    } else {
      var init, row := rows[..|rows| - 1], rows[|rows| - 1];
      DistinctFront(rows);
      gained := RowsKeepOk(user, before, start, init, src, local, pushes, records);
      var run := RowsRun(start, init, src, local, pushes);
      gained := RowKeepsOk(user, before, run, init, row, src, local, pushes, records, gained);
      assert rows == init + [row];
    }
  }

  lemma DistinctFront(rows: seq<Row>)
    requires rows != [] && Distinct(PullKeys(rows))
    ensures var init, row := rows[..|rows| - 1], rows[|rows| - 1];
      && Distinct(PullKeys(init)) && (forall key :: key in PullKeys(init) ==> key in PullKeys(rows))
      && (row.drift == NeedsPull ==> row.key in PullKeys(rows) && row.key !in PullKeys(init))
  {
    var init := rows[..|rows| - 1];
    assert PullKeys(init) == PullKeys(rows)[..|PullKeys(init)|];
    if rows[|rows| - 1].drift == NeedsPull {
      assert PullKeys(rows)[|PullKeys(init)|] == rows[|rows| - 1].key;
    }
  }

  lemma RowKeepsOk(user: Tree, before: Tree, run: Run, init: seq<Row>, row: Row, src: Source, local: seq<Item>,
                   pushes: Key -> bool, records: map<Key, Record>, gained: set<Key>) returns (grown: set<Key>)
    requires RunOk(run, user, before, records, gained) && RowsDone(run, init, gained)
    requires row.drift == NeedsPull ==> row.key !in PullKeys(init) && Find(before, row.key) == Nothing
    requires forall key :: key in src.bodies ==> Served(src, records, key)
    ensures var next := RowStep(run, row, src, local, pushes);
      RunOk(next, user, before, records, grown) && RowsDone(next, init + [row], grown)
  {
    hide RunOk, Find, Served, Pull;
    RowsAppend(init, row);
    var next := RowStep(run, row, src, local, pushes);
    grown := gained;
    if row.drift == NeedsPull {
      grown := PullRowKeepsOk(user, before, run, init, row, src, records, gained);
    } else {
      NamesGrow(gained, row.key, run.agents);
      SameTreeKeepsOk(run, next, user, before, records, gained);
    }
  }

  lemma SameTreeKeepsOk(run: Run, next: Run, user: Tree, before: Tree, records: map<Key, Record>, gained: set<Key>)
    requires RunOk(run, user, before, records, gained)
    requires next.tree == run.tree && next.present == run.present && next.pulled == run.pulled
      && next.errors >= run.errors
    ensures RunOk(next, user, before, records, gained)
  {
    hide Grown, OtherKeys, Approved, ServerNames, Gained, Find;
  }

  lemma NotGained(before: Tree, after: Tree, gained: set<Key>, init: seq<Row>, key: Key)
    requires Gained(before, after, gained) && gained <= Elements(PullKeys(init))
    requires key !in PullKeys(init) && Find(before, key) == Nothing
    ensures key !in gained && Find(after, key) == Nothing
  {
    hide Find;
    assert key !in Elements(PullKeys(init));
  }

  lemma PullRowKeepsOk(user: Tree, before: Tree, run: Run, init: seq<Row>, row: Row, src: Source,
                       records: map<Key, Record>, gained: set<Key>) returns (grown: set<Key>)
    requires RunOk(run, user, before, records, gained) && RowsDone(run, init, gained)
    requires row.drift == NeedsPull && row.key !in PullKeys(init) && Find(before, row.key) == Nothing
    requires row.key in src.bodies ==> Served(src, records, row.key)
    ensures var pulled := Pull(run, row.key, src);
      var next := if pulled.pulled == run.pulled then pulled else Noted(pulled, row.key);
      RunOk(next, user, before, records, grown) && RowsDone(next, init + [row], grown)
  {
    grown := PullKeepsOk(user, before, run, init, row.key, src, records, gained);
    PullRowDone(run, Pull(run, row.key, src), init, row, gained);
  }

  lemma PullKeepsOk(user: Tree, before: Tree, run: Run, init: seq<Row>, key: Key, src: Source,
                    records: map<Key, Record>, gained: set<Key>) returns (grown: set<Key>)
    requires RunOk(run, user, before, records, gained) && gained <= Elements(PullKeys(init))
    requires key !in PullKeys(init) && Find(before, key) == Nothing
    requires key in src.bodies ==> Served(src, records, key)
    ensures var pulled := Pull(run, key, src);
      && RunOk(if pulled.pulled == run.pulled then pulled else Noted(pulled, key), user, before, records, grown)
      && (grown == if pulled.pulled == run.pulled then gained else gained + {key})
      && pulled == run.(tree := pulled.tree, pulled := pulled.pulled, errors := pulled.errors)
      && pulled.errors == if pulled.pulled == run.pulled then run.errors + 1 else run.errors
  {
    hide Find, Served, Pull, Grown, OtherKeys, Approved, ServerNames, SkillsKnown, PullKeys, Gained;
    NotGained(before, run.tree, gained, init, key);
    PullGrows(run, user, before, records, gained, key, src);
    grown := gained;
    var pulled := Pull(run, key, src);
    if pulled.pulled != run.pulled {
      grown := gained + {key};
      var next := Noted(pulled, key);
      SameTreeKeepsOk(next.(agents := run.agents), next, user, before, records, grown);
    } else {
      SameTreeKeepsOk(run, pulled, user, before, records, gained);
    }
  }

  lemma PullRowDone(run: Run, pulled: Run, init: seq<Row>, row: Row, gained: set<Key>)
    requires RowsDone(run, init, gained) && row.drift == NeedsPull
    requires pulled.agents == run.agents
    requires pulled.errors == if pulled.pulled == run.pulled then run.errors + 1 else run.errors
    ensures if pulled.pulled == run.pulled then RowsDone(pulled, init + [row], gained)
            else RowsDone(Noted(pulled, row.key), init + [row], gained + {row.key})
  {
    hide PullKeys, PresentAgents, AgentNames;
    RowsAppend(init, row);
    NamesGrow(gained, row.key, run.agents);
  }

  lemma NamesGrow(keys: set<Key>, key: Key, agents: seq<string>)
    ensures AgentNames(keys + {key}) == AgentNames(keys) + if key.kind == Agent then {key.name} else {}
    ensures Elements(agents + [key.name]) == Elements(agents) + {key.name}
  {
  }

  lemma RowsAppend(init: seq<Row>, row: Row)
    ensures Elements(PullKeys(init + [row]))
         == Elements(PullKeys(init)) + if row.drift == NeedsPull then {row.key} else {}
    ensures PresentAgents(init + [row]) == PresentAgents(init)
      + if row.key.kind == Agent && (row.drift == InSync || row.drift == Differs) then {row.key.name} else {}
  {
    assert (init + [row])[..|init|] == init;
  }

  // ------------------------------------------------------- the dependency loop

  lemma {:induction false} DepsKeepOk(user: Tree, before: Tree, start: Run, skills: seq<string>, src: Source,
                                      records: map<Key, Record>, gained: set<Key>) returns (grown: set<Key>)
    requires RunOk(start, user, before, records, gained)
    requires forall key :: key in src.bodies ==> Served(src, records, key)
    ensures var run := DepsRun(start, skills, src);
      && RunOk(run, user, before, records, grown) && gained <= grown
      && run.agents == start.agents && run.errors >= start.errors && start.present <= run.present
      && forall skill :: skill in skills && skill != "" ==> skill in run.present
  {
    hide RunOk, Served, DepStep;
    grown := gained;
    if skills != [] {
      var init, last := skills[..|skills| - 1], skills[|skills| - 1];
      grown := DepsKeepOk(user, before, start, init, src, records, gained);
      grown := DepKeepsOk(user, before, DepsRun(start, init, src), last, src, records, grown);
      assert forall skill :: skill in skills ==> skill in init || skill == last;
    }
  }

  lemma DepKeepsOk(user: Tree, before: Tree, run: Run, skill: string, src: Source,
                   records: map<Key, Record>, gained: set<Key>) returns (grown: set<Key>)
    requires RunOk(run, user, before, records, gained)
    requires forall key :: key in src.bodies ==> Served(src, records, key)
    ensures var next := DepStep(run, skill, src);
      && RunOk(next, user, before, records, grown) && gained <= grown
      && next.agents == run.agents && next.errors >= run.errors && run.present <= next.present
      && (skill != "" ==> skill in next.present)
  {
    hide Find, Served, Pull, Grown, OtherKeys, Approved, ServerNames, Gained;
    grown := gained;
    if skill != "" && skill !in run.present {
      var key := Key(Skill, skill);
      assert Find(run.tree, key) == Nothing;
      PullGrows(run, user, before, records, gained, key, src);
      if Pull(run, key, src).pulled != run.pulled {
        grown := gained + {key};
      }
    }
  }

  // -------------------------------------------------------------------- theorems

  lemma {:induction false} LocalRowsPullNothing(local: seq<Item>, remote: seq<RemoteItem>)
    ensures PullKeys(LocalRows(local, remote)) == []
  {
    if local != [] {
      LocalRowsPullNothing(local[..|local| - 1], remote);
    }
  }

  lemma {:induction false} PullKeysAppend(a: seq<Row>, b: seq<Row>)
    ensures PullKeys(a + b) == PullKeys(a) + PullKeys(b)
    ensures PresentAgents(a + b) == PresentAgents(a) + PresentAgents(b)
  {
    if b == [] {
      assert a + b == a;
    } else {
      assert (a + b)[..|a + b| - 1] == a + b[..|b| - 1];
      PullKeysAppend(a, b[..|b| - 1]);
    }
  }

  function RemoteKeys(remote: seq<RemoteItem>): set<Key> { set r | r in remote :: r.key }

  ghost predicate UniqueKeys(remote: seq<RemoteItem>) {
    forall i, j :: 0 <= i < j < |remote| ==> remote[i].key != remote[j].key
  }

  lemma RemoteKeysAppend(init: seq<RemoteItem>, r: RemoteItem)
    ensures RemoteKeys(init + [r]) == RemoteKeys(init) + {r.key}
  {
  }

  // How one more remote item changes what is pulled.
  lemma PullRowsGrow(init: seq<RemoteItem>, r: RemoteItem, seen: set<Key>)
    ensures var rows, more := PullRows(init, seen), PullRows(init + [r], seen);
      && PullKeys(more) == PullKeys(rows) + (if r.key in seen then [] else [r.key])
      && PresentAgents(more) == PresentAgents(rows)
      && more == rows + if r.key in seen then [] else [Row(r.key, NeedsPull, r.scope)]
  {
    assert (init + [r])[..|init|] == init;
    var rows, row := PullRows(init, seen), Row(r.key, NeedsPull, r.scope);
    var more := PullRows(init + [r], seen);
    if r.key in seen {
      assert more == rows;
    } else {
      assert more == rows + [row];
      RowsOneMore(rows, row);
    }
  }

  lemma RowsOneMore(rows: seq<Row>, row: Row)
    requires row.drift == NeedsPull
    ensures PullKeys(rows + [row]) == PullKeys(rows) + [row.key] && PresentAgents(rows + [row]) == PresentAgents(rows)
  {
    assert (rows + [row])[..|rows|] == rows;
  }

  lemma GrowElements(keys: seq<Key>, key: Key, all: set<Key>, seen: set<Key>)
    requires Elements(keys) == all - seen
    ensures Elements(keys + if key in seen then [] else [key]) == all + {key} - seen
  {
    if key in seen {
      assert keys + [] == keys;
    } else {
      assert Elements(keys + [key]) == Elements(keys) + {key};
    }
  }

  lemma {:induction false} PullRowKeys(remote: seq<RemoteItem>, seen: set<Key>)
    ensures Elements(PullKeys(PullRows(remote, seen))) == RemoteKeys(remote) - seen
    ensures PresentAgents(PullRows(remote, seen)) == {}
    ensures PullRows(remote, seen) == [] <==> RemoteKeys(remote) <= seen
    ensures forall row :: row in PullRows(remote, seen) ==> row.drift == NeedsPull
  {
    if remote != [] {
      var init, last := remote[..|remote| - 1], remote[|remote| - 1];
      PullRowKeys(init, seen);
      PullRowsGrow(init, last, seen);
      RemoteKeysAppend(init, last);
      assert remote == init + [last];
      GrowElements(PullKeys(PullRows(init, seen)), last.key, RemoteKeys(init), seen);
    }
  }

  lemma {:induction false} PullRowsDistinct(remote: seq<RemoteItem>, seen: set<Key>)
    requires UniqueKeys(remote)
    ensures Distinct(PullKeys(PullRows(remote, seen)))
  {
    if remote != [] {
      var init, last := remote[..|remote| - 1], remote[|remote| - 1];
      PullRowsDistinct(init, seen);
      LastKeyNew(remote);
      PullRowKeys(init, seen);
      PullRowsGrow(init, last, seen);
      assert remote == init + [last];
      NewKeyDistinct(PullKeys(PullRows(init, seen)), last.key, seen);
    }
  }

  lemma NewKeyDistinct(keys: seq<Key>, key: Key, seen: set<Key>)
    requires Distinct(keys) && key !in Elements(keys)
    ensures Distinct(keys + if key in seen then [] else [key])
  {
    DistinctAppend(keys, if key in seen then [] else [key]);
  }

  lemma LastKeyNew(remote: seq<RemoteItem>)
    requires UniqueKeys(remote) && remote != []
    ensures remote[|remote| - 1].key !in RemoteKeys(remote[..|remote| - 1])
  {
  }

  /** A report has one row per local item, in their order: error for a malformed one, and otherwise how HQ's item
      under the key, if any, compares. */
  lemma LocalRowSpelled(local: seq<Item>, remote: seq<RemoteItem>, i: nat)
    requires i < |local| && UniqueKeys(remote)
    ensures i < |DiffRows(local, remote)|
    ensures var row, item := DiffRows(local, remote)[i], local[i];
      && row.key == item.key
      && (item.err ==> row.drift == Error && row.scope == "")
      && (!item.err && (forall r :: r in remote ==> r.key != item.key) ==> row.drift == NeedsPush && row.scope == "")
      && (forall r :: r in remote && r.key == item.key && !item.err ==>
           row.drift == (if r.hash == item.hash then InSync else Differs) && row.scope == r.scope)
  {
    LocalRowsAt(local, remote, i);
    hide LocalRows, PullRows, KeysOf, RemoteAt;
    RemoteAtUnique(remote, local[i].key);
  }

  /** Every row after those is a remote item to pull whose key is not local. */
  lemma PullRowSpelled(local: seq<Item>, remote: seq<RemoteItem>, j: nat)
    requires |local| <= j < |DiffRows(local, remote)|
    ensures var row := DiffRows(local, remote)[j];
      row.key !in KeysOf(local) && exists r :: r in remote && row == Row(r.key, NeedsPull, r.scope)
  {
    LocalRowsAt(local, remote, 0);
    PullRowsFrom(remote, KeysOf(local));
    hide LocalRows, PullRows, KeysOf;
    assert DiffRows(local, remote)[j] == PullRows(remote, KeysOf(local))[j - |local|];
  }

  lemma {:induction false} LocalRowsAt(local: seq<Item>, remote: seq<RemoteItem>, i: nat)
    ensures |LocalRows(local, remote)| == |local|
    ensures i < |local| ==> LocalRows(local, remote)[i] == LocalRow(local[i], remote)
  {
    if local != [] {
      LocalRowsAt(local[..|local| - 1], remote, i);
    }
  }

  lemma {:induction false} PullRowsFrom(remote: seq<RemoteItem>, seen: set<Key>)
    ensures forall row :: row in PullRows(remote, seen) ==>
      row.key !in seen && exists r :: r in remote && row == Row(r.key, NeedsPull, r.scope)
  {
    if remote != [] {
      PullRowsFrom(remote[..|remote| - 1], seen);
    }
  }

  lemma {:induction false} RemoteAtUnique(remote: seq<RemoteItem>, key: Key)
    requires UniqueKeys(remote)
    ensures forall r :: r in remote && r.key == key ==> RemoteAt(remote, key) == Some(r)
    ensures (forall r :: r in remote ==> r.key != key) ==> RemoteAt(remote, key) == None
  {
    if remote != [] {
      var init, last := remote[..|remote| - 1], remote[|remote| - 1];
      RemoteAtUnique(init, key);
      LastKeyNew(remote);
      assert forall r :: r in remote <==> r in init || r == last;
      assert forall r :: r in init ==> r.key in RemoteKeys(init);
    }
  }

  /** A report asks to pull exactly the remote keys that are not local, each once. */
  lemma DiffPulls(local: seq<Item>, remote: seq<RemoteItem>)
    ensures Elements(PullKeys(DiffRows(local, remote))) == RemoteKeys(remote) - KeysOf(local)
    ensures UniqueKeys(remote) ==> Distinct(PullKeys(DiffRows(local, remote)))
    ensures PresentAgents(DiffRows(local, remote)) == PresentAgents(LocalRows(local, remote))
  {
    hide PullKeys, PullRows, LocalRows, RemoteKeys, KeysOf, PresentAgents;
    LocalRowsPullNothing(local, remote);
    PullRowKeys(remote, KeysOf(local));
    if UniqueKeys(remote) {
      PullRowsDistinct(remote, KeysOf(local));
    }
    var pulls := PullKeys(PullRows(remote, KeysOf(local)));
    PullKeysAppend(LocalRows(local, remote), PullRows(remote, KeysOf(local)));
    assert [] + pulls == pulls;
  }

  /** A report is clean exactly when both sides hold the same definitions. */
  lemma {:induction false} InSyncIff(local: seq<Item>, remote: seq<RemoteItem>)
    ensures (forall row :: row in DiffRows(local, remote) ==> row.drift == InSync)
      <==> (forall item :: item in local ==> Matches(item, remote)) && RemoteKeys(remote) <= KeysOf(local)
  {
    hide LocalRows, LocalRow, PullRows, KeysOf, RemoteKeys, PullKeys, Matches;
    LocalRowsIn(local, remote);
    forall item: Item ensures LocalRow(item, remote).drift == InSync <==> Matches(item, remote) {
      InSyncMatches(item, remote);
    }
    PullRowKeys(remote, KeysOf(local));
    var locals, pulls := LocalRows(local, remote), PullRows(remote, KeysOf(local));
    assert forall row :: row in locals + pulls <==> row in locals || row in pulls;
    if pulls != [] {
      assert pulls[0] in pulls;
    }
    if forall row :: row in locals ==> row.drift == InSync {
      forall item | item in local ensures Matches(item, remote) {
        assert LocalRow(item, remote) in locals;
      }
    }
  }

  /** A well-formed item that HQ serves under the same key with the same hash. */
  predicate Matches(item: Item, remote: seq<RemoteItem>) {
    !item.err && RemoteAt(remote, item.key).Some? && RemoteAt(remote, item.key).value.hash == item.hash
  }

  lemma InSyncMatches(item: Item, remote: seq<RemoteItem>)
    ensures LocalRow(item, remote).drift == InSync <==> Matches(item, remote)
  {
  }

  lemma {:induction false} LocalRowsIn(local: seq<Item>, remote: seq<RemoteItem>)
    ensures forall item :: item in local ==> LocalRow(item, remote) in LocalRows(local, remote)
    ensures forall row :: row in LocalRows(local, remote) ==>
      exists item :: item in local && row == LocalRow(item, remote)
  {
    if local != [] {
      LocalRowsIn(local[..|local| - 1], remote);
    }
  }

  /** A root, a user's own tree, a fetch, and a scan of both trees. */
  ghost predicate Ready(user: Tree, plus: Tree, src: Source, records: map<Key, Record>, sha: string -> string,
                        local: seq<Item>)
  {
    Lists(local, user, plus, sha) && Serves(src, records, sha) && UniqueKeys(src.remote)
  }

  lemma LocalKeysAre(user: Tree, plus: Tree, sha: string -> string, local: seq<Item>, key: Key)
    requires Lists(local, user, plus, sha)
    ensures key in KeysOf(local) <==> Find(user, key) != Nothing || Find(plus, key) != Nothing
  {
    hide OfKey, KeysOf;
    KeysOfItems(local, key);
    StoredHasItems(user, key, sha);
    StoredHasItems(plus, key, sha);
    assert OfKey(local, key) == LocalAt(user, plus, key, sha);
  }

  lemma StoredHasItems(tree: Tree, key: Key, sha: string -> string)
    ensures ItemsOf(key, Find(tree, key), sha) == [] <==> Find(tree, key) == Nothing
  {
    hide DirItem, HashBasis, Blank, ValidJson, Json.Print;
  }

  lemma {:induction false} SkillNamesAre(local: seq<Item>, name: string)
    ensures name in SkillNames(local) <==> Key(Skill, name) in KeysOf(local)
  {
    if local != [] {
      SkillNamesAre(local[..|local| - 1], name);
    }
  }

  lemma StartOk(user: Tree, plus: Tree, src: Source, records: map<Key, Record>, sha: string -> string, local: seq<Item>)
    requires Ready(user, plus, src, records, sha, local)
    ensures RunOk(Start(plus, local), user, plus, records, {})
  {
    hide Lists, Serves, Find, KeysOf, SkillNames, OtherKeys, Approved, ServerNames, UniqueKeys;
    ServerNamesGrow({}, Key(Server, ""));
    forall name ensures name in SkillNames(local) <==> HasSkill(user, plus, name) {
      LocalKeysAre(user, plus, sha, local, Key(Skill, name));
      SkillNamesAre(local, name);
    }
  }

  /** The state after the row loop and after the whole run. */
  lemma RunEnds(user: Tree, plus: Tree, src: Source, records: map<Key, Record>, sha: string -> string,
                local: seq<Item>, pushes: Key -> bool) returns (rowed: Run, pulled: set<Key>, gained: set<Key>)
    requires Ready(user, plus, src, records, sha, local)
    ensures var rows := DiffRows(local, src.remote); var run := Reconciled(plus, rows, src, local, pushes);
      && RunOk(run, user, plus, records, gained)
      && RowsDone(rowed, rows, pulled) && pulled <= gained && run.errors >= rowed.errors
      && forall skill :: skill in DepList(rowed.agents, src) && skill != "" ==> skill in run.present
  {
    hide RunOk, RowsDone, Find, Served, HasHash, DiffRows, RowsRun, DepsRun, DepList, KeysOf, PullKeys;
    var rows := DiffRows(local, src.remote);
    StartOk(user, plus, src, records, sha, local);
    DiffPulls(local, src.remote);
    forall key | key in PullKeys(rows) ensures Find(plus, key) == Nothing {
      assert key in Elements(PullKeys(rows));
      LocalKeysAre(user, plus, sha, local, key);
    }
    pulled := RowsKeepOk(user, plus, Start(plus, local), rows, src, local, pushes, records);
    rowed := RowsRun(Start(plus, local), rows, src, local, pushes);
    gained := DepsKeepOk(user, plus, rowed, DepList(rowed.agents, src), src, records, pulled);
  }

  /** A reconcile of a fresh report. Whatever fails, every definition already present and every other
      top-level key stays as it was, only HQ's records are added, the approved servers are those approved
      before and the pulled ones, and the pull count is the number of keys added, so a dependency shared
      by several agents is pulled once. */
  lemma ReconcileOnlyAdds(user: Tree, plus: Tree, src: Source, records: map<Key, Record>, sha: string -> string,
                          local: seq<Item>, pushes: Key -> bool) returns (gained: set<Key>)
    requires Ready(user, plus, src, records, sha, local)
    ensures var run := Reconciled(plus, DiffRows(local, src.remote), src, local, pushes);
      && (forall key :: Grown(plus, run.tree, records, key))
      && OtherKeys(run.tree.mcp) == OtherKeys(plus.mcp)
      && Approved(run.tree.mcp) == Approved(plus.mcp) + ServerNames(gained)
      && Gained(plus, run.tree, gained) && run.pulled == |gained|
  {
    hide Ready, Reconciled, DiffRows, Grown, Gained, SkillsKnown, OtherKeys, Approved, ServerNames, DepList, RowsDone;
    var rowed, pulled;
    rowed, pulled, gained := RunEnds(user, plus, src, records, sha, local, pushes);
  }

  /** Without errors every remote definition that was not local now is, and reads back clean with HQ's
      hash unless its definition is empty; every local one reads back as before. */
  lemma ReconcileConverges(user: Tree, plus: Tree, src: Source, records: map<Key, Record>, sha: string -> string,
                           local: seq<Item>, pushes: Key -> bool, key: Key)
    requires Ready(user, plus, src, records, sha, local)
    requires Reconciled(plus, DiffRows(local, src.remote), src, local, pushes).errors == 0
    ensures var after := Reconciled(plus, DiffRows(local, src.remote), src, local, pushes).tree;
      && (key in KeysOf(local) ==> LocalAt(user, after, key, sha) == LocalAt(user, plus, key, sha))
      && forall r :: r in src.remote && r.key == key && key !in KeysOf(local) ==>
           && key in records
           && (LocalAt(user, after, key, sha) == [Item(key, r.hash, false)] <==> Whole(records[key], key.kind))
  {
    hide Reconciled, DiffRows, ItemsOf, Find, KeysOf, DepList, SkillsKnown, OtherKeys, Approved, ServerNames,
      PullKeys, RemoteKeys, Lists, Served, UniqueKeys, StoredBy, PresentAgents, AgentNames, HashOf, Suits;
    var rowed, pulled, gained := RunEnds(user, plus, src, records, sha, local, pushes);
    var run := Reconciled(plus, DiffRows(local, src.remote), src, local, pushes);
    LocalKeysAre(user, plus, sha, local, key);
    assert Grown(plus, run.tree, records, key);
    forall r | r in src.remote && r.key == key && key !in KeysOf(local)
      ensures key in records
      ensures LocalAt(user, run.tree, key, sha) == [Item(key, r.hash, false)] <==> Whole(records[key], key.kind)
    {
      assert key in pulled by {
        DiffPulls(local, src.remote);
        RemoteKeysHas(src.remote, r);
      }
      assert HasHash(r, src, records, sha);
      SuitsRecord(src, records, key);
      ParityIffWhole(records[key], key, sha);
    }
  }

  lemma SuitsRecord(src: Source, records: map<Key, Record>, key: Key)
    requires key in src.bodies && Served(src, records, key)
    ensures key in records && Suits(records[key], key.kind)
  {
  }

  lemma RemoteKeysHas(remote: seq<RemoteItem>, r: RemoteItem)
    requires r in remote
    ensures r.key in RemoteKeys(remote)
  {
  }

  // ------------------------------------------------------------------- the counts

  /** A pull of the key stores something: HQ has a body for it, writing works, and a server's body is an entry
      for a document that can be read. */
  ghost predicate Lands(tree: Tree, key: Key, src: Source) {
    && key in src.bodies && key !in src.faults
    && (key.kind == Server ==> tree.mcp.Doc? && DecodeEntry(src.bodies[key]).Some?)
  }

  ghost predicate HasItem(local: seq<Item>, key: Key) { exists item :: item in local && item.key == key }

  /** What becomes of a row. */
  datatype Fate = Pulled | PullFailed | Pushed | PushFailed | LeftAlone

  ghost function FateOf(row: Row, tree: Tree, src: Source, local: seq<Item>, pushes: Key -> bool): Fate {
    if row.drift == NeedsPull then (if Lands(tree, row.key, src) then Pulled else PullFailed)
    else if row.drift == NeedsPush && HasItem(local, row.key) then (if pushes(row.key) then Pushed else PushFailed)
    else LeftAlone
  }

  /** The positions of the rows with a fate. */
  ghost function Fated(rows: seq<Row>, fate: Fate, tree: Tree, src: Source, local: seq<Item>, pushes: Key -> bool)
    : set<nat>
  {
    set i | 0 <= i < |rows| && FateOf(rows[i], tree, src, local, pushes) == fate
  }

  /** The keys the rows pull. */
  ghost function Landed(rows: seq<Row>, tree: Tree, src: Source): set<Key> {
    set row | row in rows && row.drift == NeedsPull && Lands(tree, row.key, src) :: row.key
  }

  /** The agents that are there after the rows: in sync, edited, or pulled. */
  ghost function AgentsNow(rows: seq<Row>, tree: Tree, src: Source): set<string> {
    set row | row in rows && row.key.kind == Agent
      && (row.drift == InSync || row.drift == Differs || (row.drift == NeedsPull && Lands(tree, row.key, src)))
      :: row.key.name
  }

  /** The skills those agents depend on that are neither local nor just pulled, each once. */
  ghost function MissingDeps(rows: seq<Row>, tree: Tree, src: Source, local: seq<Item>): set<string> {
    set agent, skill | agent in AgentsNow(rows, tree, src) && agent in src.agentSkills
      && skill in src.agentSkills[agent] && skill != ""
      && !HasItem(local, Key(Skill, skill)) && Key(Skill, skill) !in Landed(rows, tree, src) :: skill
  }

  /** What a run of any rows counts and touches. A row is pulled or pushed or fails to; a missing dependency is
      tried once however many agents ask for it; and the keys that were stored are the only ones that move. */
  lemma ReconcileCounts(tree: Tree, rows: seq<Row>, src: Source, local: seq<Item>, pushes: Key -> bool)
    ensures var run := Reconciled(tree, rows, src, local, pushes);
      var deps := MissingDeps(rows, tree, src, local);
      var found := set skill | skill in deps && Lands(tree, Key(Skill, skill), src);
      && run.pulled == |Fated(rows, Pulled, tree, src, local, pushes)| + |found|
      && run.pushed == |Fated(rows, Pushed, tree, src, local, pushes)|
      && run.errors == |Fated(rows, PullFailed, tree, src, local, pushes)|
                       + |Fated(rows, PushFailed, tree, src, local, pushes)| + |deps - found|
      && (forall key :: key in Landed(rows, tree, src) || (key.kind == Skill && key.name in found) ==>
           Find(run.tree, key) != Nothing)
      && (forall key :: key !in Landed(rows, tree, src) && !(key.kind == Skill && key.name in found) ==>
           Find(run.tree, key) == Find(tree, key))
  {
    hide RowsRun, DepsRun, Fated, Landed, AgentsNow, MissingDeps, DepList, Find, Lands, SkillNames, HasItem;
    var rowed := RowsRun(Start(tree, local), rows, src, local, pushes);
    RowsCounted(tree, rows, src, local, pushes);
    var skills := DepList(rowed.agents, src);
    DepsCounted(tree, rowed, skills, src, Landed(rows, tree, src));
    AskedAreMissing(rows, tree, src, local, rowed.agents, rowed.present);
  }

  /** Where the row loop stands. */
  ghost predicate Counts(run: Run, tree: Tree, rows: seq<Row>, src: Source, local: seq<Item>, pushes: Key -> bool) {
    && run.pulled == |Fated(rows, Pulled, tree, src, local, pushes)|
    && run.pushed == |Fated(rows, Pushed, tree, src, local, pushes)|
    && run.errors == |Fated(rows, PullFailed, tree, src, local, pushes)|
                     + |Fated(rows, PushFailed, tree, src, local, pushes)|
    && Elements(run.agents) == AgentsNow(rows, tree, src)
    && (forall name :: name in run.present <==>
         HasItem(local, Key(Skill, name)) || Key(Skill, name) in Landed(rows, tree, src))
    && Touches(tree, run.tree, Landed(rows, tree, src))
  }

  /** The stored keys are there, every other key is as it was, and the document is as readable as before. */
  ghost predicate Touches(before: Tree, after: Tree, stored: set<Key>) {
    && (forall key :: if key in stored then Find(after, key) != Nothing else Find(after, key) == Find(before, key))
    && after.mcp.Doc? == before.mcp.Doc?
  }

  lemma {:induction false} RowsCounted(tree: Tree, rows: seq<Row>, src: Source, local: seq<Item>, pushes: Key -> bool)
    ensures Counts(RowsRun(Start(tree, local), rows, src, local, pushes), tree, rows, src, local, pushes)
  {
    if rows == [] {
      NothingCounted(tree, src, local, pushes);
    } else {
      hide Counts, RowStep, Start;
      var init, row := rows[..|rows| - 1], rows[|rows| - 1];
      RowsCounted(tree, init, src, local, pushes);
      assert rows == init + [row];
      RowCounted(RowsRun(Start(tree, local), init, src, local, pushes), tree, init, row, src, local, pushes);
    }
  }

  lemma NothingCounted(tree: Tree, src: Source, local: seq<Item>, pushes: Key -> bool)
    ensures Counts(Start(tree, local), tree, [], src, local, pushes)
  {
    hide Find, Lands, HasItem;
    var none: seq<string> := [];
    assert Elements(none) == {};
    forall name ensures name in SkillNames(local) <==> HasItem(local, Key(Skill, name)) {
      SkillNamesAre(local, name);
      KeysOfHas(local, Key(Skill, name));
    }
  }

  lemma {:induction false} KeysOfHas(local: seq<Item>, key: Key)
    ensures key in KeysOf(local) <==> HasItem(local, key)
  {
    if local != [] {
      var init, last := local[..|local| - 1], local[|local| - 1];
      KeysOfHas(init, key);
      assert local == init + [last];
      assert forall item :: item in local <==> item in init || item == last;
    }
  }

  lemma RowCounted(run: Run, tree: Tree, init: seq<Row>, row: Row, src: Source, local: seq<Item>,
                   pushes: Key -> bool)
    requires Counts(run, tree, init, src, local, pushes)
    ensures Counts(RowStep(run, row, src, local, pushes), tree, init + [row], src, local, pushes)
  {
    hide Find, Lands, HasItem, KeysOf, Fated, Landed, AgentsNow, Pull, Touches, FateOf;
    OneMoreFated(init, row, Pulled, tree, src, local, pushes);
    OneMoreFated(init, row, PullFailed, tree, src, local, pushes);
    OneMoreFated(init, row, Pushed, tree, src, local, pushes);
    OneMoreFated(init, row, PushFailed, tree, src, local, pushes);
    OneMoreLanded(init, row, tree, src);
    NamesGrow({}, row.key, run.agents);
    KeysOfHas(local, row.key);
    RowFate(row, tree, src, local, pushes);
    if row.drift == NeedsPull {
      PullLands(run, tree, row.key, src, Landed(init, tree, src));
    }
  }

  lemma RowFate(row: Row, tree: Tree, src: Source, local: seq<Item>, pushes: Key -> bool)
    ensures FateOf(row, tree, src, local, pushes) ==
      match row.drift
      case NeedsPull => if Lands(tree, row.key, src) then Pulled else PullFailed
      case NeedsPush => if !HasItem(local, row.key) then LeftAlone else if pushes(row.key) then Pushed else PushFailed
      case _ => LeftAlone
  {
    hide Lands, HasItem;
  }

  lemma OneMoreFated(init: seq<Row>, row: Row, fate: Fate, tree: Tree, src: Source, local: seq<Item>,
                     pushes: Key -> bool)
    ensures |Fated(init + [row], fate, tree, src, local, pushes)| == |Fated(init, fate, tree, src, local, pushes)|
      + if FateOf(row, tree, src, local, pushes) == fate then 1 else 0
  {
    hide FateOf;
    var before := Fated(init, fate, tree, src, local, pushes);
    var after := Fated(init + [row], fate, tree, src, local, pushes);
    if FateOf(row, tree, src, local, pushes) == fate {
      assert after == before + {|init|};
    } else {
      assert after == before;
    }
  }

  lemma OneMoreLanded(init: seq<Row>, row: Row, tree: Tree, src: Source)
    ensures Landed(init + [row], tree, src)
      == if row.drift == NeedsPull && Lands(tree, row.key, src)
         then Landed(init, tree, src) + {row.key} else Landed(init, tree, src)
    ensures AgentsNow(init + [row], tree, src) == AgentsNow(init, tree, src)
      + if row.key.kind == Agent
           && (row.drift == InSync || row.drift == Differs || (row.drift == NeedsPull && Lands(tree, row.key, src)))
        then {row.key.name} else {}
  {
    hide Lands;
    assert forall r :: r in init + [row] <==> r in init || r == row;
  }

  /** A pull stores its key exactly when it lands, however far the run has come. */
  lemma PullLands(run: Run, tree: Tree, key: Key, src: Source, stored: set<Key>)
    requires Touches(tree, run.tree, stored)
    ensures if Lands(tree, key, src)
      then Pull(run, key, src) == run.(tree := Pull(run, key, src).tree, pulled := run.pulled + 1)
           && Touches(tree, Pull(run, key, src).tree, stored + {key})
      else Pull(run, key, src) == run.(errors := run.errors + 1)
  {
    hide Find, DecodeEntry, SkillFiles.Decode, Mcp.Enabled, Mcp.EntryValue;
    if Lands(tree, key, src) {
      var body := src.bodies[key];
      assert Apply(run.tree, key, body).Some?;
      var after := Apply(run.tree, key, body).value;
      assert after.mcp.Doc? == run.tree.mcp.Doc?;
      ApplyKeepsOthers(run.tree, key, body, key);
      forall other | other != key ensures Find(after, other) == Find(run.tree, other) {
        ApplyKeepsOthers(run.tree, key, body, other);
      }
    }
  }

  /** The skills of a list that are not present yet. */
  ghost function Asked(skills: seq<string>, present: set<string>): set<string> {
    set skill | skill in skills && skill != "" && skill !in present
  }

  ghost function Finds(asked: set<string>, tree: Tree, src: Source): set<string> {
    set skill | skill in asked && Lands(tree, Key(Skill, skill), src)
  }

  function SkillKeys(names: set<string>): set<Key> { set name | name in names :: Key(Skill, name) }

  lemma {:induction false} DepsCounted(tree: Tree, start: Run, skills: seq<string>, src: Source, stored: set<Key>)
    requires Touches(tree, start.tree, stored)
    ensures var run, asked := DepsRun(start, skills, src), Asked(skills, start.present);
      && run.pulled == start.pulled + |Finds(asked, tree, src)| && run.pushed == start.pushed
      && run.errors == start.errors + |asked - Finds(asked, tree, src)|
      && run.present == start.present + asked
      && Touches(tree, run.tree, stored + SkillKeys(Finds(asked, tree, src)))
  {
    DepsStart(start, src);
    if skills == [] {
      NothingAsked(tree, start, src, stored);
    } else {
      hide Touches, Lands, Pull, DepStep, DepsRun, Asked, Finds, SkillKeys;
      var init, last := skills[..|skills| - 1], skills[|skills| - 1];
      DepsCounted(tree, start, init, src, stored);
      assert skills == init + [last];
      DepsRunStep(start, init, last, src);
      OneMoreAsked(init, last, start.present, tree, src);
      var asked := Asked(init, start.present);
      DepCounted(DepsRun(start, init, src), last, src, tree, stored + SkillKeys(Finds(asked, tree, src)));
      OneMoreOfEach(start.present, asked, last, stored, SkillKeys(Finds(asked, tree, src)), Key(Skill, last));
    }
  }

  lemma OneMoreOfEach(present: set<string>, asked: set<string>, skill: string, stored: set<Key>, keys: set<Key>,
                      key: Key)
    ensures present + (asked + {skill}) == (present + asked) + {skill}
    ensures stored + (keys + {key}) == (stored + keys) + {key}
  {
  }

  lemma NothingAsked(tree: Tree, start: Run, src: Source, stored: set<Key>)
    ensures Asked([], start.present) == {} && Finds({}, tree, src) == {} && SkillKeys({}) == {}
    ensures start.present + {} == start.present && stored + {} == stored
  {
  }

  lemma OneMoreAsked(init: seq<string>, last: string, present: set<string>, tree: Tree, src: Source)
    ensures var before, after := Asked(init, present), Asked(init + [last], present);
      var (found, finds) := (Finds(before, tree, src), Finds(after, tree, src));
      if last == "" || last in present + before then after == before
      else
        && after == before + {last} && last !in before && last !in found
        && finds == (if Lands(tree, Key(Skill, last), src) then found + {last} else found)
        && |after - finds| == |before - found| + (if Lands(tree, Key(Skill, last), src) then 0 else 1)
        && SkillKeys(found + {last}) == SkillKeys(found) + {Key(Skill, last)}
  {
    hide Lands;
    var before, after := Asked(init, present), Asked(init + [last], present);
    assert forall s :: s in init + [last] <==> s in init || s == last;
    if last == "" || last in present + before {
      assert after == before;
    } else {
      assert after == before + {last};
      hide Asked;
      OneMoreFound(before, last, tree, src);
    }
  }

  lemma OneMoreFound(before: set<string>, last: string, tree: Tree, src: Source)
    requires last !in before
    ensures var (found, finds) := (Finds(before, tree, src), Finds(before + {last}, tree, src));
      && last !in found
      && finds == (if Lands(tree, Key(Skill, last), src) then found + {last} else found)
      && |(before + {last}) - finds| == |before - found| + (if Lands(tree, Key(Skill, last), src) then 0 else 1)
      && SkillKeys(found + {last}) == SkillKeys(found) + {Key(Skill, last)}
  {
    hide Lands;
    var (found, finds) := (Finds(before, tree, src), Finds(before + {last}, tree, src));
    if Lands(tree, Key(Skill, last), src) {
      assert finds == found + {last};
      assert (before + {last}) - finds == before - found;
    } else {
      assert finds == found;
      assert (before + {last}) - finds == (before - found) + {last};
    }
  }

  lemma DepCounted(run: Run, skill: string, src: Source, tree: Tree, stored: set<Key>)
    requires Touches(tree, run.tree, stored)
    ensures var next, key := DepStep(run, skill, src), Key(Skill, skill);
      && next.pushed == run.pushed
      && if skill == "" || skill in run.present then next == run
         else
           && next.present == run.present + {skill}
           && next.pulled == run.pulled + (if Lands(tree, key, src) then 1 else 0)
           && next.errors == run.errors + (if Lands(tree, key, src) then 0 else 1)
           && Touches(tree, next.tree, if Lands(tree, key, src) then stored + {key} else stored)
  {
    hide Touches, Lands, Pull;
    PullLands(run, tree, Key(Skill, skill), src, stored);
  }

  lemma AskedAreMissing(rows: seq<Row>, tree: Tree, src: Source, local: seq<Item>, agents: seq<string>,
                        present: set<string>)
    requires Elements(agents) == AgentsNow(rows, tree, src)
    requires forall name :: name in present <==>
      HasItem(local, Key(Skill, name)) || Key(Skill, name) in Landed(rows, tree, src)
    ensures Asked(DepList(agents, src), present) == MissingDeps(rows, tree, src, local)
  {
    hide AgentsNow, Landed, HasItem, DepList;
    assert forall agent :: agent in agents <==> agent in AgentsNow(rows, tree, src);
    forall skill
      ensures skill in Asked(DepList(agents, src), present) <==> skill in MissingDeps(rows, tree, src, local)
    {
      DepListIs(agents, src, skill);
    }
  }

  /** What a fresh report's run leaves under every key, whatever fails: HQ's record under each key that was
      pulled or found as a dependency, all of them free before, and under every other key what was there. */
  lemma ReconcileExactly(user: Tree, plus: Tree, src: Source, records: map<Key, Record>, sha: string -> string,
                         local: seq<Item>, pushes: Key -> bool, key: Key)
    requires Ready(user, plus, src, records, sha, local)
    ensures var rows := DiffRows(local, src.remote);
      var after := Reconciled(plus, rows, src, local, pushes).tree;
      if key in Landed(rows, plus, src)
         || (key.kind == Skill && key.name in MissingDeps(rows, plus, src, local) && Lands(plus, key, src))
      then key in records && Find(plus, key) == Nothing && Find(after, key) == StoredBy(records[key])
      else Find(after, key) == Find(plus, key)
  {
    hide Reconciled, DiffRows, Find, Grown, Gained, StoredBy, Lands, Lists, Serves, KeysOf, OtherKeys, Approved,
      ServerNames, UniqueKeys, AgentsNow, Fated;
    var rows := DiffRows(local, src.remote);
    ReconcileCounts(plus, rows, src, local, pushes);
    var gained := ReconcileOnlyAdds(user, plus, src, records, sha, local, pushes);
    if key in Landed(rows, plus, src) {
      var row :| row in rows && row.drift == NeedsPull && row.key == key;
      PullKeysHas(rows, row);
      DiffPulls(local, src.remote);
      assert key in Elements(PullKeys(rows));
      LocalKeysAre(user, plus, sha, local, key);
    } else if key.kind == Skill && key.name in MissingDeps(rows, plus, src, local) {
      assert Key(Skill, key.name) == key;
      KeysOfHas(local, key);
      LocalKeysAre(user, plus, sha, local, key);
    }
    NewlyStored(plus, Reconciled(plus, rows, src, local, pushes).tree, records, key);
  }

  lemma NewlyStored(before: Tree, after: Tree, records: map<Key, Record>, key: Key)
    requires Grown(before, after, records, key)
    ensures Find(before, key) == Nothing && Find(after, key) != Nothing ==>
      key in records && Find(after, key) == StoredBy(records[key])
  {
    hide Find, StoredBy;
  }

  lemma {:induction false} PullKeysHas(rows: seq<Row>, row: Row)
    requires row in rows && row.drift == NeedsPull
    ensures row.key in PullKeys(rows)
  {
    var init, last := rows[..|rows| - 1], rows[|rows| - 1];
    assert rows == init + [last];
    if row != last {
      PullKeysHas(init, row);
    }
  }

  // ------------------------------------------------------------------ running again

  lemma {:induction false} RowsWithoutPulls(start: Run, rows: seq<Row>, src: Source, local: seq<Item>,
                                            pushes: Key -> bool)
    requires PullKeys(rows) == [] && start.agents == []
    ensures var run := RowsRun(start, rows, src, local, pushes);
      && run.tree == start.tree && run.present == start.present && run.pulled == start.pulled
      && Elements(run.agents) == PresentAgents(rows)
  {
    if rows != [] {
      hide PresentAgents, RowStep;
      var init, row := rows[..|rows| - 1], rows[|rows| - 1];
      assert rows == init + [row];
      RowsAppend(init, row);
      RowsWithoutPulls(start, init, src, local, pushes);
      RowWithoutPull(RowsRun(start, init, src, local, pushes), row, src, local, pushes);
    }
  }

  lemma RowWithoutPull(run: Run, row: Row, src: Source, local: seq<Item>, pushes: Key -> bool)
    requires row.drift != NeedsPull
    ensures var next := RowStep(run, row, src, local, pushes);
      && next.tree == run.tree && next.present == run.present && next.pulled == run.pulled
      && Elements(next.agents) == Elements(run.agents)
           + if row.key.kind == Agent && (row.drift == InSync || row.drift == Differs) then {row.key.name} else {}
  {
    hide KeysOf;
    NamesGrow({}, row.key, run.agents);
  }

  lemma {:induction false} DepsAlreadyThere(run: Run, skills: seq<string>, src: Source)
    requires forall skill :: skill in skills ==> skill == "" || skill in run.present
    ensures DepsRun(run, skills, src) == run
  {
    if skills != [] {
      DepsAlreadyThere(run, skills[..|skills| - 1], src);
      assert skills[|skills| - 1] in skills;
    }
  }

  /** An agent is in sync or differs when some scan of it is clean and HQ serves it. */
  ghost predicate Checked(items: seq<Item>, remote: seq<RemoteItem>, key: Key) {
    RemoteAt(remote, key).Some? && exists item :: item in items && !item.err
  }

  lemma {:induction false} PresentAgentsAre(local: seq<Item>, remote: seq<RemoteItem>, name: string)
    ensures var key := Key(Agent, name);
      name in PresentAgents(LocalRows(local, remote)) <==> Checked(OfKey(local, key), remote, key)
  {
    if local != [] {
      hide RemoteAt, PresentAgents, LocalRow, LocalRows, Checked, OfKey;
      var init, item := local[..|local| - 1], local[|local| - 1];
      PresentAgentsAre(init, remote, name);
      OneMoreAgent(init, item, remote, name);
      assert local == init + [item];
      OneMoreChecked(init, item, remote, Key(Agent, name));
    }
  }

  lemma OneMoreAgent(init: seq<Item>, item: Item, remote: seq<RemoteItem>, name: string)
    ensures var row := LocalRow(item, remote);
      name in PresentAgents(LocalRows(init + [item], remote)) <==>
        name in PresentAgents(LocalRows(init, remote))
        || (row.key == Key(Agent, name) && (row.drift == InSync || row.drift == Differs))
  {
    hide PresentAgents, LocalRow;
    assert (init + [item])[..|init|] == init;
    RowsAppend(LocalRows(init, remote), LocalRow(item, remote));
  }

  lemma OneMoreChecked(init: seq<Item>, item: Item, remote: seq<RemoteItem>, key: Key)
    ensures var row := LocalRow(item, remote);
      && row.key == item.key
      && (Checked(OfKey(init + [item], key), remote, key) <==>
            Checked(OfKey(init, key), remote, key) || (row.key == key && (row.drift == InSync || row.drift == Differs)))
  {
    hide RemoteAt;
    assert (init + [item])[..|init|] == init;
    assert forall x :: x in OfKey(init + [item], key) <==> x in OfKey(init, key) || (x == item && item.key == key);
  }

  lemma {:induction false} DepListIs(agents: seq<string>, src: Source, skill: string)
    ensures skill in DepList(agents, src) <==> exists agent :: agent in agents && skill in DepsOf(agent, src)
  {
    if agents != [] {
      DepListIs(agents[..|agents| - 1], src, skill);
    }
  }

  lemma {:induction false} RemoteAtIn(remote: seq<RemoteItem>, key: Key)
    ensures RemoteAt(remote, key).Some? <==> key in RemoteKeys(remote)
  {
    if remote != [] {
      var init, last := remote[..|remote| - 1], remote[|remote| - 1];
      RemoteAtIn(init, key);
      assert remote == init + [last];
      RemoteKeysAppend(init, last);
    }
  }

  /** Whoever needs its dependencies checked the second time had them ensured the first time. */
  lemma SameAgents(user: Tree, plus: Tree, after: Tree, src: Source, sha: string -> string, local: seq<Item>,
                   again: seq<Item>, rowed: Run, pulled: set<Key>, name: string)
    requires Lists(local, user, plus, sha) && Lists(again, user, after, sha)
    requires RowsDone(rowed, DiffRows(local, src.remote), pulled) && rowed.errors == 0
    requires var key := Key(Agent, name); key in KeysOf(local) ==>
      LocalAt(user, after, key, sha) == LocalAt(user, plus, key, sha)
    requires name in PresentAgents(LocalRows(again, src.remote))
    ensures name in rowed.agents
  {
    hide LocalAt, KeysOf, OfKey, RemoteAt, RemoteKeys, PresentAgents, LocalRows, DiffRows, PullKeys;
    var key := Key(Agent, name);
    PresentAgentsAre(again, src.remote, name);
    PresentAgentsAre(local, src.remote, name);
    RemoteAtIn(src.remote, key);
    DiffPulls(local, src.remote);
    assert OfKey(again, key) == LocalAt(user, after, key, sha);
    assert OfKey(local, key) == LocalAt(user, plus, key, sha);
    if key !in KeysOf(local) {
      assert key in pulled;
    }
    assert name in Elements(rowed.agents);
  }

  /** After an error-free run, a fresh report reconciled again pulls nothing and leaves the root alone. */
  lemma SecondRunPullsNothing(user: Tree, plus: Tree, src: Source, records: map<Key, Record>, sha: string -> string,
                              local: seq<Item>, pushes: Key -> bool, again: seq<Item>, pushes': Key -> bool)
    requires Ready(user, plus, src, records, sha, local)
    requires var first := Reconciled(plus, DiffRows(local, src.remote), src, local, pushes);
      first.errors == 0 && Lists(again, user, first.tree, sha)
    ensures var first := Reconciled(plus, DiffRows(local, src.remote), src, local, pushes);
      var second := Reconciled(first.tree, DiffRows(again, src.remote), src, again, pushes');
      second.pulled == 0 && second.tree == first.tree
  {
    hide Reconciled, DiffRows, LocalAt, Find, KeysOf, DepList, DepsOf, OtherKeys, PullKeys, RemoteKeys, Lists, Serves,
      Grown, UniqueKeys, PresentAgents, AgentNames, SkillNames, LocalRows, Gained, RowsDone, RemoteAt, Whole;
    var rowed, pulled, gained := RunEnds(user, plus, src, records, sha, local, pushes);
    var first := Reconciled(plus, DiffRows(local, src.remote), src, local, pushes);
    NothingLeft(user, plus, src, records, sha, local, pushes, again);
    forall name | name in PresentAgents(LocalRows(again, src.remote)) ensures name in rowed.agents {
      ReconcileConverges(user, plus, src, records, sha, local, pushes, Key(Agent, name));
      SameAgents(user, plus, first.tree, src, sha, local, again, rowed, pulled, name);
    }
    forall skill | skill in first.present ensures skill in SkillNames(again) {
      LocalKeysAre(user, first.tree, sha, again, Key(Skill, skill));
      SkillNamesAre(again, skill);
    }
    QuietRun(first.tree, src, again, pushes', rowed.agents, first.present);
  }

  lemma NothingLeft(user: Tree, plus: Tree, src: Source, records: map<Key, Record>, sha: string -> string,
                    local: seq<Item>, pushes: Key -> bool, again: seq<Item>)
    requires Ready(user, plus, src, records, sha, local)
    requires var first := Reconciled(plus, DiffRows(local, src.remote), src, local, pushes);
      first.errors == 0 && Lists(again, user, first.tree, sha)
    ensures RemoteKeys(src.remote) <= KeysOf(again)
  {
    hide Reconciled, DiffRows, LocalAt, Find, KeysOf, DepList, OtherKeys, PullKeys, RemoteKeys, Lists, Serves,
      SkillsKnown, UniqueKeys, PresentAgents, AgentNames;
    var rowed, pulled, gained := RunEnds(user, plus, src, records, sha, local, pushes);
    var first := Reconciled(plus, DiffRows(local, src.remote), src, local, pushes);
    DiffPulls(local, src.remote);
    forall key | key in RemoteKeys(src.remote) ensures key in KeysOf(again) {
      LocalKeysAre(user, plus, sha, local, key);
      LocalKeysAre(user, first.tree, sha, again, key);
      assert Grown(plus, first.tree, records, key);
    }
  }

  // With nothing to pull and every dependency present, a run changes nothing.
  lemma QuietRun(tree: Tree, src: Source, again: seq<Item>, pushes: Key -> bool, agents: seq<string>,
                 present: set<string>)
    requires RemoteKeys(src.remote) <= KeysOf(again)
    requires PresentAgents(LocalRows(again, src.remote)) <= Elements(agents)
    requires forall skill :: skill in DepList(agents, src) && skill != "" ==> skill in present
    requires present <= SkillNames(again)
    ensures var second := Reconciled(tree, DiffRows(again, src.remote), src, again, pushes);
      second.pulled == 0 && second.tree == tree
  {
    hide DiffRows, KeysOf, DepList, DepsOf, PullKeys, RemoteKeys, PresentAgents, SkillNames, LocalRows, RowsRun,
      DepsRun;
    var rows := DiffRows(again, src.remote);
    DiffPulls(again, src.remote);
    ElementsEmpty(PullKeys(rows));
    RowsWithoutPulls(Start(tree, again), rows, src, again, pushes);
    var run := RowsRun(Start(tree, again), rows, src, again, pushes);
    forall skill | skill in DepList(run.agents, src) ensures skill == "" || skill in run.present {
      DepListIs(run.agents, src, skill);
      DepListIs(agents, src, skill);
      var agent :| agent in run.agents && skill in DepsOf(agent, src);
      assert agent in Elements(run.agents);
    }
    DepsAlreadyThere(run, DepList(run.agents, src), src);
  }
}
