/**
 * The library database as a value: its tables, the status log, and what any
 * run of registrations and queue operations keeps true of them.
 */
module Library {
  import opened Collections

  datatype Status = Quarantined | Active | Dormant | Retired

  datatype Provenance = Seeded | Manual | Researched | Consolidated | Reflector

  datatype Insight = Insight(
    precondition: string, action: string, outcome: string,
    batch: Option<nat>, provenance: Provenance, createdAt: string, invalidAt: Option<nat>)

  /** One row of status_transitions; its id is its position. */
  datatype Transition = Transition(insight: nat, from: Status, to: Status, snapshot: nat)

  datatype Snapshot = Snapshot(id: nat, parent: Option<nat>, summary: string)

  datatype QueueRow = QueueRow(operation: string, detail: string, snapshot: nat)

  datatype Skill = Skill(name: Option<string>, description: string, createdBatch: Option<nat>, parent: Option<nat>)

  datatype EdgeKind = Similarity | Corroborates | Refines | Contradicts | GeneralizesFrom

  datatype InsightEdge = InsightEdge(src: nat, dst: nat, kind: EdgeKind)

  datatype Contradiction = Contradiction(challenger: nat, incumbent: nat, open: bool, closedSnapshot: Option<nat>)

  /** The tables. Of an insight row the status column is kept apart from the other columns;
      members lists each skill's insights in append order; votes lists corroborate events. */
  datatype Tables = Tables(
    status: map<nat, Status>,
    insights: map<nat, Insight>,
    transitions: seq<Transition>,
    snapshots: seq<Snapshot>,
    queue: seq<QueueRow>,
    batches: map<string, nat>,
    skills: map<nat, Skill>,
    members: map<nat, seq<nat>>,
    edges: seq<InsightEdge>,
    contradictions: seq<Contradiction>,
    votes: seq<nat>)

  // ------------------------------------------------------------ the primitives

  /** Largest snapshot id, 0 before any. */
  function MaxId(snapshots: seq<Snapshot>): nat {
    if snapshots == [] then 0
    else
      var last := snapshots[|snapshots| - 1].id;
      var rest := MaxId(snapshots[..|snapshots| - 1]);
      if rest < last then last else rest
  }

  function Current(db: Tables): nat { MaxId(db.snapshots) }

  /** Open a queue operation: one snapshot row, one audit row. */
  function Mint(db: Tables, operation: string, detail: string): Tables {
    var parent := Current(db);
    var id := parent + 1;
    var summary := if detail == "" then operation else operation + ": " + detail;
    db.(snapshots := db.snapshots + [Snapshot(id, if parent == 0 then None else Some(parent), summary)],
        queue := db.queue + [QueueRow(operation, detail, id)])
  }

  function Flip(db: Tables, i: nat, to: Status, snapshot: nat): Tables
    requires i in db.status
  {
    db.(transitions := db.transitions + [Transition(i, db.status[i], to, snapshot)],
        status := db.status[i := to])
  }

  function FlipAll(db: Tables, ids: seq<nat>, to: Status, snapshot: nat): (after: Tables)
    requires forall i :: i in ids ==> i in db.status
    ensures after.status.Keys == db.status.Keys
  {
    if ids == [] then db
    else Flip(FlipAll(db, ids[..|ids| - 1], to, snapshot), ids[|ids| - 1], to, snapshot)
  }

  /** Row position of the latest transition of i at or before a snapshot:
      highest snapshot first, then highest row id. */
  function LatestRow(rows: seq<Transition>, i: nat, snapshot: nat): (r: Option<nat>)
    ensures r.Some? ==> r.value < |rows| && rows[r.value].insight == i && rows[r.value].snapshot <= snapshot
  {
    if rows == [] then None
    else
      var k := |rows| - 1;
      var best := LatestRow(rows[..k], i, snapshot);
      if rows[k].insight == i && rows[k].snapshot <= snapshot
         && (best == None || rows[best.value].snapshot <= rows[k].snapshot)
      then Some(k) else best
  }

  /** Row position of the first transition of i: lowest snapshot first, then lowest row id. */
  function EarliestRow(rows: seq<Transition>, i: nat): (r: Option<nat>)
    ensures r.Some? ==> r.value < |rows| && rows[r.value].insight == i
  {
    if rows == [] then None
    else
      var k := |rows| - 1;
      var best := EarliestRow(rows[..k], i);
      if rows[k].insight == i && (best == None || rows[k].snapshot < rows[best.value].snapshot)
      then Some(k) else best
  }

  /** Status as of a snapshot, rebuilt from the log; None for an unknown insight. */
  function StatusAt(db: Tables, i: nat, snapshot: nat): Option<Status> {
    var latest := LatestRow(db.transitions, i, snapshot);
    var first := EarliestRow(db.transitions, i);
    if latest.Some? then Some(db.transitions[latest.value].to)
    else if first.Some? then Some(db.transitions[first.value].from)
    else if i in db.status then Some(db.status[i])
    else None
  }

  // The two queries pick what their ORDER BY asks for.
  lemma {:induction false} LatestRowIsLatest(rows: seq<Transition>, i: nat, snapshot: nat, k: nat)
    requires k < |rows| && rows[k].insight == i && rows[k].snapshot <= snapshot
    ensures LatestRow(rows, i, snapshot).Some?
    ensures var best := LatestRow(rows, i, snapshot).value;
      rows[k].snapshot < rows[best].snapshot || (rows[k].snapshot == rows[best].snapshot && k <= best)
  {
    if k < |rows| - 1 {
      LatestRowIsLatest(rows[..|rows| - 1], i, snapshot, k);
    }
  }

  lemma {:induction false} EarliestRowIsEarliest(rows: seq<Transition>, i: nat, k: nat)
    requires k < |rows| && rows[k].insight == i
    ensures EarliestRow(rows, i).Some?
    ensures var best := EarliestRow(rows, i).value;
      rows[best].snapshot < rows[k].snapshot || (rows[best].snapshot == rows[k].snapshot && best <= k)
  {
    if k < |rows| - 1 {
      EarliestRowIsEarliest(rows[..|rows| - 1], i, k);
    }
  }

  // ---------------------------------------------------------------- invariants

  /** Snapshot ids count 1, 2, 3, ...; each row's parent is the row before. */
  ghost predicate Gapless(snapshots: seq<Snapshot>) {
    forall k :: 0 <= k < |snapshots| ==>
      snapshots[k].id == k + 1 && snapshots[k].parent == if k == 0 then None else Some(k)
  }

  /** Rows name known insights and minted snapshots, in snapshot order. */
  ghost predicate InOrder(rows: seq<Transition>, ids: set<nat>, current: nat) {
    && (forall k :: 0 <= k < |rows| ==> rows[k].insight in ids && 1 <= rows[k].snapshot <= current)
    && (forall j, k :: 0 <= j < k < |rows| ==> rows[j].snapshot <= rows[k].snapshot)
  }

  /** Each row starts from the status its insight's previous row ended in. */
  ghost predicate Chained(rows: seq<Transition>) {
    forall j, k :: 0 <= j < k < |rows| && rows[j].insight == rows[k].insight && Between(rows, j, k) ==>
      rows[k].from == rows[j].to
  }

  /** No row strictly between j and k is about the same insight. */
  ghost predicate Between(rows: seq<Transition>, j: nat, k: nat)
    requires j < k < |rows|
  {
    forall x :: j < x < k ==> rows[x].insight != rows[j].insight
  }

  /** The latest row of an insight ends in its status. */
  ghost predicate SettledRow(db: Tables, i: nat)
    requires i in db.status
  {
    match LatestRow(db.transitions, i, Current(db))
    case Some(k) => db.transitions[k].to == db.status[i]
    case None => true
  }

  /** The status column is where the log left each insight. */
  ghost predicate Settled(db: Tables) {
    forall i :: i in db.status ==> SettledRow(db, i)
  }

  ghost predicate Valid(db: Tables) {
    && Gapless(db.snapshots)
    && InOrder(db.transitions, db.status.Keys, Current(db))
    && Chained(db.transitions)
    && Settled(db)
  }

  // -------------------------------------------------------------- what a run is

  /** The columns that make up an insight's history. */
  datatype Log = Log(status: map<nat, Status>, transitions: seq<Transition>, snapshots: seq<Snapshot>)

  function LogOf(db: Tables): Log { Log(db.status, db.transitions, db.snapshots) }

  /** Registering and any other write that moves no status and logs nothing. */
  ghost predicate RegisterStep(db: Tables, db': Tables) {
    && db'.transitions == db.transitions && db'.snapshots == db.snapshots
    && db.status.Keys <= db'.status.Keys
    && forall i :: i in db.status ==> db'.status[i] == db.status[i]
  }

  /** Any number of flips, in order, each to its own status. */
  function Flips(db: Tables, flips: seq<(nat, Status)>, snapshot: nat): (after: Tables)
    requires forall f :: f in flips ==> f.0 in db.status
    ensures after.status.Keys == db.status.Keys && after.snapshots == db.snapshots
  {
    if flips == [] then db
    else
      var last := flips[|flips| - 1];
      Flip(Flips(db, flips[..|flips| - 1], snapshot), last.0, last.1, snapshot)
  }

  /** What moved the library on: a registration, or a queue operation with its flips in order. */
  datatype Move = Registration | Operation(name: string, detail: string, flips: seq<(nat, Status)>)

  /** One committed change. Under an operation, tables outside the log may change freely. */
  ghost predicate Step(db: Tables, db': Tables, move: Move) {
    match move
    case Registration => RegisterStep(db, db')
    case Operation(name, detail, flips) =>
      && (forall f :: f in flips ==> f.0 in db.status)
      && LogOf(db') == LogOf(Flips(Mint(db, name, detail), flips, Current(db) + 1))
  }

  ghost predicate Empty(db: Tables) { db.status == map[] && db.transitions == [] && db.snapshots == [] }

  /** A run from the empty library; every state in it has been committed. */
  ghost predicate Run(run: seq<Tables>, moves: seq<Move>) {
    && |run| == |moves| + 1 && Empty(run[0])
    && forall i, j :: 0 <= i && j == i + 1 && j < |run| ==> Step(run[i], run[j], moves[i])
  }

  // ------------------------------------------------------- the invariant is kept

  lemma {:induction false} GaplessMax(snapshots: seq<Snapshot>)
    requires Gapless(snapshots)
    ensures MaxId(snapshots) == |snapshots|
  {
    if snapshots != [] {
      GaplessMax(snapshots[..|snapshots| - 1]);
    }
  }

  // A snapshot bound beyond every row asks for nothing more.
  lemma {:induction false} LatestRowBound(rows: seq<Transition>, i: nat, s: nat, t: nat)
    requires s <= t && forall k :: 0 <= k < |rows| ==> rows[k].snapshot <= s
    ensures LatestRow(rows, i, t) == LatestRow(rows, i, s)
  {
    if rows != [] {
      LatestRowBound(rows[..|rows| - 1], i, s, t);
    }
  }

  lemma {:induction false} NoRows(rows: seq<Transition>, i: nat, snapshot: nat)
    requires forall k :: 0 <= k < |rows| ==> rows[k].insight != i
    ensures LatestRow(rows, i, snapshot) == None && EarliestRow(rows, i) == None
  {
    if rows != [] {
      NoRows(rows[..|rows| - 1], i, snapshot);
    }
  }

  /** Minting adds one snapshot row and one audit row and moves current on by one. */
  lemma {:induction false} MintKeepsValid(db: Tables, operation: string, detail: string)
    requires Valid(db)
    ensures Valid(Mint(db, operation, detail)) && Current(Mint(db, operation, detail)) == Current(db) + 1
    ensures var count := |db.snapshots|;
      Mint(db, operation, detail) == db.(
        snapshots := db.snapshots + [Snapshot(count + 1, if count == 0 then None else Some(count),
                                              if detail == "" then operation else operation + ": " + detail)],
        queue := db.queue + [QueueRow(operation, detail, count + 1)])
  {
    hide MaxId;
    var db' := Mint(db, operation, detail);
    GaplessMax(db.snapshots);
    assert Gapless(db'.snapshots);
    GaplessMax(db'.snapshots);
    forall i | i in db.status
      ensures LatestRow(db.transitions, i, Current(db')) == LatestRow(db.transitions, i, Current(db))
    {
      LatestRowBound(db.transitions, i, Current(db), Current(db'));
    }
  }

  lemma {:induction false} FlipKeepsValid(db: Tables, i: nat, to: Status)
    requires Valid(db) && i in db.status && Current(db) >= 1
    ensures Valid(Flip(db, i, to, Current(db)))
  {
    FlipKeepsChain(db, i, to);
    FlipKeepsSettled(db, i, to);
    FlipKeepsOrder(db.transitions, Transition(i, db.status[i], to, Current(db)), db.status.Keys, Current(db));
    hide Gapless, Chained, Settled, InOrder, MaxId;
    assert Flip(db, i, to, Current(db)).status.Keys == db.status.Keys;
  }

  lemma FlipKeepsOrder(rows: seq<Transition>, row: Transition, ids: set<nat>, current: nat)
    requires InOrder(rows, ids, current) && row.insight in ids && row.snapshot == current >= 1
    ensures InOrder(rows + [row], ids, current)
  {
  }

  lemma FlipKeepsSettled(db: Tables, i: nat, to: Status)
    requires InOrder(db.transitions, db.status.Keys, Current(db)) && Settled(db) && i in db.status
    ensures Settled(Flip(db, i, to, Current(db)))
  {
    hide MaxId;
    var db' := Flip(db, i, to, Current(db));
    forall x | x in db'.status ensures SettledRow(db', x) {
      assert x in db.status ==> SettledRow(db, x);
      OneMoreRow(db.transitions, Transition(i, db.status[i], to, Current(db)), x, Current(db));
    }
  }

  // A row logged last, under a snapshot at least as late as any other, is the latest of its insight.
  lemma OneMoreRow(rows: seq<Transition>, row: Transition, x: nat, snapshot: nat)
    requires row.snapshot == snapshot && forall k :: 0 <= k < |rows| ==> rows[k].snapshot <= snapshot
    ensures LatestRow(rows + [row], x, snapshot)
      == if x == row.insight then Some(|rows|) else LatestRow(rows, x, snapshot)
  {
    assert (rows + [row])[..|rows|] == rows;
  }

  lemma {:induction false} FlipKeepsChain(db: Tables, i: nat, to: Status)
    requires Valid(db) && i in db.status
    ensures Chained(Flip(db, i, to, Current(db)).transitions)
  {
    var rows := db.transitions;
    var rows' := Flip(db, i, to, Current(db)).transitions;
    forall j, k | 0 <= j < k < |rows'| && rows'[j].insight == rows'[k].insight && Between(rows', j, k)
      ensures rows'[k].from == rows'[j].to
    {
      if k < |rows| {
        assert Between(rows, j, k) by {
          assert forall x :: j < x < k ==> rows[x] == rows'[x];
        }
      } else {
        LatestRowIsLatest(rows, i, Current(db), j);
        var best := LatestRow(rows, i, Current(db)).value;
        assert rows[best] == rows'[best] && rows[j] == rows'[j];
        assert best <= j;
      }
    }
  }

  lemma {:induction false} FlipsKeepValid(db: Tables, flips: seq<(nat, Status)>)
    requires Valid(db) && Current(db) >= 1 && forall f :: f in flips ==> f.0 in db.status
    ensures Valid(Flips(db, flips, Current(db)))
  {
    if flips != [] {
      FlipsKeepValid(db, flips[..|flips| - 1]);
      var last := flips[|flips| - 1];
      FlipKeepsValid(Flips(db, flips[..|flips| - 1], Current(db)), last.0, last.1);
    }
  }

  lemma ValidByLog(db: Tables, db': Tables)
    requires Valid(db) && LogOf(db) == LogOf(db')
    ensures Valid(db')
  {
  }

  lemma {:induction false} RegisterKeepsValid(db: Tables, db': Tables)
    requires Valid(db) && RegisterStep(db, db')
    ensures Valid(db')
  {
    forall i | i in db'.status && i !in db.status
      ensures LatestRow(db.transitions, i, Current(db)) == None
    {
      NoRows(db.transitions, i, Current(db));
    }
  }

  lemma {:induction false} StepKeepsValid(db: Tables, db': Tables, move: Move)
    requires Valid(db) && Step(db, db', move)
    ensures Valid(db') && Current(db) <= Current(db')
  {
    match move
    case Registration => RegisterKeepsValid(db, db');
    case Operation(name, detail, flips) =>
      MintKeepsValid(db, name, detail);
      FlipsKeepValid(Mint(db, name, detail), flips);
      ValidByLog(Flips(Mint(db, name, detail), flips, Current(db) + 1), db');
  }

  /** In every run the snapshot chain is gapless, the log ordered and chained, the status column settled. */
  lemma {:induction false} RunKeepsValid(run: seq<Tables>, moves: seq<Move>, k: nat)
    requires Run(run, moves) && k < |run|
    ensures Valid(run[k])
  {
    if k > 0 {
      RunKeepsValid(run, moves, k - 1);
      StepKeepsValid(run[k - 1], run[k], moves[k - 1]);
    }
  }

  // -------------------------------------------------------------------- history

  /** The status column is the status as of the current snapshot. */
  lemma {:induction false} CurrentStatus(db: Tables, i: nat)
    requires Valid(db) && i in db.status
    ensures StatusAt(db, i, Current(db)) == Some(db.status[i])
  {
    if LatestRow(db.transitions, i, Current(db)) == None && EarliestRow(db.transitions, i).Some? {
      var k := EarliestRow(db.transitions, i).value;
      LatestRowIsLatest(db.transitions, i, Current(db), k);
    }
  }

  // A flip under a later snapshot is invisible to an earlier one.
  lemma {:induction false} FlipKeepsPast(db: Tables, x: nat, to: Status, now: nat, i: nat, snapshot: nat)
    requires x in db.status && i in db.status && snapshot < now
    requires forall k :: 0 <= k < |db.transitions| ==> db.transitions[k].snapshot <= now
    ensures StatusAt(Flip(db, x, to, now), i, snapshot) == StatusAt(db, i, snapshot)
  {
    var rows := Flip(db, x, to, now).transitions;
    assert rows[..|rows| - 1] == db.transitions;
  }

  lemma {:induction false} FlipsKeepPast(db: Tables, flips: seq<(nat, Status)>, now: nat, i: nat, snapshot: nat)
    requires forall f :: f in flips ==> f.0 in db.status
    requires i in db.status && snapshot < now
    requires forall k :: 0 <= k < |db.transitions| ==> db.transitions[k].snapshot <= now
    ensures var after := Flips(db, flips, now);
      && StatusAt(after, i, snapshot) == StatusAt(db, i, snapshot)
      && forall k :: 0 <= k < |after.transitions| ==> after.transitions[k].snapshot <= now
  {
    if flips != [] {
      var init, last := flips[..|flips| - 1], flips[|flips| - 1];
      FlipsKeepPast(db, init, now, i, snapshot);
      FlipKeepsPast(Flips(db, init, now), last.0, last.1, now, i, snapshot);
    }
  }

  lemma {:induction false} StepKeepsPast(db: Tables, db': Tables, move: Move, i: nat, snapshot: nat)
    requires Valid(db) && Step(db, db', move) && i in db.status && snapshot <= Current(db)
    ensures i in db'.status && StatusAt(db', i, snapshot) == StatusAt(db, i, snapshot)
  {
    if move.Operation? {
      var minted, now := Mint(db, move.name, move.detail), Current(db) + 1;
      FlipsKeepPast(minted, move.flips, now, i, snapshot);
      calc {
        StatusAt(db', i, snapshot);
        { SameLogSamePast(Flips(minted, move.flips, now), db', i, snapshot); }
        StatusAt(Flips(minted, move.flips, now), i, snapshot);
        StatusAt(minted, i, snapshot);
        { SameLogSamePast(minted.(snapshots := db.snapshots), db, i, snapshot); }
        StatusAt(db, i, snapshot);
      }
    }
  }

  lemma SameLogSamePast(db: Tables, db': Tables, i: nat, snapshot: nat)
    requires LogOf(db) == LogOf(db')
    ensures StatusAt(db, i, snapshot) == StatusAt(db', i, snapshot)
  {
  }

  ghost predicate Remembers(db: Tables, i: nat, snapshot: nat, answer: Option<Status>) {
    i in db.status && snapshot <= Current(db) && StatusAt(db, i, snapshot) == answer
  }

  /** No later operation changes what a past snapshot answers. */
  lemma {:induction false} PastIsFixed(run: seq<Tables>, moves: seq<Move>, j: nat, n: nat, i: nat, snapshot: nat,
                                       answer: Option<Status>)
    requires Run(run, moves) && j <= n < |run| && Remembers(run[j], i, snapshot, answer)
    ensures Remembers(run[n], i, snapshot, answer)
  {
    if j < n {
      PastIsFixed(run, moves, j, n - 1, i, snapshot, answer);
      RunKeepsValid(run, moves, n - 1);
      StepKeepsPast(run[n - 1], run[n], moves[n - 1], i, snapshot);
      StepKeepsValid(run[n - 1], run[n], moves[n - 1]);
    }
  }

  /** Asking about the snapshot current at some state gives the status held in that state. */
  lemma {:induction false} HistoryIsExact(run: seq<Tables>, moves: seq<Move>, j: nat, n: nat, i: nat)
    requires Run(run, moves) && j <= n < |run| && i in run[j].status
    ensures StatusAt(run[n], i, Current(run[j])) == Some(run[j].status[i])
  {
    RunKeepsValid(run, moves, j);
    CurrentStatus(run[j], i);
    PastIsFixed(run, moves, j, n, i, Current(run[j]), Some(run[j].status[i]));
  }

  /** Asking about a snapshot older than the insight gives the status it was registered with. */
  lemma {:induction false} BeforeBirth(run: seq<Tables>, moves: seq<Move>, m: nat, n: nat, i: nat, snapshot: nat)
    requires Run(run, moves) && 0 < m <= n < |run| && i in run[m].status && i !in run[m - 1].status
    requires snapshot <= Current(run[m - 1])
    ensures StatusAt(run[n], i, snapshot) == Some(run[m].status[i])
  {
    RunKeepsValid(run, moves, m - 1);
    StepKeepsValid(run[m - 1], run[m], moves[m - 1]);
    assert RegisterStep(run[m - 1], run[m]);
    NoRows(run[m].transitions, i, snapshot);
    PastIsFixed(run, moves, m, n, i, snapshot, Some(run[m].status[i]));
  }
}
