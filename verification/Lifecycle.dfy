/**
 * Lifecycle operations on the library: batch promotion with deferred supersede,
 * batch revert, retire, revive and consolidation.
 */
module Lifecycle {
  import opened Collections
  import opened Ordering
  import opened Library

  datatype Error =
    | UnknownBatch | NothingToPromote | NothingToRevert
    | UnknownInsight | AlreadyRetired | NotRevivable
    | NoChildren | OwnChild | RetiredChild
    | UnknownSkill | NothingToRetire | NothingToRevive
    | IntegrityViolation

  datatype Result<+T> = Ok(value: T) | Err(error: Error)

  /** Foreign keys: rows refer to rows that exist. */
  ghost predicate Consistent(db: Tables) {
    && db.status.Keys == db.insights.Keys
    && db.members.Keys == db.skills.Keys
    && (forall k, i :: k in db.members && i in db.members[k] ==> i in db.insights)
    && (forall e :: e in db.edges ==> e.src in db.insights && e.dst in db.insights)
    && (forall k :: k in db.skills && db.skills[k].parent.Some? ==> db.skills[k].parent.value in db.skills)
  }

  // ----------------------------------------------------------- who beats whom

  function Authority(p: Provenance): nat {
    match p
    case Seeded => 4
    case Manual => 3
    case Researched => 2
    case Consolidated => 1
    case Reflector => 0
  }

  /** Number of corroborate votes on an insight. */
  function Evidence(votes: seq<nat>, i: nat): nat { multiset(votes)[i] }

  /** What decides a contradiction: authority, then evidence, then age, then id. */
  datatype Rank = Rank(authority: nat, evidence: nat, createdAt: string, id: nat)

  function RankOf(db: Tables, i: nat): Rank
    requires i in db.insights
  {
    Rank(Authority(db.insights[i].provenance), Evidence(db.votes, i), db.insights[i].createdAt, i)
  }

  predicate Outranks(a: Rank, b: Rank) {
    if a.authority != b.authority then a.authority > b.authority
    else if a.evidence != b.evidence then a.evidence > b.evidence
    else Below(b.createdAt, a.createdAt) || (b.createdAt == a.createdAt && b.id < a.id)
  }

  predicate Beats(db: Tables, challenger: nat, incumbent: nat)
    requires challenger in db.insights && incumbent in db.insights
  {
    Outranks(RankOf(db, challenger), RankOf(db, incumbent))
  }

  /** Who outranks whom, on the columns: provenance first, then more votes, then the later creation,
      then the larger id. */
  ghost predicate Stronger(db: Tables, a: nat, b: nat)
    requires a in db.insights && b in db.insights
  {
    var (x, y) := (db.insights[a], db.insights[b]);
    var (votes, others) := (multiset(db.votes)[a], multiset(db.votes)[b]);
    || (x.provenance == Seeded && y.provenance != Seeded)
    || (x.provenance == Manual && y.provenance in {Researched, Consolidated, Reflector})
    || (x.provenance == Researched && y.provenance in {Consolidated, Reflector})
    || (x.provenance == Consolidated && y.provenance == Reflector)
    || (x.provenance == y.provenance && votes > others)
    || (x.provenance == y.provenance && votes == others && Below(y.createdAt, x.createdAt))
    || (x.provenance == y.provenance && votes == others && x.createdAt == y.createdAt && a > b)
  }

  lemma BeatsExactly(db: Tables, a: nat, b: nat)
    requires a in db.insights && b in db.insights
    ensures Beats(db, a, b) <==> Stronger(db, a, b)
  {
    BelowIrreflexive(db.insights[a].createdAt);
  }

  /** Beats is a strict total order on distinct insights. */
  lemma BeatsStrictTotal(db: Tables, a: nat, b: nat, c: nat)
    requires a in db.insights && b in db.insights && c in db.insights
    ensures !Beats(db, a, a)
    ensures Beats(db, a, b) && Beats(db, b, c) ==> Beats(db, a, c)
    ensures a != b ==> (Beats(db, a, b) <==> !Beats(db, b, a))
  {
    var x, y, z := db.insights[a].createdAt, db.insights[b].createdAt, db.insights[c].createdAt;
    BelowIrreflexive(x);
    BelowTotal(x, y);
    if Below(y, x) && Below(x, y) {
      BelowTransitive(x, y, x);
    }
    if Below(y, x) && Below(z, y) {
      BelowTransitive(z, y, x);
    }
  }

  /** In any non-empty set of insights one beats all the others. */
  lemma {:induction false} StrongestExists(db: Tables, ids: set<nat>) returns (top: nat)
    requires ids != {} && ids <= db.insights.Keys
    ensures top in ids && forall i :: i in ids && i != top ==> Beats(db, top, i)
    decreases |ids|
  {
    var a :| a in ids;
    if ids == {a} {
      top := a;
    } else {
      var b := StrongestExists(db, ids - {a});
      top := if Beats(db, a, b) then a else b;
      forall i | i in ids && i != top ensures Beats(db, top, i) {
        BeatsStrictTotal(db, a, b, i);
        BeatsStrictTotal(db, b, a, i);
      }
    }
  }

  // -------------------------------------------------------- deferred supersede

  /** The text the contradiction re-check reads. */
  datatype Atom = Atom(precondition: string, action: string, outcome: string)

  function AtomOf(i: Insight): Atom { Atom(i.precondition, i.action, i.outcome) }

  predicate OpenEdge(db: Tables, challengers: seq<nat>, e: InsightEdge) {
    && e.kind == Contradicts && e.src in challengers
    && e.dst in db.status && e.dst in db.insights
    && db.status[e.dst] != Retired && db.insights[e.dst].invalidAt == None
  }

  function OpenEdges(db: Tables, challengers: seq<nat>, edges: seq<InsightEdge>): seq<InsightEdge> {
    if edges == [] then []
    else
      var last := edges[|edges| - 1];
      OpenEdges(db, challengers, edges[..|edges| - 1]) + if OpenEdge(db, challengers, last) then [last] else []
  }

  lemma {:induction false} OpenEdgesMembers(db: Tables, challengers: seq<nat>, edges: seq<InsightEdge>, e: InsightEdge)
    ensures e in OpenEdges(db, challengers, edges) <==> e in edges && OpenEdge(db, challengers, e)
  {
    if edges != [] {
      OpenEdgesMembers(db, challengers, edges[..|edges| - 1], e);
      assert edges == edges[..|edges| - 1] + [edges[|edges| - 1]];
    }
  }

  /** The re-check still confirms the contradiction and the challenger is stronger. */
  predicate Defeats(db: Tables, confirm: (Atom, Atom) -> bool, e: InsightEdge) {
    && e.src in db.insights && e.dst in db.insights
    && confirm(AtomOf(db.insights[e.dst]), AtomOf(db.insights[e.src]))
    && Beats(db, e.src, e.dst)
  }

  function Invalidate(db: Tables, i: nat, snapshot: nat): Tables
    requires i in db.insights
  {
    db.(insights := db.insights[i := db.insights[i].(invalidAt := Some(snapshot))])
  }

  /** The resolution loop: edges in order, an incumbent already retired is skipped. */
  function Resolve(db: Tables, edges: seq<InsightEdge>, confirm: (Atom, Atom) -> bool, snapshot: nat)
    : (r: (Tables, seq<nat>))
    requires forall e :: e in edges ==> e.dst in db.status
    ensures r.0.status.Keys == db.status.Keys
  {
    if edges == [] then (db, [])
    else
      var e := edges[|edges| - 1];
      assert e in edges && forall f :: f in edges[..|edges| - 1] ==> f in edges;
      ResolveEdge(Resolve(db, edges[..|edges| - 1], confirm, snapshot), e, confirm, snapshot)
  }

  /** One edge of the loop. */
  function ResolveEdge(sofar: (Tables, seq<nat>), e: InsightEdge, confirm: (Atom, Atom) -> bool, snapshot: nat)
    : (r: (Tables, seq<nat>))
    requires e.dst in sofar.0.status
    ensures r.0.status.Keys == sofar.0.status.Keys
  {
    var (now, retired) := sofar;
    if e.dst in retired || !Defeats(now, confirm, e) then sofar
    else (Flip(Invalidate(now, e.dst, snapshot), e.dst, Retired, snapshot), retired + [e.dst])
  }

  /** The incumbents a promotion must retire: some confirmed open edge from a stronger challenger. */
  function Losers(db: Tables, edges: seq<InsightEdge>, confirm: (Atom, Atom) -> bool): set<nat> {
    set e | e in edges && Defeats(db, confirm, e) :: e.dst
  }

  function RetireAll(status: map<nat, Status>, ids: set<nat>): map<nat, Status> {
    map i | i in status :: if i in ids then Retired else status[i]
  }

  function InvalidateAll(insights: map<nat, Insight>, ids: set<nat>, snapshot: nat): map<nat, Insight> {
    map i | i in insights :: if i in ids then insights[i].(invalidAt := Some(snapshot)) else insights[i]
  }

  // Stamping an incumbent changes nothing the decision looks at.
  lemma DefeatsIgnoresStamps(db: Tables, now: Tables, ids: set<nat>, snapshot: nat, confirm: (Atom, Atom) -> bool,
                             e: InsightEdge)
    requires now.insights == InvalidateAll(db.insights, ids, snapshot) && now.votes == db.votes
    ensures Defeats(now, confirm, e) <==> Defeats(db, confirm, e)
  {
  }

  lemma OneMoreLoser(db: Tables, ids: set<nat>, i: nat, snapshot: nat)
    ensures i in db.status ==> RetireAll(db.status, ids)[i := Retired] == RetireAll(db.status, ids + {i})
    ensures i in db.insights ==>
      var stamped := InvalidateAll(db.insights, ids, snapshot);
      stamped[i := stamped[i].(invalidAt := Some(snapshot))] == InvalidateAll(db.insights, ids + {i}, snapshot)
  {
  }

  lemma LosersSplit(db: Tables, edges: seq<InsightEdge>, confirm: (Atom, Atom) -> bool)
    requires edges != []
    ensures var e := edges[|edges| - 1];
      Losers(db, edges, confirm)
      == Losers(db, edges[..|edges| - 1], confirm) + if Defeats(db, confirm, e) then {e.dst} else {}
  {
    var init, e := edges[..|edges| - 1], edges[|edges| - 1];
    assert forall f :: f in edges <==> f == e || f in init;
  }

  /** The loop retires exactly the losers, each once, whatever the edge order. */
  lemma {:induction false} ResolveExact(db: Tables, edges: seq<InsightEdge>, confirm: (Atom, Atom) -> bool,
                                        snapshot: nat)
    requires forall e :: e in edges ==> e.dst in db.status
    ensures ResolvedTo(db, Resolve(db, edges, confirm, snapshot), Losers(db, edges, confirm), snapshot)
  {
    if edges == [] {
      assert Losers(db, edges, confirm) == {};
    } else {
      hide Defeats, ResolvedTo, ResolveEdge, Losers;
      var init, e := edges[..|edges| - 1], edges[|edges| - 1];
      assert e in edges && forall f :: f in init ==> f in edges;
      ResolveExact(db, init, confirm, snapshot);
      LosersSplit(db, edges, confirm);
      OneMoreEdge(db, Resolve(db, init, confirm, snapshot), e, confirm, snapshot, Losers(db, init, confirm));
    }
  }

  /** Exactly these incumbents are retired, each once, and only their status and stamp have changed. */
  ghost predicate ResolvedTo(db: Tables, r: (Tables, seq<nat>), losers: set<nat>, snapshot: nat) {
    && Distinct(r.1) && Elements(r.1) == losers
    && r.0 == db.(status := RetireAll(db.status, losers), insights := InvalidateAll(db.insights, losers, snapshot),
                  transitions := r.0.transitions)
  }

  lemma OneMoreEdge(db: Tables, sofar: (Tables, seq<nat>), e: InsightEdge, confirm: (Atom, Atom) -> bool,
                    snapshot: nat, losers: set<nat>)
    requires ResolvedTo(db, sofar, losers, snapshot) && e.dst in db.status && e.dst in sofar.0.status
    ensures ResolvedTo(db, ResolveEdge(sofar, e, confirm, snapshot),
      losers + if Defeats(db, confirm, e) then {e.dst} else {}, snapshot)
  {
    hide RetireAll, InvalidateAll, Elements, Defeats;
    var (now, retired) := sofar;
    DefeatsIgnoresStamps(db, now, losers, snapshot, confirm, e);
    ElementsMember(retired, e.dst);
    assert losers + {} == losers;
    if e.dst in retired {
      assert losers + {e.dst} == losers;
    } else if Defeats(now, confirm, e) {
      DefeatsKnown(db, confirm, e);
      OneMoreLoser(db, losers, e.dst, snapshot);
    }
  }

  lemma DefeatsKnown(db: Tables, confirm: (Atom, Atom) -> bool, e: InsightEdge)
    requires Defeats(db, confirm, e)
    ensures e.src in db.insights && e.dst in db.insights
  {
  }

  lemma ElementsMember(ids: seq<nat>, i: nat)
    ensures i in ids <==> i in Elements(ids)
    ensures Elements(ids + [i]) == Elements(ids) + {i}
  {
  }

  // ------------------------------------------------------------------ commands

  function BatchTargets(db: Tables, batch: nat, statuses: set<Status>): seq<nat> {
    SortedIds(set i | i in db.status && i in db.insights && db.insights[i].batch == Some(batch)
      && db.status[i] in statuses)
  }

  lemma BatchTargetsMembers(db: Tables, batch: nat, statuses: set<Status>, i: nat)
    ensures i in BatchTargets(db, batch, statuses) <==>
      i in db.status && i in db.insights && db.insights[i].batch == Some(batch) && db.status[i] in statuses
  {
    assert i in BatchTargets(db, batch, statuses) <==> i in Elements(BatchTargets(db, batch, statuses));
  }

  function Admit(db: Tables, tag: string, targets: seq<nat>): (after: Tables)
    requires forall i :: i in targets ==> i in db.status
    ensures after.status.Keys == db.status.Keys
  {
    FlipAll(Mint(db, "promote_batch", tag), targets, Active, Current(db) + 1)
  }

  /** The promotion's result: the new library and the incumbents it retired. */
  function Promote(db: Tables, tag: string, confirm: (Atom, Atom) -> bool): Result<(Tables, seq<nat>)> {
    if tag !in db.batches then Err(UnknownBatch)
    else
      var targets := BatchTargets(db, db.batches[tag], {Quarantined});
      if targets == [] then Err(NothingToPromote)
      else
        TargetsKnown(db, db.batches[tag], {Quarantined});
        var admitted := Admit(db, tag, targets);
        var edges := OpenEdges(admitted, targets, admitted.edges);
        OpenEdgesKnown(admitted, targets, admitted.edges);
        Ok(Resolve(admitted, edges, confirm, Current(db) + 1))
  }

  lemma TargetsKnown(db: Tables, batch: nat, statuses: set<Status>)
    ensures forall i :: i in BatchTargets(db, batch, statuses) ==> i in db.status && i in db.insights
  {
    forall i | i in BatchTargets(db, batch, statuses) ensures i in db.status && i in db.insights {
      BatchTargetsMembers(db, batch, statuses, i);
    }
  }

  lemma OpenEdgesKnown(db: Tables, challengers: seq<nat>, edges: seq<InsightEdge>)
    ensures forall e :: e in OpenEdges(db, challengers, edges) ==> e.dst in db.status
  {
    forall e | e in OpenEdges(db, challengers, edges) ensures e.dst in db.status {
      OpenEdgesMembers(db, challengers, edges, e);
    }
  }

  function CloseFlags(flags: seq<Contradiction>, challengers: seq<nat>, snapshot: nat): (after: seq<Contradiction>)
    ensures |after| == |flags|
    ensures forall k :: 0 <= k < |flags| ==> after[k] == Closed(flags[k], challengers, snapshot)
  {
    if flags == [] then []
    else CloseFlags(flags[..|flags| - 1], challengers, snapshot) + [Closed(flags[|flags| - 1], challengers, snapshot)]
  }

  function Closed(flag: Contradiction, challengers: seq<nat>, snapshot: nat): Contradiction {
    if flag.open && flag.challenger in challengers then flag.(open := false, closedSnapshot := Some(snapshot)) else flag
  }

  /** Skills the batch created that have no member from outside the batch. */
  function Orphaned(db: Tables, batch: nat): set<nat> {
    set k | k in db.skills && db.skills[k].createdBatch == Some(batch)
      && (k in db.members ==> forall i :: i in db.members[k] && i in db.insights ==>
           db.insights[i].batch == Some(batch))
  }

  /** A skill that stays names a skill that goes as its parent. */
  predicate LeavesDanglingChild(db: Tables, removed: set<nat>) {
    exists k :: k in db.skills && k !in removed && db.skills[k].parent.Some? && db.skills[k].parent.value in removed
  }

  /** The flips and flag closures of a revert, before any skill is deleted. */
  function RevertFlips(db: Tables, tag: string): Tables
    requires tag in db.batches
  {
    var targets := BatchTargets(db, db.batches[tag], {Active, Quarantined});
    TargetsKnown(db, db.batches[tag], {Active, Quarantined});
    var retired := FlipAll(Mint(db, "revert_batch", tag), targets, Retired, Current(db) + 1);
    retired.(contradictions := CloseFlags(retired.contradictions, targets, Current(db) + 1))
  }

  function DropMembers(db: Tables, removed: set<nat>): Tables { db.(members := db.members - removed) }

  function Revert(db: Tables, tag: string): Result<Tables> {
    if tag !in db.batches then Err(UnknownBatch)
    else if BatchTargets(db, db.batches[tag], {Active, Quarantined}) == [] then Err(NothingToRevert)
    else
      var reverted := RevertFlips(db, tag);
      var removed := Orphaned(reverted, db.batches[tag]);
      if LeavesDanglingChild(reverted, removed) then Err(IntegrityViolation)
      else Ok(DropMembers(reverted, removed).(skills := reverted.skills - removed))
  }

  function FlipUnder(db: Tables, operation: string, detail: string, ids: seq<nat>, to: Status): Tables
    requires forall i :: i in ids ==> i in db.status
  {
    FlipAll(Mint(db, operation, detail), ids, to, Current(db) + 1)
  }

  function RetireInsight(db: Tables, i: nat, detail: string): Result<Tables> {
    if i !in db.status then Err(UnknownInsight)
    else if db.status[i] == Retired then Err(AlreadyRetired)
    else Ok(FlipUnder(db, "retire_insight", detail, [i], Retired))
  }

  function ReviveInsight(db: Tables, i: nat, detail: string): Result<Tables> {
    if i !in db.status then Err(UnknownInsight)
    else if db.status[i] != Retired && db.status[i] != Dormant then Err(NotRevivable)
    else Ok(FlipUnder(db, "revive_insight", detail, [i], Active))
  }

  /** Children in order, first mention only. */
  function Dedup(ids: seq<nat>): (r: seq<nat>)
    ensures Distinct(r) && Elements(r) == Elements(ids)
  {
    if ids == [] then []
    else
      var init, last := ids[..|ids| - 1], ids[|ids| - 1];
      var rest := Dedup(init);
      assert ids == init + [last];
      assert Elements(ids) == Elements(init) + {last};
      assert last in rest <==> last in Elements(rest);
      assert Elements(rest + [last]) == Elements(rest) + {last};
      if last in rest then rest else rest + [last]
  }

  /** What stops a consolidation, checked child by child in order. */
  function ChildError(db: Tables, children: seq<nat>, parent: nat): Option<Error> {
    if children == [] then None
    else
      var child := children[0];
      if child == parent then Some(OwnChild)
      else if child !in db.status then Some(UnknownInsight)
      else if db.status[child] == Retired then Some(RetiredChild)
      else ChildError(db, children[1..], parent)
  }

  /** The children stand in the order of their first mention. */
  lemma {:induction false} DedupOrder(ids: seq<nat>, a: nat, b: nat)
    requires a < b < |Dedup(ids)|
    ensures exists p :: 0 <= p < |ids| && ids[p] == Dedup(ids)[a] && Dedup(ids)[b] !in ids[..p + 1]
  {
    var init := ids[..|ids| - 1];
    assert Dedup(init) == Dedup(ids)[..|Dedup(init)|];
    if b < |Dedup(init)| {
      DedupOrder(init, a, b);
      var p :| 0 <= p < |init| && init[p] == Dedup(init)[a] && Dedup(init)[b] !in init[..p + 1];
      assert ids[..p + 1] == init[..p + 1] && ids[p] == Dedup(ids)[a];
    } else {
      assert Dedup(ids)[a] in Elements(Dedup(init)) && Dedup(ids)[b] !in Elements(Dedup(init));
      var p :| 0 <= p < |init| && init[p] == Dedup(ids)[a];
      assert Dedup(ids)[b] !in init && ids[p] == init[p];
      assert forall x :: x in ids[..p + 1] ==> x in init;
    }
  }

  /** A refused consolidation names what is wrong with the first child that is not admissible. */
  lemma {:induction false} FirstChildError(db: Tables, children: seq<nat>, parent: nat) returns (k: nat)
    requires ChildError(db, children, parent).Some?
    ensures k < |children|
    ensures forall j :: 0 <= j < k ==>
      children[j] != parent && children[j] in db.status && db.status[children[j]] != Retired
    ensures match ChildError(db, children, parent).value
      case OwnChild => children[k] == parent
      case UnknownInsight => children[k] != parent && children[k] !in db.status
      case RetiredChild => children[k] != parent && children[k] in db.status && db.status[children[k]] == Retired
      case _ => false
  {
    k := 0;
    if children[0] != parent && children[0] in db.status && db.status[children[0]] != Retired {
      k := FirstChildError(db, children[1..], parent);
      k := k + 1;
    }
  }

  lemma {:induction false} NoChildError(db: Tables, children: seq<nat>, parent: nat)
    ensures ChildError(db, children, parent) == None <==>
      forall c :: c in children ==> c != parent && c in db.status && db.status[c] != Retired
  {
    if children != [] {
      NoChildError(db, children[1..], parent);
      var child, rest := children[0], children[1..];
      assert children == [child] + rest;
      assert forall c :: c in children <==> c in [child] + rest;
      assert forall c :: c in rest ==> c in children;
      if child != parent && child in db.status && db.status[child] != Retired {
        assert ChildError(db, children, parent) == ChildError(db, rest, parent);
      } else {
        assert child in children;
      }
    }
  }

  function EvidenceEdges(parent: nat, children: seq<nat>): seq<InsightEdge> {
    if children == [] then []
    else
      var last := children[|children| - 1];
      EvidenceEdges(parent, children[..|children| - 1]) + [InsightEdge(parent, last, GeneralizesFrom)]
  }

  function Demote(db: Tables, children: seq<nat>, parent: nat, detail: string): Result<Tables> {
    var targets := Dedup(children);
    if parent !in db.status then Err(UnknownInsight)
    else if children == [] then Err(NoChildren)
    else if ChildError(db, targets, parent).Some? then Err(ChildError(db, targets, parent).value)
    else
      NoChildError(db, targets, parent);
      var flipped := FlipUnder(db, "consolidate", detail, targets, Dormant);
      Ok(flipped.(edges := flipped.edges + EvidenceEdges(parent, targets)))
  }

  /** A skill's members in append order, restricted to some statuses. */
  function MembersWith(status: map<nat, Status>, members: seq<nat>, statuses: set<Status>): seq<nat> {
    if members == [] then []
    else
      var last := members[|members| - 1];
      MembersWith(status, members[..|members| - 1], statuses)
      + if last in status && status[last] in statuses then [last] else []
  }

  lemma {:induction false} MembersWithMembers(status: map<nat, Status>, members: seq<nat>, statuses: set<Status>,
                                              i: nat)
    ensures i in MembersWith(status, members, statuses) <==> i in members && i in status && status[i] in statuses
  {
    if members != [] {
      MembersWithMembers(status, members[..|members| - 1], statuses, i);
      assert members == members[..|members| - 1] + [members[|members| - 1]];
    }
  }

  function SkillMembers(db: Tables, k: nat): seq<nat> { if k in db.members then db.members[k] else [] }

  function FlipSkill(db: Tables, k: nat, operation: string, detail: string, from: set<Status>, to: Status,
                     none: Error): Result<Tables>
  {
    if k !in db.skills then Err(UnknownSkill)
    else
      var targets := MembersWith(db.status, SkillMembers(db, k), from);
      if targets == [] then Err(none)
      else
        assert forall i :: i in targets ==> i in db.status by {
          forall i | i in targets ensures i in db.status {
            MembersWithMembers(db.status, SkillMembers(db, k), from, i);
          }
        }
        Ok(FlipUnder(db, operation, detail, targets, to))
  }

  function RetireSkill(db: Tables, k: nat, detail: string): Result<Tables> {
    FlipSkill(db, k, "retire_skill", detail, {Quarantined, Active, Dormant}, Retired, NothingToRetire)
  }

  function ReviveSkill(db: Tables, k: nat, detail: string): Result<Tables> {
    FlipSkill(db, k, "revive_skill", detail, {Retired}, Active, NothingToRevive)
  }

  // --------------------------------------------- every command is one queue step

  function Pairs(ids: seq<nat>, to: Status): seq<(nat, Status)> {
    if ids == [] then [] else Pairs(ids[..|ids| - 1], to) + [(ids[|ids| - 1], to)]
  }

  lemma {:induction false} PairsKnown(ids: seq<nat>, to: Status, known: set<nat>)
    requires forall i :: i in ids ==> i in known
    ensures forall f :: f in Pairs(ids, to) ==> f.0 in known
  {
    if ids != [] {
      PairsKnown(ids[..|ids| - 1], to, known);
    }
  }

  /** The log of now is the log of base after the flips. */
  ghost predicate Under(base: Tables, now: Tables, flips: seq<(nat, Status)>, snapshot: nat) {
    && (forall f :: f in flips ==> f.0 in base.status)
    && LogOf(now) == LogOf(Flips(base, flips, snapshot))
  }

  lemma UnderNothing(db: Tables, operation: string, detail: string, snapshot: nat)
    ensures var minted := Mint(db, operation, detail);
      Under(minted, minted, [], snapshot) && minted.status == db.status
  {
    hide MaxId;
  }

  lemma NothingBefore(ids: seq<nat>, to: Status)
    ensures [] + Pairs(ids, to) == Pairs(ids, to)
  {
    hide Pairs;
  }

  lemma UnderFlip(base: Tables, now: Tables, flips: seq<(nat, Status)>, snapshot: nat, i: nat, to: Status)
    requires Under(base, now, flips, snapshot) && i in now.status
    ensures Under(base, Flip(now, i, to, snapshot), flips + [(i, to)], snapshot)
  {
    assert (flips + [(i, to)])[..|flips|] == flips;
  }

  lemma {:induction false} UnderFlipAll(base: Tables, now: Tables, flips: seq<(nat, Status)>, snapshot: nat,
                                        ids: seq<nat>, to: Status)
    requires Under(base, now, flips, snapshot) && forall i :: i in ids ==> i in now.status
    ensures Under(base, FlipAll(now, ids, to, snapshot), flips + Pairs(ids, to), snapshot)
  {
    if ids == [] {
      assert flips + Pairs(ids, to) == flips;
    } else {
      var init, last := ids[..|ids| - 1], ids[|ids| - 1];
      UnderFlipAll(base, now, flips, snapshot, init, to);
      UnderFlip(base, FlipAll(now, init, to, snapshot), flips + Pairs(init, to), snapshot, last, to);
      assert flips + Pairs(ids, to) == flips + Pairs(init, to) + [(last, to)];
    }
  }

  lemma {:induction false} UnderResolve(base: Tables, now: Tables, flips: seq<(nat, Status)>, snapshot: nat,
                                        edges: seq<InsightEdge>, confirm: (Atom, Atom) -> bool)
    requires Under(base, now, flips, snapshot) && forall e :: e in edges ==> e.dst in now.status
    ensures var (after, retired) := Resolve(now, edges, confirm, snapshot);
      Under(base, after, flips + Pairs(retired, Retired), snapshot)
  {
    if edges == [] {
      assert flips + Pairs([], Retired) == flips;
    } else {
      hide Under, ResolveEdge, Pairs;
      var e, init := edges[|edges| - 1], edges[..|edges| - 1];
      assert e in edges && forall f :: f in init ==> f in edges;
      UnderResolve(base, now, flips, snapshot, init, confirm);
      UnderEdge(base, Resolve(now, init, confirm, snapshot), flips, snapshot, e, confirm);
    }
  }

  lemma UnderEdge(base: Tables, sofar: (Tables, seq<nat>), flips: seq<(nat, Status)>, snapshot: nat,
                  e: InsightEdge, confirm: (Atom, Atom) -> bool)
    requires Under(base, sofar.0, flips + Pairs(sofar.1, Retired), snapshot) && e.dst in sofar.0.status
    ensures var (after, retired) := ResolveEdge(sofar, e, confirm, snapshot);
      Under(base, after, flips + Pairs(retired, Retired), snapshot)
  {
    hide Defeats, Flips, Pairs;
    var (mid, retired) := sofar;
    if e.dst !in retired && Defeats(mid, confirm, e) {
      DefeatsKnown(mid, confirm, e);
      SameLogUnder(base, mid, Invalidate(mid, e.dst, snapshot), flips + Pairs(retired, Retired), snapshot);
      UnderFlip(base, Invalidate(mid, e.dst, snapshot), flips + Pairs(retired, Retired), snapshot, e.dst, Retired);
      PairsNext(flips, retired, e.dst, Retired);
    }
  }

  lemma SameLogUnder(base: Tables, now: Tables, same: Tables, flips: seq<(nat, Status)>, snapshot: nat)
    requires Under(base, now, flips, snapshot) && LogOf(same) == LogOf(now)
    ensures Under(base, same, flips, snapshot)
  {
    hide Flips;
  }

  lemma PairsNext(flips: seq<(nat, Status)>, ids: seq<nat>, i: nat, to: Status)
    ensures flips + Pairs(ids + [i], to) == flips + Pairs(ids, to) + [(i, to)]
  {
    assert (ids + [i])[..|ids|] == ids;
    assert flips + (Pairs(ids, to) + [(i, to)]) == flips + Pairs(ids, to) + [(i, to)];
  }

  /** Promotion: the admissions first, then the retirements, all under one snapshot. */
  lemma {:induction false} PromoteIsStep(db: Tables, tag: string, confirm: (Atom, Atom) -> bool)
    requires Promote(db, tag, confirm).Ok?
    ensures var (after, retired) := Promote(db, tag, confirm).value;
      var targets := BatchTargets(db, db.batches[tag], {Quarantined});
      Step(db, after, Operation("promote_batch", tag, Pairs(targets, Active) + Pairs(retired, Retired)))
  {
    hide Flips, Pairs, FlipAll, Mint, BatchTargets, OpenEdges, Resolve, MaxId;
    var targets, snapshot := BatchTargets(db, db.batches[tag], {Quarantined}), Current(db) + 1;
    var minted := Mint(db, "promote_batch", tag);
    TargetsKnown(db, db.batches[tag], {Quarantined});
    UnderNothing(db, "promote_batch", tag, snapshot);
    UnderFlipAll(minted, minted, [], snapshot, targets, Active);
    NothingBefore(targets, Active);
    var admitted := Admit(db, tag, targets);
    var edges := OpenEdges(admitted, targets, admitted.edges);
    OpenEdgesKnown(admitted, targets, admitted.edges);
    UnderResolve(minted, admitted, Pairs(targets, Active), snapshot, edges, confirm);
  }

  lemma {:induction false} FlipUnderIsStep(db: Tables, after: Tables, operation: string, detail: string, ids: seq<nat>,
                                           to: Status)
    requires forall i :: i in ids ==> i in db.status
    requires LogOf(after) == LogOf(FlipUnder(db, operation, detail, ids, to))
    ensures Step(db, after, Operation(operation, detail, Pairs(ids, to)))
  {
    hide Flips, Pairs, FlipAll, Mint, MaxId;
    var minted := Mint(db, operation, detail);
    UnderNothing(db, operation, detail, Current(db) + 1);
    UnderFlipAll(minted, minted, [], Current(db) + 1, ids, to);
    NothingBefore(ids, to);
  }

  /** Every other command is one queue step as well, with the flips it names. */
  lemma {:induction false} RevertIsStep(db: Tables, tag: string)
    requires Revert(db, tag).Ok?
    ensures Step(db, Revert(db, tag).value,
      Operation("revert_batch", tag, Pairs(BatchTargets(db, db.batches[tag], {Active, Quarantined}), Retired)))
  {
    TargetsKnown(db, db.batches[tag], {Active, Quarantined});
    FlipUnderIsStep(db, Revert(db, tag).value, "revert_batch", tag,
                    BatchTargets(db, db.batches[tag], {Active, Quarantined}), Retired);
  }

  lemma {:induction false} SingleFlipIsStep(db: Tables, i: nat, operation: string, detail: string, to: Status)
    requires i in db.status
    ensures Step(db, FlipUnder(db, operation, detail, [i], to), Operation(operation, detail, [(i, to)]))
  {
    FlipUnderIsStep(db, FlipUnder(db, operation, detail, [i], to), operation, detail, [i], to);
    assert [i][..0] == [];
    assert Pairs([i], to) == [(i, to)];
  }

  lemma {:induction false} DemoteIsStep(db: Tables, children: seq<nat>, parent: nat, detail: string)
    requires Demote(db, children, parent, detail).Ok?
    ensures Step(db, Demote(db, children, parent, detail).value,
      Operation("consolidate", detail, Pairs(Dedup(children), Dormant)))
  {
    NoChildError(db, Dedup(children), parent);
    FlipUnderIsStep(db, Demote(db, children, parent, detail).value, "consolidate", detail, Dedup(children), Dormant);
  }

  lemma {:induction false} FlipSkillIsStep(db: Tables, k: nat, operation: string, detail: string, from: set<Status>,
                                           to: Status, none: Error)
    requires FlipSkill(db, k, operation, detail, from, to, none).Ok?
    ensures Step(db, FlipSkill(db, k, operation, detail, from, to, none).value,
      Operation(operation, detail, Pairs(MembersWith(db.status, SkillMembers(db, k), from), to)))
  {
    var targets := MembersWith(db.status, SkillMembers(db, k), from);
    forall i | i in targets ensures i in db.status {
      MembersWithMembers(db.status, SkillMembers(db, k), from, i);
    }
    FlipUnderIsStep(db, FlipUnder(db, operation, detail, targets, to), operation, detail, targets, to);
  }

  // ------------------------------------------------------------ promote, revert

  lemma {:induction false} FlipAllEffect(db: Tables, ids: seq<nat>, to: Status, snapshot: nat)
    requires forall i :: i in ids ==> i in db.status
    ensures var after := FlipAll(db, ids, to, snapshot);
      after == db.(status := map i | i in db.status :: if i in ids then to else db.status[i],
                   transitions := after.transitions)
  {
    if ids != [] {
      var init, last := ids[..|ids| - 1], ids[|ids| - 1];
      FlipAllEffect(db, init, to, snapshot);
      assert forall i :: i in ids <==> i == last || i in init;
    }
  }

  /** Retiring one insight moves that insight alone. */
  lemma RetireEffect(db: Tables, i: nat, detail: string)
    ensures match RetireInsight(db, i, detail)
      case Err(error) =>
        if i !in db.status then error == UnknownInsight else error == AlreadyRetired && db.status[i] == Retired
      case Ok(after) =>
        && i in db.status && db.status[i] != Retired
        && after == Mint(db, "retire_insight", detail).(status := db.status[i := Retired],
             transitions := db.transitions + [Transition(i, db.status[i], Retired, Current(db) + 1)])
  {
    hide MaxId;
    OneFlip(db, "retire_insight", detail, i, Retired);
  }

  /** So does reviving one, which takes a retired or dormant one. */
  lemma ReviveEffect(db: Tables, i: nat, detail: string)
    ensures match ReviveInsight(db, i, detail)
      case Err(error) =>
        if i !in db.status then error == UnknownInsight
        else error == NotRevivable && db.status[i] in {Quarantined, Active}
      case Ok(after) =>
        && i in db.status && db.status[i] in {Retired, Dormant}
        && after == Mint(db, "revive_insight", detail).(status := db.status[i := Active],
             transitions := db.transitions + [Transition(i, db.status[i], Active, Current(db) + 1)])
  {
    hide MaxId;
    OneFlip(db, "revive_insight", detail, i, Active);
  }

  lemma OneFlip(db: Tables, operation: string, detail: string, i: nat, to: Status)
    ensures i in db.status ==>
      FlipUnder(db, operation, detail, [i], to) == Flip(Mint(db, operation, detail), i, to, Current(db) + 1)
  {
    hide MaxId;
    if i in db.status {
      var ids: seq<nat> := [i];
      assert ids[..0] == [] && ids[0] == i;
      assert FlipAll(Mint(db, operation, detail), ids[..0], to, Current(db) + 1) == Mint(db, operation, detail);
    }
  }

  /** Consolidating sends every child to dormant and the parent nowhere, and adds one evidence edge from the
      parent to each child. */
  lemma DemoteEffect(db: Tables, children: seq<nat>, parent: nat, detail: string)
    requires Demote(db, children, parent, detail).Ok?
    ensures var after := Demote(db, children, parent, detail).value;
      && after.status == (map i | i in db.status :: if i in children then Dormant else db.status[i])
      && parent in db.status && parent !in children && children != []
      && |after.edges| == |db.edges| + |Dedup(children)| && after.edges[..|db.edges|] == db.edges
      && (forall k :: 0 <= k < |Dedup(children)| ==>
           after.edges[|db.edges| + k] == InsightEdge(parent, Dedup(children)[k], GeneralizesFrom))
      && after == Mint(db, "consolidate", detail).(status := after.status, transitions := after.transitions,
                                                   edges := after.edges)
  {
    hide MaxId, FlipAll, ChildError, Dedup;
    var targets := Dedup(children);
    NoChildError(db, targets, parent);
    FlipAllEffect(Mint(db, "consolidate", detail), targets, Dormant, Current(db) + 1);
    EvidenceEdgesAre(parent, targets);
    forall i ensures i in targets <==> i in children {
      assert i in targets <==> i in Elements(targets);
      assert i in children <==> i in Elements(children);
    }
  }

  lemma {:induction false} EvidenceEdgesAre(parent: nat, children: seq<nat>)
    ensures |EvidenceEdges(parent, children)| == |children|
    ensures forall k :: 0 <= k < |children| ==>
      EvidenceEdges(parent, children)[k] == InsightEdge(parent, children[k], GeneralizesFrom)
  {
    if children != [] {
      EvidenceEdgesAre(parent, children[..|children| - 1]);
    }
  }

  /** A consolidation is refused for an unknown parent, then for want of children, then for a child. */
  lemma DemoteRefusal(db: Tables, children: seq<nat>, parent: nat, detail: string)
    ensures match Demote(db, children, parent, detail)
      case Err(error) =>
        if parent !in db.status then error == UnknownInsight
        else if children == [] then error == NoChildren
        else ChildError(db, Dedup(children), parent) == Some(error)
      case Ok(_) => parent in db.status && children != []
  {
    hide FlipUnder, ChildError, Dedup, EvidenceEdges;
    NoChildError(db, Dedup(children), parent);
  }

  /** A membership row holds. */
  predicate Member(db: Tables, k: nat, i: nat) { k in db.members && i in db.members[k] }

  /** Retiring a skill retires its members, whatever state they are in, and touches nothing else but the log. */
  lemma RetireSkillEffect(db: Tables, k: nat, detail: string)
    ensures match RetireSkill(db, k, detail)
      case Err(error) =>
        if k !in db.skills then error == UnknownSkill
        else error == NothingToRetire && forall i :: Member(db, k, i) && i in db.status ==> db.status[i] == Retired
      case Ok(after) =>
        && k in db.skills && (exists i :: Member(db, k, i) && i in db.status && db.status[i] != Retired)
        && after.status == (map i | i in db.status :: if Member(db, k, i) then Retired else db.status[i])
        && after == Mint(db, "retire_skill", detail).(status := after.status, transitions := after.transitions)
  {
    hide FlipSkill;
    FlipSkillEffect(db, k, "retire_skill", detail, {Quarantined, Active, Dormant}, Retired, NothingToRetire);
  }

  /** Reviving a skill makes its retired members active and leaves every other status alone. */
  lemma ReviveSkillEffect(db: Tables, k: nat, detail: string)
    ensures match ReviveSkill(db, k, detail)
      case Err(error) =>
        if k !in db.skills then error == UnknownSkill
        else error == NothingToRevive && forall i :: Member(db, k, i) && i in db.status ==> db.status[i] != Retired
      case Ok(after) =>
        && k in db.skills && (exists i :: Member(db, k, i) && i in db.status && db.status[i] == Retired)
        && after.status == (map i | i in db.status ::
             if Member(db, k, i) && db.status[i] == Retired then Active else db.status[i])
        && after == Mint(db, "revive_skill", detail).(status := after.status, transitions := after.transitions)
  {
    hide FlipSkill;
    FlipSkillEffect(db, k, "revive_skill", detail, {Retired}, Active, NothingToRevive);
  }

  lemma FlipSkillEffect(db: Tables, k: nat, operation: string, detail: string, from: set<Status>, to: Status,
                        none: Error)
    ensures match FlipSkill(db, k, operation, detail, from, to, none)
      case Err(error) =>
        if k !in db.skills then error == UnknownSkill
        else error == none && forall i :: Member(db, k, i) && i in db.status ==> db.status[i] !in from
      case Ok(after) =>
        && k in db.skills && (exists i :: Member(db, k, i) && i in db.status && db.status[i] in from)
        && after.status == (map i | i in db.status ::
             if Member(db, k, i) && db.status[i] in from then to else db.status[i])
        && after == Mint(db, operation, detail).(status := after.status, transitions := after.transitions)
  {
    hide MaxId, FlipAll, MembersWith;
    var targets := MembersWith(db.status, SkillMembers(db, k), from);
    forall i ensures i in targets <==> Member(db, k, i) && i in db.status && db.status[i] in from {
      MembersWithMembers(db.status, SkillMembers(db, k), from, i);
    }
    if k in db.skills && targets != [] {
      FlipAllEffect(Mint(db, operation, detail), targets, to, Current(db) + 1);
      assert targets[0] in targets && Member(db, k, targets[0]);
    }
  }

  function ActiveSet(db: Tables): set<nat> { set i | i in db.status && db.status[i] == Active }

  /** The insights a promotion admits. */
  ghost function Admitted(db: Tables, tag: string): set<nat>
    requires tag in db.batches
  {
    set i | i in db.status && i in db.insights && db.insights[i].batch == Some(db.batches[tag])
      && db.status[i] == Quarantined
  }

  /** Live when the promotion looks, and contradicted by a stronger admitted insight: the re-check, asked about
      the incumbent's text first, still confirms it. */
  ghost predicate Superseded(db: Tables, tag: string, confirm: (Atom, Atom) -> bool, i: nat)
    requires tag in db.batches
  {
    && i in db.status && i in db.insights && db.status[i] != Retired && db.insights[i].invalidAt == None
    && exists e :: e in db.edges && e.dst == i && e.kind == Contradicts && e.src in Admitted(db, tag)
         && Confirmed(confirm, db.insights[i], db.insights[e.src]) && Stronger(db, e.src, i)
  }

  ghost predicate Confirmed(confirm: (Atom, Atom) -> bool, incumbent: Insight, challenger: Insight) {
    confirm(Atom(incumbent.precondition, incumbent.action, incumbent.outcome),
            Atom(challenger.precondition, challenger.action, challenger.outcome))
  }

  /** One promotion admits the batch and retires exactly the superseded incumbents. */
  lemma {:induction false} PromoteEffect(db: Tables, tag: string, confirm: (Atom, Atom) -> bool)
    requires Promote(db, tag, confirm).Ok?
    ensures var (after, retired) := Promote(db, tag, confirm).value;
      && Distinct(retired)
      && (forall i :: i in retired <==> Superseded(db, tag, confirm, i))
      && after.status == (map i | i in db.status ::
           if i in retired then Retired else if i in Admitted(db, tag) then Active else db.status[i])
      && after.insights == InvalidateAll(db.insights, Elements(retired), Current(db) + 1)
      && after.skills == db.skills && after.members == db.members && after.batches == db.batches
      && after.edges == db.edges && after.votes == db.votes && after.contradictions == db.contradictions
      && after.snapshots == Mint(db, "promote_batch", tag).snapshots
      && after.queue == Mint(db, "promote_batch", tag).queue
  {
    hide MaxId, BatchTargets, FlipAll, OpenEdges, Resolve, Losers, Superseded, RetireAll, InvalidateAll, Admitted;
    var snapshot, targets := Current(db) + 1, BatchTargets(db, db.batches[tag], {Quarantined});
    TargetsKnown(db, db.batches[tag], {Quarantined});
    AdmittedTargets(db, tag);
    var admitted := Admit(db, tag, targets);
    FlipAllEffect(Mint(db, "promote_batch", tag), targets, Active, snapshot);
    var edges := OpenEdges(admitted, targets, admitted.edges);
    OpenEdgesKnown(admitted, targets, admitted.edges);
    ResolveExact(admitted, edges, confirm, snapshot);
    var (after, retired) := Promote(db, tag, confirm).value;
    assert forall i :: i in retired <==> i in Losers(admitted, edges, confirm) by {
      assert forall i :: i in retired <==> i in Elements(retired);
    }
    LosersAreSuperseded(db, tag, admitted, targets, confirm);
    AdmittedThenRetired(db.status, targets, Losers(admitted, edges, confirm), retired, Admitted(db, tag));
  }

  /** A promotion goes ahead exactly when the batch exists and holds something quarantined. */
  lemma PromoteSucceedsIff(db: Tables, tag: string, confirm: (Atom, Atom) -> bool)
    ensures Promote(db, tag, confirm) == Err(UnknownBatch) <==> tag !in db.batches
    ensures Promote(db, tag, confirm) == Err(NothingToPromote) <==> tag in db.batches && Admitted(db, tag) == {}
    ensures Promote(db, tag, confirm).Ok? <==> tag in db.batches && Admitted(db, tag) != {}
  {
    hide Resolve, BatchTargets, Admit, OpenEdges, Admitted;
    if tag in db.batches {
      AdmittedTargets(db, tag);
      ElementsEmpty(BatchTargets(db, db.batches[tag], {Quarantined}));
    }
  }

  lemma AdmittedThenRetired(status: map<nat, Status>, targets: seq<nat>, losers: set<nat>, retired: seq<nat>,
                            admitted: set<nat>)
    requires forall i :: i in retired <==> i in losers
    requires forall i :: i in targets <==> i in admitted
    ensures RetireAll(map i | i in status :: if i in targets then Active else status[i], losers)
         == map i | i in status :: if i in retired then Retired else if i in admitted then Active else status[i]
  {
  }

  lemma LosersAreSuperseded(db: Tables, tag: string, admitted: Tables, targets: seq<nat>, confirm: (Atom, Atom) -> bool)
    requires tag in db.batches
    requires forall t :: t in targets <==> t in Admitted(db, tag)
    requires admitted.status == (map t | t in db.status :: if t in targets then Active else db.status[t])
    requires admitted.insights == db.insights && admitted.votes == db.votes && admitted.edges == db.edges
    ensures forall i :: i in Losers(admitted, OpenEdges(admitted, targets, admitted.edges), confirm) <==>
      Superseded(db, tag, confirm, i)
  {
    forall i
      ensures i in Losers(admitted, OpenEdges(admitted, targets, db.edges), confirm) <==>
        Superseded(db, tag, confirm, i)
    {
      SupersededIsLoser(db, tag, admitted, targets, confirm, i);
    }
  }

  lemma AdmittedTargets(db: Tables, tag: string)
    requires tag in db.batches
    ensures forall i :: i in BatchTargets(db, db.batches[tag], {Quarantined}) <==> i in Admitted(db, tag)
  {
    forall i ensures i in BatchTargets(db, db.batches[tag], {Quarantined}) <==> i in Admitted(db, tag) {
      BatchTargetsMembers(db, db.batches[tag], {Quarantined}, i);
    }
  }

  lemma SupersededIsLoser(db: Tables, tag: string, admitted: Tables, targets: seq<nat>, confirm: (Atom, Atom) -> bool,
                          i: nat)
    requires tag in db.batches
    requires forall t :: t in targets <==> t in Admitted(db, tag)
    requires admitted.status == (map t | t in db.status :: if t in targets then Active else db.status[t])
    requires admitted.insights == db.insights && admitted.votes == db.votes && admitted.edges == db.edges
    ensures i in Losers(admitted, OpenEdges(admitted, targets, db.edges), confirm) <==> Superseded(db, tag, confirm, i)
  {
    var edges := OpenEdges(admitted, targets, db.edges);
    forall e ensures e in edges && Defeats(admitted, confirm, e) <==>
      e in db.edges && OpenEdge(admitted, targets, e) && Defeats(db, confirm, e)
    {
      OpenEdgesMembers(admitted, targets, db.edges, e);
    }
    forall e ensures OpenEdge(admitted, targets, e) <==>
      (e.kind == Contradicts && e.src in Admitted(db, tag) && e.dst in db.status && e.dst in db.insights
       && db.status[e.dst] != Retired && db.insights[e.dst].invalidAt == None)
    {
    }
    forall e: InsightEdge | e.src in db.insights && e.dst in db.insights
      ensures Defeats(db, confirm, e) <==>
        Confirmed(confirm, db.insights[e.dst], db.insights[e.src]) && Stronger(db, e.src, e.dst)
    {
      BeatsExactly(db, e.src, e.dst);
    }
  }

  /** Whatever contradicts it, the admitted insight that beats all other admitted ones comes out active. */
  lemma {:induction false} StrongestSurvives(db: Tables, tag: string, confirm: (Atom, Atom) -> bool) returns (top: nat)
    requires Consistent(db) && Promote(db, tag, confirm).Ok?
    ensures top in Admitted(db, tag) && top in Promote(db, tag, confirm).value.0.status
    ensures forall i :: i in Admitted(db, tag) && i != top ==> Stronger(db, top, i)
    ensures Promote(db, tag, confirm).value.0.status[top] == Active
  {
    PromoteEffect(db, tag, confirm);
    AdmittedTargets(db, tag);
    var targets := BatchTargets(db, db.batches[tag], {Quarantined});
    assert targets[0] in Admitted(db, tag);
    top := StrongestExists(db, Admitted(db, tag));
    StrongestIsNotSuperseded(db, tag, confirm, top);
    forall i | i in Admitted(db, tag) && i != top ensures Stronger(db, top, i) {
      BeatsExactly(db, top, i);
    }
  }

  lemma StrongestIsNotSuperseded(db: Tables, tag: string, confirm: (Atom, Atom) -> bool, top: nat)
    requires tag in db.batches && top in db.insights
    requires forall i :: i in Admitted(db, tag) && i != top ==> Beats(db, top, i)
    ensures !Superseded(db, tag, confirm, top)
  {
    forall e | e in db.edges && e.dst == top && e.src in Admitted(db, tag) ensures !Stronger(db, e.src, top) {
      BeatsExactly(db, e.src, top);
      BeatsStrictTotal(db, top, e.src, top);
      BeatsStrictTotal(db, top, top, top);
    }
  }

  /** Created by the batch, and every member belongs to it. */
  ghost predicate OnlyOf(db: Tables, batch: nat, k: nat)
    requires k in db.skills
  {
    && db.skills[k].createdBatch == Some(batch)
    && forall i :: k in db.members && i in db.members[k] && i in db.insights ==> db.insights[i].batch == Some(batch)
  }

  lemma {:induction false} RevertEffect(db: Tables, tag: string)
    requires Revert(db, tag).Ok?
    ensures var after := Revert(db, tag).value;
      var removed := set k | k in db.skills && OnlyOf(db, db.batches[tag], k);
      && after.status == (map i | i in db.status :: if Reverts(db, db.batches[tag], i) then Retired else db.status[i])
      && after.insights == db.insights && after.edges == db.edges
      && after.skills == db.skills - removed && after.members == db.members - removed
      && after.batches == db.batches && after.votes == db.votes
      && after.snapshots == Mint(db, "revert_batch", tag).snapshots
      && after.queue == Mint(db, "revert_batch", tag).queue
      && |after.contradictions| == |db.contradictions|
      && forall f :: 0 <= f < |db.contradictions| ==>
           var flag := db.contradictions[f];
           after.contradictions[f] ==
             if flag.open && Reverts(db, db.batches[tag], flag.challenger)
             then flag.(open := false, closedSnapshot := Some(Current(db) + 1)) else flag
  {
    hide MaxId, BatchTargets, FlipAll, Reverts, CloseFlags, LeavesDanglingChild, Orphaned, OnlyOf;
    var targets := BatchTargets(db, db.batches[tag], {Active, Quarantined});
    TargetsKnown(db, db.batches[tag], {Active, Quarantined});
    FlipAllEffect(Mint(db, "revert_batch", tag), targets, Retired, Current(db) + 1);
    RevertTargets(db, db.batches[tag]);
    SameOrphans(db, RevertFlips(db, tag), db.batches[tag]);
    OrphanedExactly(db, db.batches[tag]);
  }

  lemma OrphanedExactly(db: Tables, batch: nat)
    ensures Orphaned(db, batch) == set k | k in db.skills && OnlyOf(db, batch, k)
    ensures LeavesDanglingChild(db, Orphaned(db, batch)) <==> Stranded(db, batch)
  {
  }

  /** Some skill that holds outside members, or was not created by the batch, names one that would go as its parent. */
  ghost predicate Stranded(db: Tables, batch: nat) {
    exists k, p :: k in db.skills && p in db.skills && db.skills[k].parent == Some(p)
      && OnlyOf(db, batch, p) && !OnlyOf(db, batch, k)
  }

  lemma RevertTargets(db: Tables, batch: nat)
    ensures forall i :: i in BatchTargets(db, batch, {Active, Quarantined}) <==> Reverts(db, batch, i)
  {
    forall i ensures i in BatchTargets(db, batch, {Active, Quarantined}) <==> Reverts(db, batch, i) {
      BatchTargetsMembers(db, batch, {Active, Quarantined}, i);
    }
  }

  /** The insights a revert of the batch retires. */
  predicate Reverts(db: Tables, batch: nat, i: nat) {
    i in db.status && i in db.insights && db.insights[i].batch == Some(batch) && db.status[i] in {Active, Quarantined}
  }

  /** A revert fails in exactly three ways, the last being a child skill left pointing at a removed parent. */
  lemma {:induction false} RevertSucceedsIff(db: Tables, tag: string)
    ensures Revert(db, tag) == Err(UnknownBatch) <==> tag !in db.batches
    ensures Revert(db, tag) == Err(NothingToRevert) <==>
      tag in db.batches && !exists i :: Reverts(db, db.batches[tag], i)
    ensures Revert(db, tag) == Err(IntegrityViolation) <==>
      tag in db.batches && (exists i :: Reverts(db, db.batches[tag], i)) && Stranded(db, db.batches[tag])
    ensures Revert(db, tag).Ok? <==>
      tag in db.batches && (exists i :: Reverts(db, db.batches[tag], i)) && !Stranded(db, db.batches[tag])
  {
    hide Orphaned, LeavesDanglingChild, Stranded, Reverts, MaxId, BatchTargets, FlipAll;
    if tag in db.batches {
      OrphanedExactly(db, db.batches[tag]);
      var targets := BatchTargets(db, db.batches[tag], {Active, Quarantined});
      TargetsKnown(db, db.batches[tag], {Active, Quarantined});
      FlipAllEffect(Mint(db, "revert_batch", tag), targets, Retired, Current(db) + 1);
      SameOrphans(db, RevertFlips(db, tag), db.batches[tag]);
      RevertTargets(db, db.batches[tag]);
      if targets != [] {
        assert Reverts(db, db.batches[tag], targets[0]);
      }
    }
  }

  lemma PromotedKnown(db: Tables, tag: string, confirm: (Atom, Atom) -> bool)
    requires Promote(db, tag, confirm).Ok?
    ensures tag in db.batches
  {
    hide Resolve, BatchTargets, Admit, OpenEdges;
  }

  /** A batch just promoted can be reverted exactly when no skill that stays names one that would go as its
      parent; the only way it fails is that reference. */
  lemma {:induction false} RevertAfterPromoteIff(db: Tables, tag: string, confirm: (Atom, Atom) -> bool)
    requires Consistent(db) && Promote(db, tag, confirm).Ok?
    ensures var promoted := Promote(db, tag, confirm).value.0;
      && tag in db.batches && tag in promoted.batches && promoted.batches[tag] == db.batches[tag]
      && (Revert(promoted, tag).Ok? <==> !Stranded(db, db.batches[tag]))
      && (!Revert(promoted, tag).Ok? ==> Revert(promoted, tag) == Err(IntegrityViolation))
  {
    hide Promote, Revert, Consistent, Superseded, OnlyOf, Stranded, Admitted, MaxId, Mint;
    PromotedKnown(db, tag, confirm);
    PromoteEffect(db, tag, confirm);
    var promoted, batch := Promote(db, tag, confirm).value.0, db.batches[tag];
    var top := StrongestSurvives(db, tag, confirm);
    AdmittedKnown(db, tag, top);
    assert Reverts(promoted, batch, top);
    SameStranded(db, promoted, batch);
    RevertSucceedsIff(promoted, tag);
  }

  lemma SameStranded(db: Tables, promoted: Tables, batch: nat)
    requires promoted.skills == db.skills && promoted.members == db.members
    requires promoted.insights.Keys == db.insights.Keys
    requires forall i :: i in db.insights ==> promoted.insights[i].batch == db.insights[i].batch
    ensures forall k :: k in db.skills ==> (OnlyOf(promoted, batch, k) <==> OnlyOf(db, batch, k))
    ensures Stranded(promoted, batch) <==> Stranded(db, batch)
  {
  }

  lemma AdmittedKnown(db: Tables, tag: string, i: nat)
    requires tag in db.batches && i in Admitted(db, tag)
    ensures i in db.status && i in db.insights && db.insights[i].batch == Some(db.batches[tag])
  {
  }

  /** Promote then revert of a batch with nothing active: what is left of it. */
  lemma {:induction false} PromoteThenRevert(db: Tables, tag: string, confirm: (Atom, Atom) -> bool)
    requires Consistent(db) && Promote(db, tag, confirm).Ok?
    requires forall i :: i in ActiveSet(db) && i in db.insights ==> db.insights[i].batch != Some(db.batches[tag])
    ensures var (promoted, retired) := Promote(db, tag, confirm).value;
      var removed := set k | k in db.skills && OnlyOf(db, db.batches[tag], k);
      && (Revert(promoted, tag).Ok? <==> !Stranded(db, db.batches[tag]))
      && (Revert(promoted, tag).Ok? ==>
           var after := Revert(promoted, tag).value;
           && ActiveSet(after) == ActiveSet(db) - Elements(retired)
           && after.skills == db.skills - removed && after.members == db.members - removed
           && after.insights.Keys == db.insights.Keys && Consistent(after))
  {
    hide Promote, Revert, Superseded, OnlyOf, Stranded, MaxId, Mint;
    PromotedKnown(db, tag, confirm);
    var (promoted, retired) := Promote(db, tag, confirm).value;
    var batch := db.batches[tag];
    PromoteEffect(db, tag, confirm);
    RevertAfterPromoteIff(db, tag, confirm);
    SameStranded(db, promoted, batch);
    if Revert(promoted, tag).Ok? {
      RevertEffect(promoted, tag);
      RevertedActives(db, promoted, Revert(promoted, tag).value, batch, retired);
      RevertKeepsConsistent(promoted, Revert(promoted, tag).value, batch);
      assert (set k | k in db.skills && OnlyOf(db, batch, k)) == set k | k in db.skills && OnlyOf(promoted, batch, k);
    }
  }

  lemma SameOrphans(db: Tables, promoted: Tables, batch: nat)
    requires promoted.skills == db.skills && promoted.members == db.members
    requires promoted.insights.Keys == db.insights.Keys
    requires forall i :: i in db.insights ==> promoted.insights[i].batch == db.insights[i].batch
    ensures Orphaned(promoted, batch) == Orphaned(db, batch)
    ensures LeavesDanglingChild(promoted, Orphaned(db, batch)) == LeavesDanglingChild(db, Orphaned(db, batch))
  {
  }

  lemma RevertedActives(db: Tables, promoted: Tables, after: Tables, batch: nat, retired: seq<nat>)
    requires Consistent(db) && promoted.insights.Keys == db.insights.Keys
    requires forall i :: i in db.insights ==> promoted.insights[i].batch == db.insights[i].batch
    requires forall i :: i in ActiveSet(db) && i in db.insights ==> db.insights[i].batch != Some(batch)
    requires promoted.status.Keys == db.status.Keys
    requires after.status.Keys == db.status.Keys
    requires forall i :: i in db.status ==> (promoted.status[i] ==
      if i in retired then Retired
      else if db.insights[i].batch == Some(batch) && db.status[i] == Quarantined then Active
      else db.status[i])
    requires forall i :: i in db.status ==> (after.status[i] ==
      if db.insights[i].batch == Some(batch) && promoted.status[i] in {Active, Quarantined} then Retired
      else promoted.status[i])
    ensures ActiveSet(after) == ActiveSet(db) - Elements(retired)
  {
    forall i | i in db.status ensures i in ActiveSet(after) <==> i in ActiveSet(db) && i !in retired {
      if i in ActiveSet(db) {
        assert db.insights[i].batch != Some(batch);
      }
    }
  }

  lemma RevertKeepsConsistent(db: Tables, after: Tables, batch: nat)
    requires db.status.Keys == db.insights.Keys && db.members.Keys == db.skills.Keys
    requires forall k, i :: k in db.members && i in db.members[k] ==> i in db.insights
    requires forall e :: e in db.edges ==> e.src in db.insights && e.dst in db.insights
    requires forall k :: k in db.skills && db.skills[k].parent.Some? ==> db.skills[k].parent.value in db.skills
    requires after.status.Keys == db.status.Keys && after.insights == db.insights && after.edges == db.edges
    requires var removed := set k | k in db.skills && OnlyOf(db, batch, k);
      after.skills == db.skills - removed && after.members == db.members - removed
    requires !Stranded(db, batch)
    ensures Consistent(after)
  {
    hide OnlyOf;
    forall k | k in after.skills && after.skills[k].parent.Some? ensures after.skills[k].parent.value in after.skills {
      assert k in db.skills && !OnlyOf(db, batch, k);
    }
  }
}
