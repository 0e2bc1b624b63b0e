/**
 * The store object: the database connection with its transaction nesting, and
 * the lifecycle operations that write through it.
 */
module LibraryStore {
  import opened Library
  import opened Lifecycle
  import opened Numerals

  /** Client code that writes, fails, recovers and nests transactions. */
  datatype Block =
    | Write(f: Tables -> Tables)
    | Fail
    | Then(first: Block, second: Block)
    | Transaction(body: Block)
    | Recover(body: Block)

  /** Outcome and library after a block. Only the outermost transaction undoes a failure. */
  function Meaning(b: Block, db: Tables, inside: bool): (bool, Tables) {
    match b
    case Write(f) => (true, f(db))
    case Fail => (false, db)
    case Then(first, second) =>
      var r := Meaning(first, db, inside);
      if r.0 then Meaning(second, r.1, inside) else r
    case Transaction(body) =>
      var r := Meaning(body, db, true);
      if !r.0 && !inside then (false, db) else r
    case Recover(body) => (true, Meaning(body, db, inside).1)
  }

  /** The block with every transaction marker taken out. */
  function Unmarked(b: Block): Block {
    match b
    case Then(first, second) => Then(Unmarked(first), Unmarked(second))
    case Transaction(body) => Unmarked(body)
    case Recover(body) => Recover(Unmarked(body))
    case _ => b
  }

  /** A failure stops a block where it happens, a write carries on from what it wrote, grouping does not matter,
      and recovering keeps what was written. */
  lemma BlockLaws(f: Tables -> Tables, a: Block, b: Block, c: Block, db: Tables, inside: bool)
    ensures Meaning(Then(Fail, b), db, inside) == (false, db)
    ensures Meaning(Then(Write(f), b), db, inside) == Meaning(b, f(db), inside)
    ensures Meaning(Then(Then(a, b), c), db, inside) == Meaning(Then(a, Then(b, c)), db, inside)
    ensures Meaning(Write(f), db, inside) == (true, f(db))
    ensures Meaning(Recover(a), db, inside) == (true, Meaning(a, db, inside).1)
    ensures Meaning(Transaction(a), db, false) ==
      if Meaning(a, db, true).0 then Meaning(a, db, true) else (false, db)
  {
  }

  /** A nested transaction joins the outer one: inside one, markers mean nothing. */
  lemma {:induction false} NestedMarkersVanish(b: Block, db: Tables)
    ensures Meaning(b, db, true) == Meaning(Unmarked(b), db, true)
  {
    match b
    case Then(first, second) =>
      NestedMarkersVanish(first, db);
      NestedMarkersVanish(second, Meaning(first, db, true).1);
    case Transaction(body) => NestedMarkersVanish(body, db);
    case Recover(body) => NestedMarkersVanish(body, db);
    case _ =>
  }

  /** A failed outermost transaction leaves no trace; recovering from a nested one keeps its writes. */
  lemma {:induction false} OnlyOutermostUndoes(body: Block, db: Tables)
    ensures Meaning(Recover(Transaction(body)), db, false) ==
      (true, if Meaning(Unmarked(body), db, true).0 then Meaning(Unmarked(body), db, true).1 else db)
    ensures Meaning(Transaction(Recover(Transaction(body))), db, false) == (true, Meaning(Unmarked(body), db, true).1)
  {
    NestedMarkersVanish(body, db);
    assert Meaning(Recover(Transaction(body)), db, true) == (true, Meaning(body, db, true).1);
  }

  // One child of a consolidation: its flip and its evidence edge.
  lemma FlipWithEdges(minted: Tables, targets: seq<nat>, k: nat, parent: nat, snapshot: nat)
    requires k < |targets| && forall i :: i in targets ==> i in minted.status
    ensures FlipAll(minted, targets[..k + 1], Dormant, snapshot)
         == Flip(FlipAll(minted, targets[..k], Dormant, snapshot), targets[k], Dormant, snapshot)
    ensures EvidenceEdges(parent, targets[..k + 1])
         == EvidenceEdges(parent, targets[..k]) + [InsightEdge(parent, targets[k], GeneralizesFrom)]
  {
    assert targets[..k + 1][..k] == targets[..k];
  }

  lemma NoEvidence(minted: Tables, targets: seq<nat>, parent: nat, snapshot: nat)
    ensures FlipAll(minted, targets[..0], Dormant, snapshot) == minted
    ensures minted.edges + EvidenceEdges(parent, targets[..0]) == minted.edges
  {
  }

  class Store {
    var db: Tables
    var saved: Tables
    var depth: nat

    constructor (db: Tables)
      ensures this.db == db && depth == 0
    {
      this.db, this.saved, this.depth := db, db, 0;
    }

    // ------------------------------------------------------------- transactions

    method Enter()
      modifies this
      ensures db == old(db) && depth == old(depth) + 1
      ensures saved == if old(depth) == 0 then old(db) else old(saved)
    {
      if depth == 0 {
        saved := db;
      }
      depth := depth + 1;
    }

    method Leave(ok: bool)
      requires depth > 0
      modifies this
      ensures depth == old(depth) - 1 && saved == old(saved)
      ensures db == if !ok && old(depth) == 1 then old(saved) else old(db)
    {
      if depth == 1 && !ok {
        db := saved;
      }
      depth := depth - 1;
    }

    /** Runs a block; an open outer transaction stays open with its own starting point. */
    method Execute(b: Block) returns (ok: bool)
      modifies this
      ensures (ok, db) == Meaning(b, old(db), old(depth) > 0)
      ensures depth == old(depth) && (depth > 0 ==> saved == old(saved))
      decreases b
    {
      match b {
        case Write(f) => db := f(db); ok := true;
        case Fail => ok := false;
        case Then(first, second) =>
          ok := Execute(first);
          if ok {
            ok := Execute(second);
          }
        case Transaction(body) =>
          Enter();
          ok := Execute(body);
          Leave(ok);
        case Recover(body) =>
          ok := Execute(body);
          ok := true;
      }
    }

    /** Flip one insight; refused outside a transaction and for an unknown insight. */
    method SetStatus(i: nat, to: Status, snapshot: nat) returns (ok: bool)
      modifies this`db
      ensures ok <==> depth > 0 && i in old(db).status
      ensures db == if ok then Flip(old(db), i, to, snapshot) else old(db)
    {
      if depth == 0 || i !in db.status {
        return false;
      }
      db := Flip(db, i, to, snapshot);
      return true;
    }

    /** Opens a queue operation: joins or begins a transaction and mints the snapshot. */
    method OpenQueue(operation: string, detail: string) returns (snapshot: nat)
      modifies this
      ensures snapshot == Current(old(db)) + 1
      ensures db == Mint(old(db), operation, detail) && depth == old(depth) + 1
      ensures saved == if old(depth) == 0 then old(db) else old(saved)
    {
      Enter();
      snapshot := Current(db) + 1;
      db := Mint(db, operation, detail);
    }

    method FlipTargets(ids: seq<nat>, to: Status, snapshot: nat)
      requires depth > 0 && forall i :: i in ids ==> i in db.status
      modifies this`db
      ensures db == FlipAll(old(db), ids, to, snapshot)
    {
      for k := 0 to |ids|
        invariant forall i :: i in ids ==> i in old(db).status
        invariant db == FlipAll(old(db), ids[..k], to, snapshot)
      {
        var ok := SetStatus(ids[k], to, snapshot);
        assert ids[..k + 1][..k] == ids[..k];
      }
      assert ids[..|ids|] == ids;
    }

    // ---------------------------------------------------------------- operations

    /** Resolve the open contradictions of the challengers, edge by edge. */
    method ResolveSupersedes(challengers: seq<nat>, confirm: (Atom, Atom) -> bool, snapshot: nat)
      returns (retired: seq<nat>)
      requires depth > 0
      modifies this`db
      ensures var edges := OpenEdges(old(db), challengers, old(db).edges);
        && (forall e :: e in edges ==> e.dst in old(db).status)
        && (db, retired) == Resolve(old(db), edges, confirm, snapshot)
    {
      var edges := OpenEdges(db, challengers, db.edges);
      OpenEdgesKnown(db, challengers, db.edges);
      ghost var before := db;
      retired := [];
      for k := 0 to |edges|
        invariant forall e :: e in edges[..k] ==> e in edges
        invariant (db, retired) == Resolve(before, edges[..k], confirm, snapshot)
        invariant db.status.Keys == before.status.Keys
      {
        var e := edges[k];
        assert edges[..k + 1][..k] == edges[..k];
        if e.dst !in retired && Defeats(db, confirm, e) {
          db := Invalidate(db, e.dst, snapshot);
          var ok := SetStatus(e.dst, Retired, snapshot);
          retired := retired + [e.dst];
        }
      }
      assert edges[..|edges|] == edges;
    }

    method PromoteBatch(tag: string, confirm: (Atom, Atom) -> bool) returns (r: Result<seq<nat>>)
      modifies this
      ensures depth == old(depth) && (depth > 0 ==> saved == old(saved))
      ensures match Promote(old(db), tag, confirm)
        case Ok(outcome) => db == outcome.0 && r == Ok(outcome.1)
        case Err(error) => db == old(db) && r == Err(error)
    {
      hide FlipAll, BatchTargets, OpenEdges, Resolve, MaxId;
      if tag !in db.batches {
        return Err(UnknownBatch);
      }
      var targets := BatchTargets(db, db.batches[tag], {Quarantined});
      if targets == [] {
        return Err(NothingToPromote);
      }
      TargetsKnown(db, db.batches[tag], {Quarantined});
      var snapshot := OpenQueue("promote_batch", tag);
      FlipTargets(targets, Active, snapshot);
      var retired := ResolveSupersedes(targets, confirm, snapshot);
      Leave(true);
      return Ok(retired);
    }

    /** A failure on the final delete undoes the whole operation, unless an outer transaction is open. */
    method RevertBatch(tag: string) returns (r: Result<()>)
      modifies this
      ensures depth == old(depth) && (depth > 0 ==> saved == old(saved))
      ensures match Revert(old(db), tag)
        case Ok(after) => db == after && r == Ok(())
        case Err(error) =>
          && r == Err(error)
          && db == if error == IntegrityViolation && old(depth) > 0
                   then var reverted := RevertFlips(old(db), tag);
                        DropMembers(reverted, Orphaned(reverted, old(db).batches[tag]))
                   else old(db)
    {
      if tag !in db.batches {
        return Err(UnknownBatch);
      }
      var batch := db.batches[tag];
      var targets := BatchTargets(db, batch, {Active, Quarantined});
      if targets == [] {
        return Err(NothingToRevert);
      }
      TargetsKnown(db, batch, {Active, Quarantined});
      var snapshot := OpenQueue("revert_batch", tag);
      FlipTargets(targets, Retired, snapshot);
      db := db.(contradictions := CloseFlags(db.contradictions, targets, snapshot));
      var removed := Orphaned(db, batch);
      var dangling := LeavesDanglingChild(db, removed);
      db := DropMembers(db, removed);
      if dangling {
        Leave(false);
        return Err(IntegrityViolation);
      }
      db := db.(skills := db.skills - removed);
      Leave(true);
      return Ok(());
    }

    method Retire(i: nat) returns (r: Result<()>)
      modifies this
      ensures depth == old(depth) && (depth > 0 ==> saved == old(saved))
      ensures match RetireInsight(old(db), i, Decimal(i))
        case Ok(after) => db == after && r == Ok(())
        case Err(error) => db == old(db) && r == Err(error)
    {
      if i !in db.status {
        return Err(UnknownInsight);
      }
      if db.status[i] == Retired {
        return Err(AlreadyRetired);
      }
      var snapshot := OpenQueue("retire_insight", Decimal(i));
      FlipTargets([i], Retired, snapshot);
      Leave(true);
      return Ok(());
    }

    method Revive(i: nat) returns (r: Result<()>)
      modifies this
      ensures depth == old(depth) && (depth > 0 ==> saved == old(saved))
      ensures match ReviveInsight(old(db), i, Decimal(i))
        case Ok(after) => db == after && r == Ok(())
        case Err(error) => db == old(db) && r == Err(error)
    {
      if i !in db.status {
        return Err(UnknownInsight);
      }
      if db.status[i] != Retired && db.status[i] != Dormant {
        return Err(NotRevivable);
      }
      var snapshot := OpenQueue("revive_insight", Decimal(i));
      FlipTargets([i], Active, snapshot);
      Leave(true);
      return Ok(());
    }

    method DemoteToDormant(children: seq<nat>, parent: nat) returns (r: Result<()>)
      modifies this
      ensures depth == old(depth) && (depth > 0 ==> saved == old(saved))
      ensures match Demote(old(db), children, parent, Decimal(parent))
        case Ok(after) => db == after && r == Ok(())
        case Err(error) => db == old(db) && r == Err(error)
    {
      hide FlipAll, EvidenceEdges, Dedup, ChildError, MaxId, Decimal;
      if parent !in db.status {
        return Err(UnknownInsight);
      }
      if children == [] {
        return Err(NoChildren);
      }
      var targets := Dedup(children);
      var error := ChildError(db, targets, parent);
      if error.Some? {
        return Err(error.value);
      }
      NoChildError(db, targets, parent);
      var snapshot := OpenQueue("consolidate", Decimal(parent));
      ghost var minted := db;
      NoEvidence(minted, targets, parent, snapshot);
      for k := 0 to |targets|
        invariant depth == old(depth) + 1 && saved == if old(depth) == 0 then old(db) else old(saved)
        invariant forall i :: i in targets ==> i in minted.status
        invariant db == FlipAll(minted, targets[..k], Dormant, snapshot)
                        .(edges := minted.edges + EvidenceEdges(parent, targets[..k]))
      {
        FlipWithEdges(minted, targets, k, parent, snapshot);
        var ok := SetStatus(targets[k], Dormant, snapshot);
        db := db.(edges := db.edges + [InsightEdge(parent, targets[k], GeneralizesFrom)]);
      }
      assert targets[..|targets|] == targets;
      FlipAllEffect(minted, targets, Dormant, snapshot);
      Leave(true);
      return Ok(());
    }

    /** Every live member of a skill retires; the skill row stays. */
    method RetireSkill(k: nat) returns (r: Result<()>)
      modifies this
      ensures depth == old(depth) && (depth > 0 ==> saved == old(saved))
      ensures match Lifecycle.RetireSkill(old(db), k, Decimal(k))
        case Ok(after) => db == after && r == Ok(())
        case Err(error) => db == old(db) && r == Err(error)
    {
      r := FlipSkillMembers(k, "retire_skill", Decimal(k), {Quarantined, Active, Dormant}, Retired, NothingToRetire);
    }

    /** Every retired member of a skill becomes active again. */
    method ReviveSkill(k: nat) returns (r: Result<()>)
      modifies this
      ensures depth == old(depth) && (depth > 0 ==> saved == old(saved))
      ensures match Lifecycle.ReviveSkill(old(db), k, Decimal(k))
        case Ok(after) => db == after && r == Ok(())
        case Err(error) => db == old(db) && r == Err(error)
    {
      r := FlipSkillMembers(k, "revive_skill", Decimal(k), {Retired}, Active, NothingToRevive);
    }

    method FlipSkillMembers(k: nat, operation: string, detail: string, from: set<Status>, to: Status, none: Error)
      returns (r: Result<()>)
      modifies this
      ensures depth == old(depth) && (depth > 0 ==> saved == old(saved))
      ensures match FlipSkill(old(db), k, operation, detail, from, to, none)
        case Ok(after) => db == after && r == Ok(())
        case Err(error) => db == old(db) && r == Err(error)
    {
      if k !in db.skills {
        return Err(UnknownSkill);
      }
      var targets := MembersWith(db.status, SkillMembers(db, k), from);
      if targets == [] {
        return Err(none);
      }
      forall i | i in targets ensures i in db.status {
        MembersWithMembers(db.status, SkillMembers(db, k), from, i);
      }
      var snapshot := OpenQueue(operation, detail);
      FlipTargets(targets, to, snapshot);
      Leave(true);
      return Ok(());
    }
  }
}
