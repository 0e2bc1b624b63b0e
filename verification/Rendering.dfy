/**
 * Skill rendering: the concatenation of visible insights as of a snapshot, and
 * the active-only cache keyed by skill and snapshot.
 */
module Rendering {
  import opened Collections
  import opened Ordering
  import opened Numerals
  import opened Library
  import opened Lifecycle
  import opened LibraryStore

  function DisplayName(k: nat, skill: Skill): string {
    match skill.name
    case Some(name) => name
    case None => "module-" + Decimal(k)
  }

  function Header(k: nat, skill: Skill): string {
    "# Skill: " + DisplayName(k, skill) + "\n\n" + skill.description + "\n\n---\n"
  }

  function InsightBlock(i: nat, row: Insight): string {
    "\n## Insight " + Decimal(i) + "\n\n- Precondition: " + row.precondition
    + "\n- Action: " + row.action + "\n- Expected outcome: " + row.outcome + "\n"
  }

  predicate Visible(status: Option<Status>, quarantinedToo: bool) {
    status == Some(Active) || (quarantinedToo && status == Some(Quarantined))
  }

  /** Members in id order whose status as of the snapshot is visible. */
  function VisibleIn(db: Tables, ids: seq<nat>, snapshot: nat, quarantinedToo: bool): seq<nat> {
    if ids == [] then []
    else
      var last := ids[|ids| - 1];
      VisibleIn(db, ids[..|ids| - 1], snapshot, quarantinedToo)
      + if Visible(StatusAt(db, last, snapshot), quarantinedToo) && last in db.insights then [last] else []
  }

  function VisibleMembers(db: Tables, k: nat, snapshot: nat, quarantinedToo: bool): seq<nat> {
    VisibleIn(db, SortedIds(Elements(SkillMembers(db, k))), snapshot, quarantinedToo)
  }

  function Blocks(insights: map<nat, Insight>, ids: seq<nat>): string {
    if ids == [] then ""
    else
      var last := ids[|ids| - 1];
      Blocks(insights, ids[..|ids| - 1]) + if last in insights then InsightBlock(last, insights[last]) else ""
  }

  datatype Output = Output(content: string, empty: bool)

  function Render(db: Tables, k: nat, snapshot: nat, quarantinedToo: bool): Output
    requires k in db.skills
  {
    var members := VisibleMembers(db, k, snapshot, quarantinedToo);
    Output(Header(k, db.skills[k]) + Blocks(db.insights, members), members == [])
  }

  class Renderer {
    const store: Store
    var cache: map<(nat, nat), Output>

    constructor (store: Store)
      ensures this.store == store && cache == map[]
    {
      this.store, this.cache := store, map[];
    }

    /** None for an unknown skill that is not cached; the snapshot defaults to the current one. */
    method RenderConcat(k: nat, at: Option<nat>, quarantinedToo: bool) returns (r: Option<Output>, cached: bool)
      modifies this`cache
      ensures var snapshot := if at.Some? then at.value else Current(store.db);
        var hit := !quarantinedToo && (k, snapshot) in old(cache);
        && cached == hit
        && r == (if hit then Some(old(cache)[(k, snapshot)])
                 else if k in store.db.skills then Some(Render(store.db, k, snapshot, quarantinedToo))
                 else None)
        && cache == if quarantinedToo || r == None then old(cache) else old(cache)[(k, snapshot) := r.value]
    {
      var snapshot := if at.Some? then at.value else Current(store.db);
      if !quarantinedToo && (k, snapshot) in cache {
        return Some(cache[(k, snapshot)]), true;
      }
      if k !in store.db.skills {
        return None, false;
      }
      var output := Render(store.db, k, snapshot, quarantinedToo);
      if !quarantinedToo {
        cache := cache[(k, snapshot) := output];
      }
      return Some(output), false;
    }
  }

  // ------------------------------------------------------------- what the text is

  /** The text is the skill's header and one block per visible member, ids ascending. A member is visible when it
      was active as of the snapshot, or quarantined and asked for; without any, the rendering is marked empty. */
  lemma RenderSpelled(db: Tables, k: nat, snapshot: nat, quarantinedToo: bool)
    returns (ids: seq<nat>, blocks: seq<string>)
    requires k in db.skills
    ensures AscendingIds(ids)
    ensures forall i :: i in ids <==>
      && k in db.members && i in db.members[k] && i in db.insights
      && (StatusAt(db, i, snapshot) == Some(Active)
          || (quarantinedToo && StatusAt(db, i, snapshot) == Some(Quarantined)))
    ensures |blocks| == |ids| && forall j :: 0 <= j < |ids| ==>
      var row := db.insights[ids[j]];
      blocks[j] == "\n## Insight " + Decimal(ids[j]) + "\n\n- Precondition: " + row.precondition
        + "\n- Action: " + row.action + "\n- Expected outcome: " + row.outcome + "\n"
    ensures var skill := db.skills[k];
      var name := if skill.name.Some? then skill.name.value else "module-" + Decimal(k);
      Render(db, k, snapshot, quarantinedToo).content
        == "# Skill: " + name + "\n\n" + skill.description + "\n\n---\n" + Concat(blocks)
    ensures Render(db, k, snapshot, quarantinedToo).empty <==> ids == []
  {
    hide StatusAt, Decimal, VisibleIn, Blocks, Concat, InsightBlock;
    var members := SortedIds(Elements(SkillMembers(db, k)));
    assert forall i :: i in members <==> i in Elements(members);
    ids := VisibleMembers(db, k, snapshot, quarantinedToo);
    VisibleInAre(db, members, snapshot, quarantinedToo);
    blocks := seq(|ids|, j requires 0 <= j < |ids| => BlockOf(db.insights, ids[j]));
    BlocksAre(db.insights, ids);
    forall j | 0 <= j < |ids| ensures blocks[j] == InsightBlock(ids[j], db.insights[ids[j]]) {
      assert ids[j] in ids;
    }
    BlockSpelled(db.insights);
  }

  function BlockOf(insights: map<nat, Insight>, i: nat): string {
    if i in insights then InsightBlock(i, insights[i]) else ""
  }

  lemma BlockSpelled(insights: map<nat, Insight>)
    ensures forall i :: i in insights ==>
      InsightBlock(i, insights[i]) == "\n## Insight " + Decimal(i) + "\n\n- Precondition: " + insights[i].precondition
        + "\n- Action: " + insights[i].action + "\n- Expected outcome: " + insights[i].outcome + "\n"
  {
    hide Decimal;
  }

  lemma {:induction false} VisibleInAre(db: Tables, ids: seq<nat>, snapshot: nat, quarantinedToo: bool)
    requires AscendingIds(ids)
    ensures var shown := VisibleIn(db, ids, snapshot, quarantinedToo);
      && (forall i :: i in shown <==>
           i in ids && i in db.insights && Visible(StatusAt(db, i, snapshot), quarantinedToo))
      && AscendingIds(shown)
  {
    if ids != [] {
      var init, last := ids[..|ids| - 1], ids[|ids| - 1];
      VisibleInAre(db, init, snapshot, quarantinedToo);
      hide StatusAt, Visible;
      assert ids == init + [last];
      OneMoreShown(db, init, last, VisibleIn(db, init, snapshot, quarantinedToo), snapshot, quarantinedToo);
    }
  }

  lemma OneMoreShown(db: Tables, init: seq<nat>, last: nat, shown: seq<nat>, snapshot: nat, quarantinedToo: bool)
    requires forall i :: i in init ==> i < last
    requires forall i :: i in shown <==>
      i in init && i in db.insights && Visible(StatusAt(db, i, snapshot), quarantinedToo)
    requires AscendingIds(shown)
    ensures var all := shown +
        if Visible(StatusAt(db, last, snapshot), quarantinedToo) && last in db.insights then [last] else [];
      && (forall i :: i in all <==>
           (i in init || i == last) && i in db.insights && Visible(StatusAt(db, i, snapshot), quarantinedToo))
      && AscendingIds(all)
  {
    hide StatusAt, Visible;
    forall a | 0 <= a < |shown| ensures shown[a] < last {
      assert shown[a] in shown;
    }
    if Visible(StatusAt(db, last, snapshot), quarantinedToo) && last in db.insights {
      var all: seq<nat> := shown + [last];
      assert forall i :: i in all <==> i in shown || i == last;
    } else {
      assert shown + [] == shown;
    }
  }

  lemma {:induction false} BlocksAre(insights: map<nat, Insight>, ids: seq<nat>)
    ensures Blocks(insights, ids) == Concat(seq(|ids|, j requires 0 <= j < |ids| => BlockOf(insights, ids[j])))
  {
    var all := seq(|ids|, j requires 0 <= j < |ids| => BlockOf(insights, ids[j]));
    if ids != [] {
      hide InsightBlock;
      var init := ids[..|ids| - 1];
      BlocksAre(insights, init);
      assert all[..|ids| - 1] == seq(|init|, j requires 0 <= j < |init| => BlockOf(insights, init[j]));
    }
  }

  // ----------------------------------------------------- when a cached text stays true

  /** What the cache key does not cover: header, membership and member text of the skill. */
  ghost predicate SameContent(db: Tables, db': Tables, k: nat) {
    && k in db.skills && k in db'.skills
    && Header(k, db.skills[k]) == Header(k, db'.skills[k])
    && SkillMembers(db, k) == SkillMembers(db', k)
    && forall i :: i in SkillMembers(db, k) ==>
         i in db.status && i in db.insights && i in db'.insights
         && InsightBlock(i, db.insights[i]) == InsightBlock(i, db'.insights[i])
  }

  lemma {:induction false} SameVisible(db: Tables, db': Tables, ids: seq<nat>, s: nat, s': nat, quarantinedToo: bool)
    requires forall i :: i in ids ==> i in db.insights && i in db'.insights
    requires forall i :: i in ids ==>
      (Visible(StatusAt(db, i, s), quarantinedToo) <==> Visible(StatusAt(db', i, s'), quarantinedToo))
    ensures VisibleIn(db, ids, s, quarantinedToo) == VisibleIn(db', ids, s', quarantinedToo)
    ensures forall i :: i in VisibleIn(db, ids, s, quarantinedToo) ==> i in ids
  {
    if ids != [] {
      assert forall i :: i in ids[..|ids| - 1] ==> i in ids;
      SameVisible(db, db', ids[..|ids| - 1], s, s', quarantinedToo);
    }
  }

  lemma {:induction false} SameBlocks(a: map<nat, Insight>, b: map<nat, Insight>, ids: seq<nat>)
    requires forall i :: i in ids ==> i in a && i in b && InsightBlock(i, a[i]) == InsightBlock(i, b[i])
    ensures Blocks(a, ids) == Blocks(b, ids)
  {
    if ids != [] {
      assert forall i :: i in ids[..|ids| - 1] ==> i in ids;
      SameBlocks(a, b, ids[..|ids| - 1]);
    }
  }

  /** Same content and same visible statuses render to the same bytes. */
  lemma {:induction false} SameRender(db: Tables, db': Tables, k: nat, s: nat, s': nat, quarantinedToo: bool)
    requires SameContent(db, db', k)
    requires forall i :: i in SkillMembers(db, k) ==>
      (Visible(StatusAt(db, i, s), quarantinedToo) <==> Visible(StatusAt(db', i, s'), quarantinedToo))
    ensures Render(db', k, s', quarantinedToo) == Render(db, k, s, quarantinedToo)
  {
    var ids := SortedIds(Elements(SkillMembers(db, k)));
    forall i | i in ids ensures i in SkillMembers(db, k) {
      assert i in Elements(ids);
    }
    SameVisible(db, db', ids, s, s', quarantinedToo);
    SameBlocks(db.insights, db'.insights, VisibleIn(db, ids, s, quarantinedToo));
  }

  /** In every run a rendering cached at a snapshot no later than current stays the fresh rendering. */
  lemma {:induction false} CachedStaysFresh(run: seq<Tables>, moves: seq<Move>, a: nat, b: nat, k: nat, snapshot: nat)
    requires Run(run, moves) && a <= b < |run| && k in run[a].skills && k in run[b].skills
    requires SameContent(run[a], run[b], k) && snapshot <= Current(run[a])
    ensures Render(run[b], k, snapshot, false) == Render(run[a], k, snapshot, false)
  {
    forall i | i in SkillMembers(run[a], k)
      ensures StatusAt(run[b], i, snapshot) == StatusAt(run[a], i, snapshot)
    {
      PastIsFixed(run, moves, a, b, i, snapshot, StatusAt(run[a], i, snapshot));
    }
    SameRender(run[a], run[b], k, snapshot, snapshot, false);
  }

  /** Reverting a promotion that retired no incumbent gives every skill that is left its old rendering. */
  lemma {:induction false} RevertRestoresRendering(db: Tables, tag: string, confirm: (Atom, Atom) -> bool, k: nat)
    requires Valid(db) && Consistent(db) && Promote(db, tag, confirm).Ok?
    requires Promote(db, tag, confirm).value.1 == []
    requires forall i :: i in ActiveSet(db) && i in db.insights ==> db.insights[i].batch != Some(db.batches[tag])
    requires Revert(Promote(db, tag, confirm).value.0, tag).Ok?
    ensures var after := Revert(Promote(db, tag, confirm).value.0, tag).value;
      k in after.skills ==>
        k in db.skills && Render(after, k, Current(after), false) == Render(db, k, Current(db), false)
  {
    hide Valid, Orphaned, LeavesDanglingChild, Superseded, Resolve, BatchTargets, OpenEdges, FlipAll, MaxId, Render;
    var promoted := Promote(db, tag, confirm).value.0;
    var after := Revert(promoted, tag).value;
    PromoteEffect(db, tag, confirm);
    PromoteThenRevert(db, tag, confirm);
    RevertEffect(promoted, tag);
    RoundKeepsValid(db, tag, confirm);
    assert Elements(Promote(db, tag, confirm).value.1) == {};
    assert InvalidateAll(db.insights, {}, Current(db) + 1) == db.insights;
    if k in after.skills {
      SameActivesSameRender(db, after, k);
    }
  }

  lemma {:induction false} RoundKeepsValid(db: Tables, tag: string, confirm: (Atom, Atom) -> bool)
    requires Valid(db) && Promote(db, tag, confirm).Ok?
    requires Revert(Promote(db, tag, confirm).value.0, tag).Ok?
    ensures Valid(Revert(Promote(db, tag, confirm).value.0, tag).value)
  {
    var (promoted, retired) := Promote(db, tag, confirm).value;
    PromoteIsStep(db, tag, confirm);
    StepKeepsValid(db, promoted, Operation("promote_batch", tag,
      Pairs(BatchTargets(db, db.batches[tag], {Quarantined}), Active) + Pairs(retired, Retired)));
    RevertIsStep(promoted, tag);
    StepKeepsValid(promoted, Revert(promoted, tag).value, Operation("revert_batch", tag,
      Pairs(BatchTargets(promoted, promoted.batches[tag], {Active, Quarantined}), Retired)));
  }

  lemma {:induction false} SameActivesSameRender(db: Tables, after: Tables, k: nat)
    requires Valid(db) && Valid(after) && Consistent(db) && Consistent(after)
    requires k in db.skills && k in after.skills && db.skills[k] == after.skills[k] && db.members[k] == after.members[k]
    requires after.insights == db.insights && ActiveSet(after) == ActiveSet(db)
    ensures Render(after, k, Current(after), false) == Render(db, k, Current(db), false)
  {
    forall i | i in SkillMembers(db, k)
      ensures Visible(StatusAt(db, i, Current(db)), false) <==> Visible(StatusAt(after, i, Current(after)), false)
    {
      CurrentStatus(db, i);
      CurrentStatus(after, i);
      assert i in ActiveSet(db) <==> i in ActiveSet(after);
    }
    SameRender(db, after, k, Current(db), Current(after), false);
  }

  // ------------------------------------------------------------ where it does not

  /** The run went on: what happened before stays as it was. */
  ghost predicate Continues(run: seq<Tables>, moves: seq<Move>, run': seq<Tables>, moves': seq<Move>) {
    && Run(run', moves') && |run| <= |run'| && |moves| <= |moves'| && run == run'[..|run|] && moves == moves'[..|moves|]
  }

  /** The old text is the fresh one, unless the skill's content changed. */
  ghost predicate Fresh(db: Tables, db': Tables, k: nat, snapshot: nat) {
    SameContent(db, db', k) ==> Render(db', k, snapshot, false) == Render(db, k, snapshot, false)
  }

  /** A text rendered now is the fresh one after every continuation that keeps the skill's content. */
  ghost predicate StaysFresh(run: seq<Tables>, moves: seq<Move>, k: nat, snapshot: nat)
    requires run != []
  {
    forall run', moves' :: Continues(run, moves, run', moves') ==> Fresh(run[|run| - 1], run'[|run'| - 1], k, snapshot)
  }

  /** What may be cached for good: exactly texts of snapshots already minted, and those of skills without members. */
  lemma {:induction false} FreshForeverIff(run: seq<Tables>, moves: seq<Move>, k: nat, snapshot: nat)
    requires Run(run, moves) && k in run[|run| - 1].skills && Consistent(run[|run| - 1])
    ensures StaysFresh(run, moves, k, snapshot) <==>
      snapshot <= Current(run[|run| - 1]) || SkillMembers(run[|run| - 1], k) == []
  {
    hide Consistent, Fresh, MaxId, SkillMembers, Step;
    var db := run[|run| - 1];
    if snapshot <= Current(db) || SkillMembers(db, k) == [] {
      forall run', moves' | Continues(run, moves, run', moves') ensures Fresh(db, run'[|run'| - 1], k, snapshot) {
        FreshAfter(run, run', moves', k, snapshot);
      }
    } else {
      RunKeepsValid(run, moves, |run| - 1);
      var after, move := SomeMemberMoves(db, k, snapshot);
      OneMoreMove(run, moves, after, move);
      assert Continues(run, moves, run + [after], moves + [move]);
      assert (run + [after])[|run|] == after;
    }
  }

  lemma SomeMemberMoves(db: Tables, k: nat, snapshot: nat) returns (after: Tables, move: Move)
    requires Valid(db) && Consistent(db) && k in db.skills && SkillMembers(db, k) != [] && snapshot > Current(db)
    ensures Step(db, after, move) && !Fresh(db, after, k, snapshot)
  {
    hide Valid, MaxId, Render, SameContent, FlippedOnce, Step;
    var i := SkillMembers(db, k)[0];
    assert i in SkillMembers(db, k) && i in db.status;
    var to := if db.status[i] == Active then Retired else Active;
    after, move := FlippedOnce(db, i, to), Operation("set_status", "", [(i, to)]);
    FutureSnapshotGoesStale(db, k, i, to, snapshot);
  }

  lemma {:induction false} FreshAfter(run: seq<Tables>, run': seq<Tables>, moves': seq<Move>, k: nat, snapshot: nat)
    requires run != [] && Run(run', moves') && |run| <= |run'| && run == run'[..|run|]
    requires snapshot <= Current(run[|run| - 1]) || SkillMembers(run[|run| - 1], k) == []
    ensures Fresh(run[|run| - 1], run'[|run'| - 1], k, snapshot)
  {
    if SameContent(run[|run| - 1], run'[|run'| - 1], k) {
      hide Run, Render, MaxId;
      assert run[|run| - 1] == run'[|run| - 1];
      if snapshot <= Current(run[|run| - 1]) {
        CachedStaysFresh(run', moves', |run| - 1, |run'| - 1, k, snapshot);
      } else {
        SameRender(run[|run| - 1], run'[|run'| - 1], k, snapshot, snapshot, false);
      }
    }
  }

  lemma OneMoreMove(run: seq<Tables>, moves: seq<Move>, after: Tables, move: Move)
    requires Run(run, moves) && Step(run[|run| - 1], after, move)
    ensures Run(run + [after], moves + [move])
  {
    hide Step;
    var longer, allMoves := run + [after], moves + [move];
    forall i, j | 0 <= i && j == i + 1 && j < |longer| ensures Step(longer[i], longer[j], allMoves[i]) {
      if j < |run| {
        assert Step(run[i], run[j], moves[i]);
      }
    }
  }

  /** One queue operation that moves one insight. */
  function FlippedOnce(db: Tables, i: nat, to: Status): Tables
    requires i in db.status
  {
    Flip(Mint(db, "set_status", ""), i, to, Current(db) + 1)
  }

  lemma FlippedOnceIsStep(db: Tables, i: nat, to: Status)
    requires Valid(db) && i in db.status
    ensures Step(db, FlippedOnce(db, i, to), Operation("set_status", "", [(i, to)]))
    ensures Valid(FlippedOnce(db, i, to)) && Current(FlippedOnce(db, i, to)) == Current(db) + 1
  {
    hide Valid, MaxId;
    SingleFlipIsStep(db, i, "set_status", "", to);
    var ids: seq<nat>, none: seq<nat> := [i], [];
    assert ids[..|ids| - 1] == none;
    assert FlipAll(Mint(db, "set_status", ""), none, to, Current(db) + 1) == Mint(db, "set_status", "");
    assert FlipUnder(db, "set_status", "", ids, to) == FlippedOnce(db, i, to);
    MintKeepsValid(db, "set_status", "");
    FlipKeepsValid(Mint(db, "set_status", ""), i, to);
    FlipKeepsCurrent(Mint(db, "set_status", ""), i, to, Current(db) + 1);
  }

  /** A text cached for a snapshot not minted yet misses a member that the next operation shows or hides:
      the fresh text is longer or shorter. */
  lemma {:induction false} FutureSnapshotGoesStale(db: Tables, k: nat, i: nat, to: Status, snapshot: nat)
    requires Valid(db) && Consistent(db) && k in db.skills && i in SkillMembers(db, k)
    requires (db.status[i] == Active) != (to == Active) && snapshot > Current(db)
    ensures var after := FlippedOnce(db, i, to);
      && Step(db, after, Operation("set_status", "", [(i, to)])) && SameContent(db, after, k)
      && (if to == Active then |Render(db, k, snapshot, false).content| < |Render(after, k, snapshot, false).content|
          else |Render(after, k, snapshot, false).content| < |Render(db, k, snapshot, false).content|)
  {
    hide Valid, MaxId, Header, InsightBlock, StatusAt, VisibleIn, Blocks;
    var after := FlippedOnce(db, i, to);
    FlippedOnceIsStep(db, i, to);
    var ids := SortedIds(Elements(SkillMembers(db, k)));
    forall x | x in ids ensures x in SkillMembers(db, k) {
      assert x in Elements(ids);
    }
    forall x | x in ids
      ensures StatusAt(db, x, snapshot) == Some(db.status[x]) && StatusAt(after, x, snapshot) == Some(after.status[x])
    {
      LaterStatus(db, x, snapshot);
      LaterStatus(after, x, snapshot);
    }
    assert i in Elements(ids);
    if to == Active {
      AdmittedBlocks(db, after, ids, snapshot, i);
    } else {
      AdmittedBlocks(after, db, ids, snapshot, i);
    }
  }

  lemma FlipKeepsCurrent(db: Tables, i: nat, to: Status, snapshot: nat)
    requires i in db.status
    ensures Current(Flip(db, i, to, snapshot)) == Current(db)
  {
  }

  /** From the current snapshot on, the answer is the status column. */
  lemma LaterStatus(db: Tables, i: nat, snapshot: nat)
    requires Valid(db) && i in db.status && Current(db) <= snapshot
    ensures StatusAt(db, i, snapshot) == Some(db.status[i])
  {
    hide MaxId;
    LatestRowBound(db.transitions, i, Current(db), snapshot);
    CurrentStatus(db, i);
  }

  lemma {:induction false} AdmittedBlocks(db: Tables, after: Tables, ids: seq<nat>, snapshot: nat, i: nat)
    requires after.insights == db.insights && forall x :: x in ids ==> x in db.insights
    requires forall x :: x in ids ==>
      (Visible(StatusAt(after, x, snapshot), false) <==> x == i || Visible(StatusAt(db, x, snapshot), false))
    requires !Visible(StatusAt(db, i, snapshot), false)
    ensures |Blocks(db.insights, VisibleIn(db, ids, snapshot, false))| + (if i in ids then 1 else 0)
         <= |Blocks(db.insights, VisibleIn(after, ids, snapshot, false))|
  {
    hide StatusAt, Visible, InsightBlock;
    if ids != [] {
      var init, last := ids[..|ids| - 1], ids[|ids| - 1];
      assert ids == init + [last];
      AdmittedBlocks(db, after, init, snapshot, i);
      BlocksAppend(db.insights, VisibleIn(db, init, snapshot, false), last);
      BlocksAppend(db.insights, VisibleIn(after, init, snapshot, false), last);
    }
  }

  lemma BlocksAppend(insights: map<nat, Insight>, ids: seq<nat>, last: nat)
    requires last in insights
    ensures ids + [] == ids
    ensures Blocks(insights, ids + [last]) == Blocks(insights, ids) + InsightBlock(last, insights[last])
    ensures |InsightBlock(last, insights[last])| > 0
  {
    assert (ids + [last])[..|ids|] == ids;
  }

  /** Naming a skill mints no snapshot, so every text cached under the placeholder is stale from then on. */
  lemma LateNameGoesStale(db: Tables, k: nat, name: string, snapshot: nat, quarantinedToo: bool)
    requires k in db.skills && db.skills[k].name == None && name != DisplayName(k, db.skills[k])
    ensures var after := db.(skills := db.skills[k := db.skills[k].(name := Some(name))]);
      && RegisterStep(db, after) && Current(after) == Current(db)
      && Render(after, k, snapshot, quarantinedToo).content != Render(db, k, snapshot, quarantinedToo).content
  {
    hide Header, Blocks, StatusAt, VisibleIn, DisplayName;
    var after := db.(skills := db.skills[k := db.skills[k].(name := Some(name))]);
    var ids := SortedIds(Elements(SkillMembers(db, k)));
    SameLogSameVisible(db, after, ids, snapshot, quarantinedToo);
    NamedDisplay(k, after.skills[k]);
    NameShows(k, db.skills[k], after.skills[k], Blocks(db.insights, VisibleMembers(db, k, snapshot, quarantinedToo)));
  }

  lemma NamedDisplay(k: nat, skill: Skill)
    ensures skill.name.Some? ==> DisplayName(k, skill) == skill.name.value
  {
  }

  lemma {:induction false} SameLogSameVisible(db: Tables, after: Tables, ids: seq<nat>, snapshot: nat,
                                              quarantinedToo: bool)
    requires LogOf(after) == LogOf(db) && after.insights == db.insights
    ensures VisibleIn(after, ids, snapshot, quarantinedToo) == VisibleIn(db, ids, snapshot, quarantinedToo)
  {
    if ids != [] {
      SameLogSameVisible(db, after, ids[..|ids| - 1], snapshot, quarantinedToo);
      SameLogSamePast(db, after, ids[|ids| - 1], snapshot);
    }
  }

  lemma NameShows(k: nat, a: Skill, b: Skill, rest: string)
    requires a.description == b.description && DisplayName(k, a) != DisplayName(k, b)
    ensures Header(k, a) + rest != Header(k, b) + rest
  {
    hide DisplayName;
    var tail := "\n\n" + a.description + "\n\n---\n";
    Framed("# Skill: ", DisplayName(k, a), tail, rest);
    Framed("# Skill: ", DisplayName(k, b), tail, rest);
    assert Header(k, a) == "# Skill: " + DisplayName(k, a) + tail;
    assert Header(k, b) == "# Skill: " + DisplayName(k, b) + tail;
  }

  // A name between fixed texts can be read off again.
  lemma Framed(lead: string, name: string, tail: string, rest: string)
    ensures var s := (lead + name + tail) + rest;
      |s| == |lead| + |name| + |tail| + |rest| && s[|lead|..|s| - |tail| - |rest|] == name
  {
  }
}
