/**
 * Splitting a skill's members over two child skills and undoing the split, and
 * what a split does to a later revert of the batch that made the skill.
 */
module ModuleSplit {
  import opened Collections
  import opened Ordering
  import opened Numerals
  import opened Library
  import opened Lifecycle
  import opened LibraryStore
  import opened Rendering

  datatype SplitError = EmptyCluster | Overlap | NotAPartition | NoSuchSkill | Constraint

  datatype Outcome = Done(db: Tables) | Refused(why: SplitError)

  /** The ids the two children get; the database picks unused ones. */
  datatype Children = Children(first: nat, second: nat)

  predicate Unused(db: Tables, kids: Children) {
    kids.first !in db.skills && kids.second !in db.skills && kids.first != kids.second
  }

  /** A skill not named yet spells its missing name out. */
  function Stem(skill: Skill): string { if skill.name.Some? then skill.name.value else "None" }

  function Child(db: Tables, parent: nat, suffix: string): Skill
    requires parent in db.skills
  {
    Skill(Some(Stem(db.skills[parent]) + suffix), "", None, Some(parent))
  }

  function SplitLabel(parent: nat, detail: string): string {
    if detail != "" then detail else "split " + Decimal(parent)
  }

  /** Both clusters together are the parent's members, shared out. */
  function Split(db: Tables, parent: nat, clusters: (seq<nat>, seq<nat>), kids: Children, detail: string): Outcome {
    var (one, two) := (Elements(clusters.0), Elements(clusters.1));
    if clusters.0 == [] || clusters.1 == [] then Refused(EmptyCluster)
    else if one * two != {} then Refused(Overlap)
    else if one + two != Elements(SkillMembers(db, parent)) then Refused(NotAPartition)
    else if parent !in db.skills then Refused(NoSuchSkill)
    else if |clusters.0| != |one| || |clusters.1| != |two| then Refused(Constraint)
    else Done(SplitTables(db, parent, (one, two), kids, SplitLabel(parent, detail)))
  }

  function SplitTables(db: Tables, parent: nat, clusters: (set<nat>, set<nat>), kids: Children, title: string): Tables
    requires parent in db.skills
  {
    var minted, emptied := Mint(db, "agent_split", title), db.members[parent := []];
    minted.(skills := db.skills[kids.first := Child(db, parent, "-0")][kids.second := Child(db, parent, "-1")],
            members := emptied[kids.first := SortedIds(clusters.0)][kids.second := SortedIds(clusters.1)])
  }

  /** The children's members go back to the parent in id order, and the children go. */
  function Unsplit(db: Tables, parent: nat, kids: Children): Outcome {
    var (one, two) := (Elements(SkillMembers(db, kids.first)), Elements(SkillMembers(db, kids.second)));
    if LeavesDanglingChild(db, {kids.first, kids.second}) then Refused(Constraint)
    else if one * two != {} then Refused(Constraint)
    else if one + two != {} && (parent !in db.skills || SkillMembers(db, parent) != []) then Refused(Constraint)
    else
      var minted := Mint(db, "agent_split_revert", "revert split of " + Decimal(parent));
      var left := db.members - {kids.first, kids.second};
      Done(minted.(skills := db.skills - {kids.first, kids.second},
                   members := if parent in left then left[parent := left[parent] + SortedIds(one + two)] else left))
  }

  // ------------------------------------------------------------------ in place

  /** Appends members one row at a time. */
  method InsertMembers(store: Store, child: nat, ids: seq<nat>)
    requires child in store.db.members && store.db.members[child] == []
    modifies store`db
    ensures store.db == old(store.db).(members := old(store.db).members[child := ids])
  {
    ghost var members := store.db.members;
    assert members[child := ids[..0]] == members;
    for k := 0 to |ids|
      invariant store.db == old(store.db).(members := members[child := ids[..k]])
    {
      assert ids[..k + 1] == ids[..k] + [ids[k]];
      store.db := store.db.(members := store.db.members[child := store.db.members[child] + [ids[k]]]);
    }
    assert ids[..|ids|] == ids;
  }

  /** The split in place. Refusals before the first write leave no trace; so does an id repeated inside a
      cluster, unless an outer transaction is open. */
  method ExecuteSplit(store: Store, parent: nat, clusters: (seq<nat>, seq<nat>), kids: Children, detail: string)
    returns (refused: Option<SplitError>)
    requires Unused(store.db, kids)
    modifies store
    ensures store.depth == old(store.depth) && (store.depth > 0 ==> store.saved == old(store.saved))
    ensures match Split(old(store.db), parent, clusters, kids, detail)
      case Done(after) => refused == None && store.db == after
      case Refused(why) =>
        refused == Some(why) && (why != Constraint || old(store.depth) == 0 ==> store.db == old(store.db))
  {
    hide MaxId, SortedIds, SplitLabel, Stem;
    var one, two := Elements(clusters.0), Elements(clusters.1);
    if clusters.0 == [] || clusters.1 == [] {
      return Some(EmptyCluster);
    }
    if one * two != {} {
      return Some(Overlap);
    }
    if one + two != Elements(SkillMembers(store.db, parent)) {
      return Some(NotAPartition);
    }
    if parent !in store.db.skills {
      return Some(NoSuchSkill);
    }
    var first, second := Child(store.db, parent, "-0"), Child(store.db, parent, "-1");
    var snapshot := store.OpenQueue("agent_split", SplitLabel(parent, detail));
    store.db := store.db.(skills := store.db.skills[kids.first := first]);
    store.db := store.db.(skills := store.db.skills[kids.second := second]);
    var emptied := store.db.members[parent := []];
    store.db := store.db.(members := emptied[kids.first := []][kids.second := []]);
    if |clusters.0| != |one| || |clusters.1| != |two| {
      store.Leave(false);
      return Some(Constraint);
    }
    InsertMembers(store, kids.first, SortedIds(one));
    InsertMembers(store, kids.second, SortedIds(two));
    InsertedBoth(emptied, kids, SortedIds(one), SortedIds(two));
    store.Leave(true);
    return None;
  }

  lemma InsertedBoth(emptied: map<nat, seq<nat>>, kids: Children, one: seq<nat>, two: seq<nat>)
    requires kids.first != kids.second
    ensures emptied[kids.first := []][kids.second := []][kids.first := one][kids.second := two]
         == emptied[kids.first := one][kids.second := two]
  {
  }

  // ------------------------------------------------------------ what a split does

  /** A split goes ahead exactly for two non-empty, disjoint, duplicate-free clusters that cover a skill's members. */
  lemma SplitGoesAheadIff(db: Tables, parent: nat, clusters: (seq<nat>, seq<nat>), kids: Children, detail: string)
    ensures Split(db, parent, clusters, kids, detail).Done? <==>
      && clusters.0 != [] && clusters.1 != [] && Distinct(clusters.0) && Distinct(clusters.1)
      && (forall i :: i in clusters.0 ==> i !in clusters.1)
      && (forall i :: i in clusters.0 || i in clusters.1 <==> i in SkillMembers(db, parent))
      && parent in db.skills
    ensures Split(db, parent, clusters, kids, detail) == Refused(EmptyCluster) <==>
      clusters.0 == [] || clusters.1 == []
    ensures Split(db, parent, clusters, kids, detail) == Refused(Overlap) <==>
      clusters.0 != [] && clusters.1 != [] && exists i :: i in clusters.0 && i in clusters.1
    ensures Split(db, parent, clusters, kids, detail) == Refused(NotAPartition) <==>
      && clusters.0 != [] && clusters.1 != [] && (forall i :: i in clusters.0 ==> i !in clusters.1)
      && exists i :: (i in clusters.0 || i in clusters.1) != (i in SkillMembers(db, parent))
  {
    hide SplitTables, SplitLabel, Elements, Distinct;
    ClustersPartition(db, parent, clusters);
    CountsOfElements(clusters.0);
    CountsOfElements(clusters.1);
  }

  /** The first child then holds the first cluster, the second the other, each in id order, both named after the
      parent, which keeps its row and loses its members; no other skill and no other table is touched. */
  lemma SplitEffect(db: Tables, parent: nat, clusters: (seq<nat>, seq<nat>), kids: Children, detail: string)
    requires Unused(db, kids) && Split(db, parent, clusters, kids, detail).Done?
    ensures parent in db.skills
    ensures var after := Split(db, parent, clusters, kids, detail).db;
      var name := if db.skills[parent].name.Some? then db.skills[parent].name.value else "None";
      && after.skills == db.skills[kids.first := Skill(Some(name + "-0"), "", None, Some(parent))]
                                  [kids.second := Skill(Some(name + "-1"), "", None, Some(parent))]
      && after.members.Keys == db.members.Keys + {parent, kids.first, kids.second}
      && after.members[parent] == []
      && AscendingIds(after.members[kids.first]) && (forall i :: i in after.members[kids.first] <==> i in clusters.0)
      && AscendingIds(after.members[kids.second]) && (forall i :: i in after.members[kids.second] <==> i in clusters.1)
      && (forall k :: k in db.members && k !in {parent, kids.first, kids.second} ==> after.members[k] == db.members[k])
      && after == Mint(db, "agent_split", if detail != "" then detail else "split " + Decimal(parent))
                  .(skills := after.skills, members := after.members)
  {
    hide MaxId, SortedIds, Split, AscendingIds, Mint;
    SplitShares(db, parent, clusters, kids, detail);
    SortedIdsHas(Elements(clusters.0));
    SortedIdsHas(Elements(clusters.1));
  }

  lemma ClustersPartition(db: Tables, parent: nat, clusters: (seq<nat>, seq<nat>))
    ensures Elements(clusters.0) * Elements(clusters.1) == {} <==> forall i :: i in clusters.0 ==> i !in clusters.1
    ensures Elements(clusters.0) + Elements(clusters.1) == Elements(SkillMembers(db, parent)) <==>
      forall i :: i in clusters.0 || i in clusters.1 <==> i in SkillMembers(db, parent)
  {
    var (one, two, all) := (Elements(clusters.0), Elements(clusters.1), Elements(SkillMembers(db, parent)));
    if one * two == {} {
      forall i | i in clusters.0 ensures i !in clusters.1 {
        assert i !in one * two;
      }
    }
    if one + two == all {
      forall i ensures i in clusters.0 || i in clusters.1 <==> i in SkillMembers(db, parent) {
        assert i in one + two <==> i in all;
      }
    }
  }

  lemma CountsOfElements(ids: seq<nat>)
    ensures |Elements(ids)| == |ids| <==> Distinct(ids)
  {
    if Distinct(ids) {
      DistinctCardinality(ids);
    }
    if |Elements(ids)| == |ids| {
      DistinctByCount(ids);
    }
  }

  lemma SortedIdsHas(ids: set<nat>)
    ensures AscendingIds(SortedIds(ids)) && forall i :: i in SortedIds(ids) <==> i in ids
  {
    assert forall i :: i in SortedIds(ids) <==> i in Elements(SortedIds(ids));
  }

  /** Undoing a split goes ahead exactly when no other skill names a child as its parent, the children share no
      member, and a parent is there, without members, to take theirs. */
  lemma UnsplitGoesAheadIff(db: Tables, parent: nat, kids: Children)
    ensures Unsplit(db, parent, kids).Done? <==>
      && (forall k :: k in db.skills && k != kids.first && k != kids.second ==>
           db.skills[k].parent != Some(kids.first) && db.skills[k].parent != Some(kids.second))
      && (forall i :: i in SkillMembers(db, kids.first) ==> i !in SkillMembers(db, kids.second))
      && (SkillMembers(db, kids.first) + SkillMembers(db, kids.second) != [] ==>
           parent in db.skills && SkillMembers(db, parent) == [])
  {
    hide Mint, SortedIds;
    var (one, two) := (SkillMembers(db, kids.first), SkillMembers(db, kids.second));
    ElementsEmpty(one);
    ElementsEmpty(two);
    assert Elements(one) + Elements(two) == {} <==> Elements(one) == {} && Elements(two) == {};
    if Elements(one) * Elements(two) == {} {
      forall i | i in one ensures i !in two {
        assert i !in Elements(one) * Elements(two);
      }
    }
  }

  // ------------------------------------------------------------ what a split keeps

  /** A split is one queue step that moves no status, so every law of runs covers it. */
  lemma SplitIsStep(db: Tables, parent: nat, clusters: (seq<nat>, seq<nat>), kids: Children, detail: string)
    requires Split(db, parent, clusters, kids, detail).Done?
    ensures Step(db, Split(db, parent, clusters, kids, detail).db,
      Operation("agent_split", SplitLabel(parent, detail), []))
  {
    hide MaxId, SplitLabel, Child;
    assert Flips(Mint(db, "agent_split", SplitLabel(parent, detail)), [], Current(db) + 1)
        == Mint(db, "agent_split", SplitLabel(parent, detail));
  }

  /** What a split that goes through may assume of its clusters. */
  predicate Shares(db: Tables, parent: nat, one: set<nat>, two: set<nat>) {
    && parent in db.skills && one != {} && two != {} && one * two == {}
    && one + two == Elements(SkillMembers(db, parent))
  }

  lemma SplitShares(db: Tables, parent: nat, clusters: (seq<nat>, seq<nat>), kids: Children, detail: string)
    requires Split(db, parent, clusters, kids, detail).Done?
    ensures var (one, two) := (Elements(clusters.0), Elements(clusters.1));
      && Shares(db, parent, one, two)
      && Split(db, parent, clusters, kids, detail).db
         == SplitTables(db, parent, (one, two), kids, SplitLabel(parent, detail))
  {
    hide SplitTables, SplitLabel;
    ElementsEmpty(clusters.0);
    ElementsEmpty(clusters.1);
  }

  lemma SplitKeepsConsistent(db: Tables, parent: nat, one: set<nat>, two: set<nat>, kids: Children, title: string)
    requires Consistent(db) && Unused(db, kids) && Shares(db, parent, one, two)
    ensures Consistent(SplitTables(db, parent, (one, two), kids, title))
  {
    hide MaxId, Stem, SortedIds;
    var after := SplitTables(db, parent, (one, two), kids, title);
    forall k, i | k in after.members && i in after.members[k] ensures i in db.insights {
      assert forall x :: x in SkillMembers(db, parent) ==> x in db.insights;
      MovedMember(one, two, SkillMembers(db, parent), i);
    }
    assert after.members.Keys == after.skills.Keys;
  }

  lemma MovedMember(one: set<nat>, two: set<nat>, members: seq<nat>, i: nat)
    requires one + two == Elements(members)
    ensures i in SortedIds(one) || i in SortedIds(two) ==> i in members
  {
    assert i in SortedIds(one) ==> i in Elements(SortedIds(one));
    assert i in SortedIds(two) ==> i in Elements(SortedIds(two));
    assert i in members <==> i in Elements(members);
  }

  /** Undoing goes forward: one more snapshot and audit row. */
  function Reverted(db: Tables, parent: nat): Tables {
    Mint(db, "agent_split_revert", "revert split of " + Decimal(parent))
  }

  /** Undoing a split at once gives every table back but the log, with the parent's members in id order;
      that is the order they had exactly when they were listed in id order before. */
  lemma UnsplitUndoesSplit(db: Tables, parent: nat, clusters: (seq<nat>, seq<nat>), kids: Children, detail: string)
    requires Consistent(db) && Unused(db, kids) && Split(db, parent, clusters, kids, detail).Done?
    ensures parent in db.members
    ensures var undone := Unsplit(Split(db, parent, clusters, kids, detail).db, parent, kids);
      && undone.Done?
      && undone.db == db.(members := db.members[parent := SortedIds(Elements(db.members[parent]))],
                          snapshots := undone.db.snapshots, queue := undone.db.queue)
      && (undone.db.members == db.members <==> AscendingIds(db.members[parent]))
      && undone.db.snapshots == Reverted(Split(db, parent, clusters, kids, detail).db, parent).snapshots
      && undone.db.queue == Reverted(Split(db, parent, clusters, kids, detail).db, parent).queue
  {
    hide Split, Unsplit, SplitTables, SplitLabel, Consistent, SortedIds, Shares, AscendingIds, Reverted;
    var (one, two) := (Elements(clusters.0), Elements(clusters.1));
    SplitShares(db, parent, clusters, kids, detail);
    MembersOfSkills(db, parent, one, two);
    UnsplitTables(db, parent, one, two, kids, SplitLabel(parent, detail));
    UnsplitLogs(Split(db, parent, clusters, kids, detail).db, parent, kids);
    SortedIdsExact(db.members[parent]);
  }

  lemma UnsplitLogs(db: Tables, parent: nat, kids: Children)
    requires Unsplit(db, parent, kids).Done?
    ensures var undone := Unsplit(db, parent, kids).db;
      undone.snapshots == Reverted(db, parent).snapshots && undone.queue == Reverted(db, parent).queue
  {
    hide MaxId, SortedIds, LeavesDanglingChild, Elements, Decimal;
  }

  lemma UnsplitTables(db: Tables, parent: nat, one: set<nat>, two: set<nat>, kids: Children, title: string)
    requires Consistent(db) && Unused(db, kids) && Shares(db, parent, one, two) && parent in db.members
    ensures var undone := Unsplit(SplitTables(db, parent, (one, two), kids, title), parent, kids);
      && undone.Done?
      && undone.db == db.(members := db.members[parent := SortedIds(Elements(db.members[parent]))],
                          snapshots := undone.db.snapshots, queue := undone.db.queue)
  {
    hide MaxId, Child, SortedIds, LeavesDanglingChild, Consistent, Elements;
    var split := SplitTables(db, parent, (one, two), kids, title);
    var none: seq<nat> := [];
    assert db.members.Keys == db.skills.Keys by { MembersAndSkills(db); }
    NoGrandchildren(db, parent, kids, split);
    DropPair(db.skills, kids.first, kids.second, Child(db, parent, "-0"), Child(db, parent, "-1"));
    DropPair(db.members[parent := none], kids.first, kids.second, SortedIds(one), SortedIds(two));
    assert none + SortedIds(one + two) == SortedIds(one + two);
    assert db.members[parent := none][parent := SortedIds(one + two)] == db.members[parent := SortedIds(one + two)];
  }

  lemma MembersAndSkills(db: Tables)
    requires Consistent(db)
    ensures db.members.Keys == db.skills.Keys
  {
  }

  lemma DropPair<V>(m: map<nat, V>, a: nat, b: nat, x: V, y: V)
    requires a !in m && b !in m
    ensures m[a := x][b := y] - {a, b} == m
  {
  }

  lemma MembersOfSkills(db: Tables, parent: nat, one: set<nat>, two: set<nat>)
    requires Consistent(db) && Shares(db, parent, one, two)
    ensures parent in db.members
  {
  }

  lemma NoGrandchildren(db: Tables, parent: nat, kids: Children, split: Tables)
    requires Consistent(db) && Unused(db, kids) && parent in db.skills
    requires forall k :: k in split.skills && k !in {kids.first, kids.second} ==>
      k in db.skills && split.skills[k] == db.skills[k]
    ensures !LeavesDanglingChild(split, {kids.first, kids.second})
  {
  }

  lemma SortedIdsExact(ids: seq<nat>)
    ensures SortedIds(Elements(ids)) == ids <==> AscendingIds(ids)
  {
    if AscendingIds(ids) {
      IdOrderUnique(SortedIds(Elements(ids)), ids);
    }
  }

  lemma {:induction false} IdOrderUnique(a: seq<nat>, b: seq<nat>)
    requires AscendingIds(a) && AscendingIds(b) && Elements(a) == Elements(b)
    ensures a == b
    decreases |a|
  {
    ElementsEmpty(a);
    ElementsEmpty(b);
    if a != [] && b != [] {
      hide Elements;
      var i, j := |a| - 1, |b| - 1;
      LastIsGreatest(a);
      LastIsGreatest(b);
      assert a[i] == b[j];
      IdOrderUnique(a[..i], b[..j]);
    }
  }

  lemma LastIsGreatest(a: seq<nat>)
    requires AscendingIds(a) && a != []
    ensures var init, last := a[..|a| - 1], a[|a| - 1];
      && a == init + [last] && AscendingIds(init) && last in Elements(a)
      && Elements(init) == Elements(a) - {last} && forall x :: x in Elements(a) ==> x <= last
  {
    var init, last := a[..|a| - 1], a[|a| - 1];
    assert a == init + [last];
    assert last !in init;
  }

  /** So members that were listed out of id order come back reordered. */
  lemma UnsplitReorders(db: Tables, one: seq<nat>, two: seq<nat>)
    requires Consistent(db) && db.skills.Keys == {1} && db.members == map[1 := [2, 1]] && one == [1] && two == [2]
    ensures Split(db, 1, (one, two), Children(2, 3), "").Done?
    ensures var undone := Unsplit(Split(db, 1, (one, two), Children(2, 3), "").db, 1, Children(2, 3));
      undone.Done? && undone.db.members != db.members
  {
    hide Split, Unsplit;
    SmallClusters(db, [2, 1], one, two);
    UnsplitUndoesSplit(db, 1, (one, two), Children(2, 3), "");
    assert !AscendingIds(db.members[1]);
  }

  /** Undoing the split also gives the batch back its revert. */
  lemma UnsplitUnblocksRevert(db: Tables, parent: nat, clusters: (seq<nat>, seq<nat>), kids: Children, detail: string,
                              batch: nat)
    requires Consistent(db) && Unused(db, kids) && Split(db, parent, clusters, kids, detail).Done?
    ensures var undone := Unsplit(Split(db, parent, clusters, kids, detail).db, parent, kids);
      && undone.Done?
      && undone.db.skills == db.skills
      && (forall k :: k in db.skills ==> (OnlyOf(undone.db, batch, k) <==> OnlyOf(db, batch, k)))
      && (Stranded(undone.db, batch) <==> Stranded(db, batch))
  {
    hide Split, Unsplit, Consistent, SortedIds;
    UnsplitUndoesSplit(db, parent, clusters, kids, detail);
    var undone := Unsplit(Split(db, parent, clusters, kids, detail).db, parent, kids).db;
    var members := db.members[parent];
    assert forall i :: i in members <==> i in Elements(members);
    assert forall i :: i in SortedIds(Elements(members)) <==> i in Elements(SortedIds(Elements(members)));
    assert forall k, i :: k in db.members ==> (i in undone.members[k] <==> i in db.members[k]);
  }

  /** However the members were listed, a split and its undoing show in no rendering. */
  lemma UnsplitRestoresRendering(db: Tables, parent: nat, clusters: (seq<nat>, seq<nat>), kids: Children,
                                 detail: string, k: nat, snapshot: nat, quarantinedToo: bool)
    requires Consistent(db) && Unused(db, kids) && Split(db, parent, clusters, kids, detail).Done? && k in db.skills
    ensures var undone := Unsplit(Split(db, parent, clusters, kids, detail).db, parent, kids);
      && undone.Done? && k in undone.db.skills
      && Render(undone.db, k, snapshot, quarantinedToo) == Render(db, k, snapshot, quarantinedToo)
  {
    hide Split, Unsplit, Consistent, Header, Blocks, VisibleIn;
    UnsplitUndoesSplit(db, parent, clusters, kids, detail);
    var undone := Unsplit(Split(db, parent, clusters, kids, detail).db, parent, kids).db;
    assert k != parent ==> SkillMembers(undone, k) == SkillMembers(db, k);
    SameRowsSameVisible(db, undone, SortedIds(Elements(SkillMembers(db, k))), snapshot, quarantinedToo);
  }

  lemma {:induction false} SameRowsSameVisible(db: Tables, after: Tables, ids: seq<nat>, snapshot: nat,
                                               quarantinedToo: bool)
    requires after.transitions == db.transitions && after.status == db.status && after.insights == db.insights
    ensures VisibleIn(after, ids, snapshot, quarantinedToo) == VisibleIn(db, ids, snapshot, quarantinedToo)
  {
    if ids != [] {
      SameRowsSameVisible(db, after, ids[..|ids| - 1], snapshot, quarantinedToo);
    }
  }

  // ---------------------------------------------------- what a split takes from a revert

  /** Splitting a skill empties it and leaves children of no batch that name it as their parent: right after the
      split the batch that created the skill can be promoted but not reverted. */
  lemma {:induction false} SplitParentBlocksRevert(db: Tables, parent: nat, clusters: (seq<nat>, seq<nat>),
                                                   kids: Children, detail: string,
                                                   tag: string, confirm: (Atom, Atom) -> bool)
    requires Consistent(db) && Unused(db, kids) && Split(db, parent, clusters, kids, detail).Done?
    requires tag in db.batches && db.skills[parent].createdBatch == Some(db.batches[tag])
    requires Promote(Split(db, parent, clusters, kids, detail).db, tag, confirm).Ok?
    ensures Revert(Promote(Split(db, parent, clusters, kids, detail).db, tag, confirm).value.0, tag)
      == Err(IntegrityViolation)
  {
    hide MaxId, Split, SplitLabel, Stem, Promote, Revert, SortedIds, Consistent;
    var split := Split(db, parent, clusters, kids, detail).db;
    var batch := db.batches[tag];
    SplitShares(db, parent, clusters, kids, detail);
    SplitKeepsConsistent(db, parent, Elements(clusters.0), Elements(clusters.1), kids, SplitLabel(parent, detail));
    SplitStrands(db, parent, (Elements(clusters.0), Elements(clusters.1)), kids, SplitLabel(parent, detail), batch);
    RevertAfterPromoteIff(split, tag, confirm);
  }

  lemma SplitStrands(db: Tables, parent: nat, clusters: (set<nat>, set<nat>), kids: Children, title: string, batch: nat)
    requires Unused(db, kids) && parent in db.skills && db.skills[parent].createdBatch == Some(batch)
    ensures Stranded(SplitTables(db, parent, clusters, kids, title), batch)
  {
    hide MaxId, SortedIds, Stem;
    var split := SplitTables(db, parent, clusters, kids, title);
    assert OnlyOf(split, batch, parent) && !OnlyOf(split, batch, kids.first);
    assert split.skills[kids.first].parent == Some(parent);
  }

  /** Such a run: a batch of two quarantined members in the skill it created, split into one child each. */
  lemma SplitBatchCannotBeReverted(db: Tables, one: seq<nat>, two: seq<nat>, confirm: (Atom, Atom) -> bool)
    requires db.batches == map["b" := 1]
    requires db.status == map[1 := Quarantined, 2 := Quarantined]
    requires db.insights == map[1 := Insight("", "", "", Some(1), Reflector, "", None),
                                2 := Insight("", "", "", Some(1), Reflector, "", None)]
    requires db.skills == map[1 := Skill(Some("p"), "", Some(1), None)] && db.members == map[1 := [1, 2]]
      && db.edges == []
    requires one == [1] && two == [2]
    ensures var split := Split(db, 1, (one, two), Children(2, 3), "");
      && split.Done?
      && var promoted := Promote(split.db, "b", confirm);
         promoted.Ok? && Revert(promoted.value.0, "b") == Err(IntegrityViolation)
  {
    hide MaxId, Split, SplitLabel, SplitTables, Promote, Revert, Shares, Elements;
    var kids := Children(2, 3);
    SmallClusters(db, [1, 2], one, two);
    var split := Split(db, 1, (one, two), kids, "").db;
    SplitShares(db, 1, (one, two), kids, "");
    SplitStatus(db, 1, (Elements(one), Elements(two)), kids, SplitLabel(1, ""));
    SomethingToPromote(split, "b", confirm, 1);
    assert Consistent(db);
    SplitParentBlocksRevert(db, 1, (one, two), kids, "", "b", confirm);
  }

  lemma SmallClusters(db: Tables, members: seq<nat>, one: seq<nat>, two: seq<nat>)
    requires db.skills.Keys == {1} && db.members == map[1 := members] && one == [1] && two == [2]
    requires members == [1, 2] || members == [2, 1]
    ensures Split(db, 1, (one, two), Children(2, 3), "").Done?
  {
    hide SplitTables, SplitLabel;
    assert Elements(one) == {1} && Elements(two) == {2};
    assert SkillMembers(db, 1) == members;
    assert members == one + two || members == two + one;
    assert Elements(members) == Elements(one) + Elements(two);
    assert |Elements(one)| == 1 && |Elements(two)| == 1;
  }

  lemma SomethingToPromote(db: Tables, tag: string, confirm: (Atom, Atom) -> bool, i: nat)
    requires tag in db.batches && i in db.status && i in db.insights
    requires db.insights[i].batch == Some(db.batches[tag]) && db.status[i] == Quarantined
    ensures Promote(db, tag, confirm).Ok?
  {
    BatchTargetsMembers(db, db.batches[tag], {Quarantined}, i);
  }

  lemma SplitStatus(db: Tables, parent: nat, clusters: (set<nat>, set<nat>), kids: Children, title: string)
    requires parent in db.skills
    ensures var after := SplitTables(db, parent, clusters, kids, title);
      after.status == db.status && after.insights == db.insights && after.batches == db.batches
  {
  }
}
