/**
 * From definition to run: the sorter that cuts a node list into waves, and why
 * its waves are what the executor relies on.
 */
module WorkflowRun {
  import opened Collections
  import opened Ordering
  import opened WorkflowSchema
  import WaveExecutor

  // ----------------------------------------------------------------- the waves

  function Flat(waves: seq<seq<string>>): seq<string> {
    if waves == [] then [] else Flat(waves[..|waves| - 1]) + waves[|waves| - 1]
  }

  /** Every known dependency of id is done. */
  ghost predicate Unblocked(nodes: seq<Node>, done: set<string>, id: string) {
    forall dep :: Edge(nodes, dep, id) ==> dep in done
  }

  ghost function NextWave(nodes: seq<Node>, done: set<string>): set<string> {
    set id | id in Ids(nodes) && id !in done && Unblocked(nodes, done, id)
  }

  /** Each wave lists, sorted, exactly the nodes not yet done whose dependencies all are. */
  ghost predicate Layers(nodes: seq<Node>, waves: seq<seq<string>>) {
    forall w :: 0 <= w < |waves| ==>
      waves[w] != [] && waves[w] == SortedList(NextWave(nodes, Elements(Flat(waves[..w]))))
  }

  /** Kahn's algorithm wave by wave; None for a cycle. */
  method TopoSort(nodes: seq<Node>) returns (r: Option<seq<seq<string>>>)
    ensures r.None? <==> Cyclic(nodes)
    ensures r.Some? ==> Layers(nodes, r.value) && Elements(Flat(r.value)) == Ids(nodes)
  {
    hide Cyclic, Peeled, Layers, Sort;
    var idOrder := CollectIds(nodes);
    var indegree, adj := BuildGraph(nodes, idOrder);
    var cur := Leaves(idOrder, indegree);
    var waves: seq<seq<string>>, processed := [], 0;
    ghost var order: seq<string> := [];
    NothingPeeled(nodes, cur, indegree, adj);
    while cur != []
      invariant Peeled(nodes, order, cur, indegree) && Layers(nodes, waves)
      invariant order == Flat(waves) && processed == |order|
      decreases |Ids(nodes)| - |order|
    {
      WaveFound(nodes, order, cur, indegree);
      PeeledNext(nodes, order, cur, indegree);
      cur := Sort(cur);
      OneMoreWave(nodes, waves, cur);
      waves := waves + [cur];
      processed := processed + |cur|;
      ghost var wave := cur;
      cur, indegree := ProcessWave(nodes, order, cur, adj, indegree);
      order := order + wave;
    }
    DryQueueVerdict(nodes, order, indegree);
    AllOut(nodes, order, indegree);
    if processed < |Ids(nodes)| {
      return None;
    }
    return Some(waves);
  }

  // The dependents of each node of the wave lose their edges; who has none left makes the next wave.
  method ProcessWave(nodes: seq<Node>, ghost order: seq<string>, cur: seq<string>, adj: map<string, seq<string>>,
                     indegree0: map<string, nat>)
    returns (next: seq<string>, indegree: map<string, nat>)
    requires Peeled(nodes, order, cur, indegree0)
    requires adj == map v | v in Ids(nodes) :: Dependents(EdgeList(nodes, Ids(nodes)), v)
    ensures Peeled(nodes, order + cur, next, indegree)
  {
    hide Peeled, Dependents, EdgeList;
    next, indegree := [], indegree0;
    assert order + cur[..0] == order && cur[0..] + next == cur;
    for i := 0 to |cur|
      invariant Peeled(nodes, order + cur[..i], cur[i..] + next, indegree)
    {
      var id := cur[i];
      assert cur[i..] + next == [id] + (cur[i + 1..] + next);
      PeeledNext(nodes, order + cur[..i], cur[i..] + next, indegree);
      next, indegree := RelaxInto(nodes, order + cur[..i], id, cur[i + 1..], adj[id], next, indegree);
      assert order + cur[..i] + [id] == order + cur[..i + 1];
    }
    assert cur[..|cur|] == cur && cur[|cur|..] + next == next;
  }

  method RelaxInto(nodes: seq<Node>, ghost order: seq<string>, id: string, ghost rest: seq<string>, nexts: seq<string>,
                   next0: seq<string>, indegree0: map<string, nat>)
    returns (next: seq<string>, indegree: map<string, nat>)
    requires Peeled(nodes, order, [id] + (rest + next0), indegree0)
    requires nexts == Dependents(EdgeList(nodes, Ids(nodes)), id)
    ensures Peeled(nodes, order + [id], rest + next, indegree)
  {
    hide Topological, Dependents, EdgeList, Ready, BlockingMap;
    ghost var out := order + [id] + rest;
    assert order + ([id] + (rest + next0)) == out + next0;
    PopLeaves(nodes, order, id, rest + next0, indegree0);
    next, indegree := Decrement(out, BlockingMap(nodes, Elements(order + [id])), nexts, next0, indegree0);
    assert out + next == (order + [id]) + (rest + next);
  }

  lemma NothingPeeled(nodes: seq<Node>, cur: seq<string>, indegree: map<string, nat>, adj: map<string, seq<string>>)
    requires Records(indegree, adj, Ids(nodes), EdgeList(nodes, Ids(nodes))) && Ready(cur, indegree)
    ensures Peeled(nodes, [], cur, indegree) && Layers(nodes, []) && Flat([]) == []
    ensures adj == map v | v in Ids(nodes) :: Dependents(EdgeList(nodes, Ids(nodes)), v)
  {
    assert [] + cur == cur;
    var none: seq<string> := [];
    assert Elements(none) == {};
  }

  lemma AllOut(nodes: seq<Node>, order: seq<string>, indegree: map<string, nat>)
    requires Peeled(nodes, order, [], indegree)
    ensures |order| <= |Ids(nodes)| && (|order| == |Ids(nodes)| ==> Elements(order) == Ids(nodes))
  {
    assert order + [] == order;
    DistinctCardinality(order);
    SubsetCardinality(Elements(order), Ids(nodes));
  }

  lemma UnblockedIffZero(nodes: seq<Node>, done: set<string>, id: string)
    ensures Unblocked(nodes, done, id) <==> Blocking(EdgeList(nodes, Ids(nodes)), done, id) == 0
  {
    hide EdgeList, Blocking, Edge;
    var edges := EdgeList(nodes, Ids(nodes));
    BlockingPositive(edges, done, id);
    if Blocking(edges, done, id) == 0 {
      UnblockedMeansReady(nodes, done, id);
    } else {
      var e :| e in edges && e.1 == id && e.0 !in done;
      EdgeListMembers(nodes, Ids(nodes), e);
      ListedEdge(nodes, e);
    }
  }

  lemma ListedEdge(nodes: seq<Node>, e: (string, string))
    requires e.0 in Ids(nodes) && exists n :: n in nodes && n.id == e.1 && e.0 in n.dependsOn
    ensures Edge(nodes, e.0, e.1)
  {
  }

  /** What is queued when a wave starts is exactly that wave, and sorting it loses nothing. */
  lemma WaveFound(nodes: seq<Node>, order: seq<string>, cur: seq<string>, indegree: map<string, nat>)
    requires Peeled(nodes, order, cur, indegree)
    ensures Sort(cur) == SortedList(NextWave(nodes, Elements(order)))
    ensures |Sort(cur)| == |cur| && Peeled(nodes, order, Sort(cur), indegree)
  {
    hide Topological, EdgeList, Blocking, Unblocked, Sort, SortedList;
    SplitDistinct(order, cur);
    forall id | id in Ids(nodes) ensures Unblocked(nodes, Elements(order), id) <==> indegree[id] == 0 {
      UnblockedIffZero(nodes, Elements(order), id);
    }
    assert Elements(cur) == NextWave(nodes, Elements(order));
    SortOfListing(cur, Elements(cur));
    SortOrders(cur);
    SortSame(order, cur);
  }

  lemma SplitDistinct(order: seq<string>, cur: seq<string>)
    requires Distinct(order + cur)
    ensures Distinct(order) && Distinct(cur)
    ensures Elements(order) !! Elements(cur) && Elements(order + cur) == Elements(order) + Elements(cur)
  {
    var all := order + cur;
    forall i, j | 0 <= i < j < |order| ensures order[i] != order[j] {
      assert order[i] == all[i] && order[j] == all[j];
    }
    forall i, j | 0 <= i < j < |cur| ensures cur[i] != cur[j] {
      assert cur[i] == all[|order| + i] && cur[j] == all[|order| + j];
    }
    forall i, j | 0 <= i < |order| && 0 <= j < |cur| ensures order[i] != cur[j] {
      assert order[i] == all[i] && cur[j] == all[|order| + j];
    }
  }

  lemma SortSame(order: seq<string>, cur: seq<string>)
    requires Distinct(order + cur) && multiset(Sort(cur)) == multiset(cur)
    ensures Distinct(order + Sort(cur)) && Elements(order + Sort(cur)) == Elements(order + cur) && |Sort(cur)| == |cur|
  {
    hide Sort;
    SplitDistinct(order, cur);
    var sorted := Sort(cur);
    assert |multiset(sorted)| == |sorted|;
    forall x ensures x in sorted <==> x in cur {
      assert x in multiset(sorted) <==> x in multiset(cur);
    }
    SortOfListing(cur, Elements(cur));
    forall y | y in sorted ensures y !in order {
      assert y in Elements(cur) && y !in Elements(order);
    }
    DistinctAppend(order, sorted);
  }

  lemma OneMoreWave(nodes: seq<Node>, waves: seq<seq<string>>, wave: seq<string>)
    requires Layers(nodes, waves) && wave != [] && wave == SortedList(NextWave(nodes, Elements(Flat(waves))))
    ensures Layers(nodes, waves + [wave]) && Flat(waves + [wave]) == Flat(waves) + wave
  {
    hide NextWave, SortedList;
    var more := waves + [wave];
    assert more[..|waves|] == waves;
    forall w | 0 <= w < |more|
      ensures more[w] != [] && more[w] == SortedList(NextWave(nodes, Elements(Flat(more[..w]))))
    {
      assert w < |waves| ==> more[..w] == waves[..w];
    }
  }

  // ------------------------------------------------------------ what they promise

  /** The executor's node table: a later node with the same id replaces an earlier one. */
  function DependsOnById(nodes: seq<Node>): map<string, seq<string>> {
    if nodes == [] then map[]
    else
      var last := nodes[|nodes| - 1];
      DependsOnById(nodes[..|nodes| - 1])[last.id := last.dependsOn]
  }

  /** The last node of a name, later ones replacing earlier. */
  ghost predicate LastOf(nodes: seq<Node>, k: nat, id: string) {
    k < |nodes| && nodes[k].id == id && forall j :: k < j < |nodes| ==> nodes[j].id != id
  }

  /** The node table has every id, and under it the dependency list of the last node with that id. */
  lemma {:induction false} DependsOnByIdRecords(nodes: seq<Node>)
    ensures DependsOnById(nodes).Keys == Ids(nodes)
    ensures forall k: nat, id :: LastOf(nodes, k, id) ==>
      id in DependsOnById(nodes) && DependsOnById(nodes)[id] == nodes[k].dependsOn
  {
    if nodes != [] {
      var init, last := nodes[..|nodes| - 1], nodes[|nodes| - 1];
      assert nodes == init + [last];
      DependsOnByIdRecords(init);
      forall k: nat, id | LastOf(nodes, k, id)
        ensures id in DependsOnById(nodes) && DependsOnById(nodes)[id] == nodes[k].dependsOn
      {
        if k < |init| {
          assert nodes[|init|].id != id && LastOf(init, k, id);
        }
      }
      forall n | n in init ensures n.id in Ids(nodes) {
        assert n in nodes;
      }
      assert last in nodes;
    }
  }

  lemma {:induction false} LastExists(nodes: seq<Node>, id: string) returns (k: nat)
    requires id in Ids(nodes)
    ensures LastOf(nodes, k, id)
  {
    k := |nodes| - 1;
    if nodes[k].id != id {
      assert nodes == nodes[..k] + [nodes[k]];
      k := LastExists(nodes[..k], id);
    }
  }

  lemma {:induction false} FlatIsBefore(cfg: WaveExecutor.Config, w: nat)
    requires w <= |cfg.waves|
    ensures WaveExecutor.Before(cfg, w) == Elements(Flat(cfg.waves[..w]))
  {
    if w > 0 {
      FlatIsBefore(cfg, w - 1);
      assert cfg.waves[..w][..w - 1] == cfg.waves[..w - 1];
      assert Elements(Flat(cfg.waves[..w - 1]) + cfg.waves[w - 1])
        == Elements(Flat(cfg.waves[..w - 1])) + Elements(cfg.waves[w - 1]);
    }
  }

  lemma WaveMembers(nodes: seq<Node>, waves: seq<seq<string>>, w: nat)
    requires Layers(nodes, waves) && w < |waves|
    ensures Distinct(waves[w]) && Elements(waves[w]) == NextWave(nodes, Elements(Flat(waves[..w])))
    ensures forall id :: id in waves[w] <==> id in NextWave(nodes, Elements(Flat(waves[..w])))
  {
    hide NextWave;
    assert forall id :: id in waves[w] <==> id in Elements(waves[w]);
  }

  /** The sorter's waves meet the executor's contract, for every node list it accepts. */
  lemma WavesMeetContract(nodes: seq<Node>, waves: seq<seq<string>>)
    requires Layers(nodes, waves) && Elements(Flat(waves)) == Ids(nodes)
    ensures var cfg := WaveExecutor.Config(waves, DependsOnById(nodes));
      WaveExecutor.Contract(cfg) && WaveExecutor.Scheduled(cfg) == Ids(nodes)
  {
    hide Flat, NextWave, DependsOnById, Layers, WaveExecutor.Before;
    var cfg := WaveExecutor.Config(waves, DependsOnById(nodes));
    DependsOnByIdRecords(nodes);
    FlatIsBefore(cfg, |waves|);
    assert waves[..|waves|] == waves;
    forall w | 0 <= w < |waves|
      ensures Distinct(waves[w]) && WaveExecutor.Before(cfg, w) !! Elements(waves[w])
    {
      FlatIsBefore(cfg, w);
      WaveMembers(nodes, waves, w);
      WaveIsNew(nodes, Elements(Flat(waves[..w])), waves[w]);
    }
    forall w, id, dep | 0 <= w < |waves| && id in waves[w] && id in cfg.dependsOn && dep in cfg.dependsOn[id]
      ensures dep in WaveExecutor.Before(cfg, w) || dep !in WaveExecutor.Scheduled(cfg)
    {
      FlatIsBefore(cfg, w);
      WaveMembers(nodes, waves, w);
      DependencyDone(nodes, Elements(Flat(waves[..w])), id, dep);
    }
  }

  lemma WaveIsNew(nodes: seq<Node>, done: set<string>, wave: seq<string>)
    requires Elements(wave) == NextWave(nodes, done)
    ensures done !! Elements(wave)
  {
  }

  lemma DependencyDone(nodes: seq<Node>, done: set<string>, id: string, dep: string)
    requires id in NextWave(nodes, done) && id in DependsOnById(nodes) && dep in DependsOnById(nodes)[id]
    ensures dep in done || dep !in Ids(nodes)
  {
    DependsOnByIdRecords(nodes);
    var k := LastExists(nodes, id);
    var n := nodes[k];
    assert n in nodes;
    if dep in Ids(nodes) {
      assert Edge(nodes, dep, id);
    }
  }

  /** No node waits longer than it must: past the first wave each has a dependency in the wave just before. */
  lemma NoWaveTooLate(nodes: seq<Node>, waves: seq<seq<string>>, w: nat, id: string) returns (dep: string)
    requires Layers(nodes, waves) && 0 < w < |waves| && id in waves[w]
    ensures dep in waves[w - 1] && Edge(nodes, dep, id)
  {
    hide Edge;
    WaveMembers(nodes, waves, w);
    WaveMembers(nodes, waves, w - 1);
    var done, before := Elements(Flat(waves[..w])), Elements(Flat(waves[..w - 1]));
    assert waves[..w][..w - 1] == waves[..w - 1];
    assert done == before + Elements(waves[w - 1]);
    assert id !in NextWave(nodes, before);
    dep :| Edge(nodes, dep, id) && dep !in before;
  }

  lemma {:induction false} SameFront(nodes: seq<Node>, waves: seq<seq<string>>, others: seq<seq<string>>, k: nat)
    requires Layers(nodes, waves) && Layers(nodes, others)
    requires k <= |waves| && k <= |others|
    ensures waves[..k] == others[..k]
  {
    hide NextWave, Flat, SortedList;
    if k > 0 {
      SameFront(nodes, waves, others, k - 1);
      assert waves[k - 1] == others[k - 1];
      assert waves[..k] == waves[..k - 1] + [waves[k - 1]];
      assert others[..k] == others[..k - 1] + [others[k - 1]];
    }
  }

  /** The waves depend only on the graph: any two complete answers for the same nodes are equal. */
  lemma WavesAreUnique(nodes: seq<Node>, waves: seq<seq<string>>, others: seq<seq<string>>)
    requires Layers(nodes, waves) && Elements(Flat(waves)) == Ids(nodes)
    requires Layers(nodes, others) && Elements(Flat(others)) == Ids(nodes)
    ensures waves == others
  {
    hide Layers, Flat, Elements, Ids;
    var k := if |waves| <= |others| then |waves| else |others|;
    SameFront(nodes, waves, others, k);
    assert waves[..|waves|] == waves && others[..|others|] == others;
    CompleteHasNoMore(nodes, waves, k);
    CompleteHasNoMore(nodes, others, k);
  }

  lemma CompleteHasNoMore(nodes: seq<Node>, waves: seq<seq<string>>, k: nat)
    requires Layers(nodes, waves) && k <= |waves| && Elements(Flat(waves[..k])) == Ids(nodes)
    ensures k == |waves|
  {
    hide Flat, Unblocked;
    assert NextWave(nodes, Ids(nodes)) == {};
  }

  /** No rule violated: the check of this definition reports nothing. */
  ghost predicate Accepted(nodes: seq<Node>) {
    forall issue :: !Justified(nodes, issue)
  }

  /** Definition check, sorter and executor agree: what the check accepts is sorted, and its waves can run. */
  method Schedule(nodes: seq<Node>) returns (cfg: Option<WaveExecutor.Config>)
    ensures cfg.None? <==> Cyclic(nodes)
    ensures Accepted(nodes) ==> cfg.Some?
    ensures cfg.Some? ==> cfg.value.dependsOn == DependsOnById(nodes)
    ensures cfg.Some? ==> WaveExecutor.Contract(cfg.value) && WaveExecutor.Scheduled(cfg.value) == Ids(nodes)
  {
    assert Accepted(nodes) ==> !Justified(nodes, Cycle);
    var waves := TopoSort(nodes);
    if waves == None {
      return None;
    }
    WavesMeetContract(nodes, waves.value);
    return Some(WaveExecutor.Config(waves.value, DependsOnById(nodes)));
  }
}
