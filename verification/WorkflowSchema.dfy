/**
 * The workflow definition check: unique node ids, resolvable references and an
 * acyclic dependsOn graph, the last decided by Kahn's algorithm.
 */
module WorkflowSchema {
  import opened Collections

  datatype Rerun = Self | DeclaredBy(checker: Option<string>)

  datatype Node = Node(id: string, dependsOn: seq<string>, rerun: Option<Rerun>)

  datatype Issue =
    | DuplicateId(node: nat)
    | UnknownDep(node: nat, dep: nat)
    | UnknownChecker(node: nat)
    | Cycle

  function Ids(nodes: seq<Node>): set<string> {
    set n | n in nodes :: n.id
  }

  // ---------------------------------------------------------------- the graph

  /** dep must run before id: some node called id lists dep, and dep is known. */
  ghost predicate Edge(nodes: seq<Node>, dep: string, id: string) {
    dep in Ids(nodes) && exists n :: n in nodes && n.id == id && dep in n.dependsOn
  }

  ghost predicate Walk(nodes: seq<Node>, p: seq<string>) {
    forall i, j :: 0 <= i && j == i + 1 && j < |p| ==> Edge(nodes, p[i], p[j])
  }

  ghost predicate ClosedWalk(nodes: seq<Node>, p: seq<string>) {
    |p| >= 2 && p[0] == p[|p| - 1] && Walk(nodes, p)
  }

  ghost predicate Cyclic(nodes: seq<Node>) {
    exists p :: ClosedWalk(nodes, p)
  }

  /** Every dependency of a listed id is listed before it. */
  ghost predicate Topological(nodes: seq<Node>, order: seq<string>) {
    forall k, dep :: 0 <= k < |order| && Edge(nodes, dep, order[k]) ==> dep in order[..k]
  }

  lemma EdgeEnds(nodes: seq<Node>, dep: string, id: string)
    requires Edge(nodes, dep, id)
    ensures dep in Ids(nodes) && id in Ids(nodes)
  {
  }

  // A topological order of all ids leaves no room for a closed walk: positions
  // strictly increase along edges.
  lemma {:induction false} WalkAdvances(nodes: seq<Node>, order: seq<string>, p: seq<string>) returns (at: seq<nat>)
    requires Topological(nodes, order) && Walk(nodes, p) && |p| >= 1
    requires p[|p| - 1] in order
    ensures |at| == |p|
    ensures forall k :: 0 <= k < |p| ==> at[k] < |order| && order[at[k]] == p[k]
    ensures forall i, j :: 0 <= i && j == i + 1 && j < |at| ==> at[i] < at[j]
  {
    if |p| == 1 {
      var k :| 0 <= k < |order| && order[k] == p[0];
      at := [k];
    } else {
      var tail := WalkAdvances(nodes, order, p[1..]);
      assert Edge(nodes, p[0], p[1]) && order[tail[0]] == p[1];
      var k :| 0 <= k < tail[0] && order[k] == p[0];
      at := [k] + tail;
    }
  }

  lemma {:induction false} IncreasingSpans(at: seq<nat>)
    requires |at| >= 2
    requires forall i, j :: 0 <= i && j == i + 1 && j < |at| ==> at[i] < at[j]
    ensures at[0] < at[|at| - 1]
  {
    if |at| > 2 {
      IncreasingSpans(at[..|at| - 1]);
    }
  }

  lemma {:induction false} TopologicalMeansAcyclic(nodes: seq<Node>, order: seq<string>)
    requires Distinct(order) && Topological(nodes, order) && Elements(order) == Ids(nodes)
    ensures !Cyclic(nodes)
  {
    if Cyclic(nodes) {
      var p :| ClosedWalk(nodes, p);
      assert Edge(nodes, p[|p| - 2], p[|p| - 2 + 1]);
      EdgeEnds(nodes, p[|p| - 2], p[|p| - 1]);
      assert p[|p| - 1] in Elements(order);
      var at := WalkAdvances(nodes, order, p);
      IncreasingSpans(at);
      assert false;
    }
  }

  /** Some dependency of id lies inside the set. */
  ghost predicate Blocked(nodes: seq<Node>, stuck: set<string>, id: string) {
    exists u :: u in stuck && Edge(nodes, u, id)
  }

  // A non-empty set in which every id has a dependency inside the set contains a
  // cycle: walk backwards until an id repeats.
  lemma {:induction false} BackwardWalk(nodes: seq<Node>, stuck: set<string>, end: string, steps: nat)
    returns (p: seq<string>)
    requires end in stuck
    requires forall v {:trigger Blocked(nodes, stuck, v)} :: v in stuck ==> Blocked(nodes, stuck, v)
    ensures |p| == steps + 1 && p[steps] == end && Walk(nodes, p)
    ensures forall x :: x in p ==> x in stuck
    decreases steps
  {
    if steps == 0 {
      p := [end];
    } else {
      assert Blocked(nodes, stuck, end);
      var u :| u in stuck && Edge(nodes, u, end);
      var init := BackwardWalk(nodes, stuck, u, steps - 1);
      p := init + [end];
    }
  }

  lemma {:induction false} StuckMeansCyclic(nodes: seq<Node>, stuck: set<string>)
    requires stuck != {}
    requires forall v {:trigger Blocked(nodes, stuck, v)} :: v in stuck ==> Blocked(nodes, stuck, v)
    ensures Cyclic(nodes)
  {
    var end :| end in stuck;
    var p := BackwardWalk(nodes, stuck, end, |stuck|);
    var i, j := Pigeonhole(p, stuck);
    var loop := p[i..j + 1];
    assert ClosedWalk(nodes, loop);
  }

  // ------------------------------------------------- edge lists and indegrees

  /** The (dependency, dependent) pairs in the order the check adds them. */
  function NodeEdges(n: Node, ids: set<string>, k: nat): seq<(string, string)>
    requires k <= |n.dependsOn|
  {
    if k == 0 then []
    else NodeEdges(n, ids, k - 1) + (if n.dependsOn[k - 1] in ids then [(n.dependsOn[k - 1], n.id)] else [])
  }

  function EdgeList(nodes: seq<Node>, ids: set<string>): seq<(string, string)> {
    if nodes == [] then []
    else
      var last := nodes[|nodes| - 1];
      EdgeList(nodes[..|nodes| - 1], ids) + NodeEdges(last, ids, |last.dependsOn|)
  }

  /** How many listed edges enter id from a dependency not yet popped. */
  function Blocking(edges: seq<(string, string)>, popped: set<string>, id: string): nat {
    if edges == [] then 0
    else
      var e := edges[|edges| - 1];
      Blocking(edges[..|edges| - 1], popped, id) + (if e.1 == id && e.0 !in popped then 1 else 0)
  }

  /** The dependents listed for dep, once per edge. */
  function Dependents(edges: seq<(string, string)>, dep: string): seq<string> {
    if edges == [] then []
    else
      var e := edges[|edges| - 1];
      Dependents(edges[..|edges| - 1], dep) + (if e.0 == dep then [e.1] else [])
  }

  function Count(xs: seq<string>, x: string): nat {
    multiset(xs)[x]
  }

  lemma {:induction false} NodeEdgesMembers(n: Node, ids: set<string>, k: nat, e: (string, string))
    requires k <= |n.dependsOn|
    ensures e in NodeEdges(n, ids, k) <==> e.0 in ids && e.0 in n.dependsOn[..k] && e.1 == n.id
  {
    if k > 0 {
      NodeEdgesMembers(n, ids, k - 1, e);
      assert n.dependsOn[..k] == n.dependsOn[..k - 1] + [n.dependsOn[k - 1]];
    }
  }

  lemma {:induction false} EdgeListMembers(nodes: seq<Node>, ids: set<string>, e: (string, string))
    ensures e in EdgeList(nodes, ids) <==> e.0 in ids && exists n :: n in nodes && n.id == e.1 && e.0 in n.dependsOn
  {
    if nodes != [] {
      var last := nodes[|nodes| - 1];
      EdgeListMembers(nodes[..|nodes| - 1], ids, e);
      NodeEdgesMembers(last, ids, |last.dependsOn|, e);
      assert last.dependsOn[..|last.dependsOn|] == last.dependsOn;
      assert nodes == nodes[..|nodes| - 1] + [last];
      if e in EdgeList(nodes[..|nodes| - 1], ids) {
        var n :| n in nodes[..|nodes| - 1] && n.id == e.1 && e.0 in n.dependsOn;
        assert n in nodes;
      }
    }
  }

  lemma {:induction false} BlockingPositive(edges: seq<(string, string)>, popped: set<string>, id: string)
    ensures Blocking(edges, popped, id) > 0 <==> exists e :: e in edges && e.1 == id && e.0 !in popped
  {
    if edges != [] {
      var init, last := edges[..|edges| - 1], edges[|edges| - 1];
      BlockingPositive(init, popped, id);
      assert edges == init + [last];
      if Blocking(init, popped, id) > 0 {
        var e :| e in init && e.1 == id && e.0 !in popped;
        assert e in edges;
      }
    }
  }

  // Popping dep unblocks exactly the dependents listed for it.
  lemma {:induction false} PopUnblocks(edges: seq<(string, string)>, popped: set<string>, dep: string, id: string)
    requires dep !in popped
    ensures Blocking(edges, popped, id) == Blocking(edges, popped + {dep}, id) + Count(Dependents(edges, dep), id)
  {
    if edges != [] {
      PopUnblocks(edges[..|edges| - 1], popped, dep, id);
    }
  }

  lemma {:induction false} DependentsMembers(edges: seq<(string, string)>, dep: string, id: string)
    ensures id in Dependents(edges, dep) <==> (dep, id) in edges
  {
    if edges != [] {
      DependentsMembers(edges[..|edges| - 1], dep, id);
      assert edges == edges[..|edges| - 1] + [edges[|edges| - 1]];
    }
  }

  // ------------------------------------------------------------ the algorithm

  /** Distinct ids in first-occurrence order, the iteration order of the id set. */
  method CollectIds(nodes: seq<Node>) returns (order: seq<string>)
    ensures Distinct(order) && Elements(order) == Ids(nodes)
  {
    order := [];
    for i := 0 to |nodes|
      invariant Distinct(order) && Elements(order) == Ids(nodes[..i])
    {
      assert nodes[..i + 1] == nodes[..i] + [nodes[i]];
      assert Ids(nodes[..i + 1]) == Ids(nodes[..i]) + {nodes[i].id} by {
        assert nodes[i] in nodes[..i + 1];
        assert forall n :: n in nodes[..i] ==> n in nodes[..i + 1];
      }
      ghost var was := order;
      assert nodes[i].id in order <==> nodes[i].id in Elements(order);
      if nodes[i].id !in order {
        order := order + [nodes[i].id];
      }
      assert Elements(order) == Elements(was) + {nodes[i].id};
    }
    assert nodes[..|nodes|] == nodes;
  }

  /** indegree and adj record exactly the listed edges. */
  ghost predicate Records(indegree: map<string, nat>, adj: map<string, seq<string>>, ids: set<string>,
                          edges: seq<(string, string)>)
  {
    && indegree == (map v | v in ids :: Blocking(edges, {}, v))
    && adj == (map v | v in ids :: Dependents(edges, v))
  }

  lemma OneMoreEdge(edges: seq<(string, string)>, e: (string, string), v: string)
    ensures Blocking(edges + [e], {}, v) == Blocking(edges, {}, v) + (if e.1 == v then 1 else 0)
    ensures Dependents(edges + [e], v) == if e.0 == v then Dependents(edges, v) + [e.1] else Dependents(edges, v)
  {
    assert (edges + [e])[..|edges|] == edges;
  }

  lemma {:induction false} RecordsEdge(indegree: map<string, nat>, adj: map<string, seq<string>>, ids: set<string>,
                                       edges: seq<(string, string)>, dep: string, id: string)
    requires Records(indegree, adj, ids, edges) && dep in ids && id in ids
    ensures indegree.Keys == adj.Keys == ids
    ensures Records(indegree[id := indegree[id] + 1], adj[dep := adj[dep] + [id]], ids, edges + [(dep, id)])
  {
    hide Blocking, Dependents;
    var indegree' := indegree[id := indegree[id] + 1];
    var adj' := adj[dep := adj[dep] + [id]];
    forall v | v in ids
      ensures indegree'[v] == Blocking(edges + [(dep, id)], {}, v)
      ensures adj'[v] == Dependents(edges + [(dep, id)], v)
    {
      OneMoreEdge(edges, (dep, id), v);
    }
  }

  method BuildGraph(nodes: seq<Node>, idOrder: seq<string>)
    returns (indegree: map<string, nat>, adj: map<string, seq<string>>)
    requires Elements(idOrder) == Ids(nodes)
    ensures Records(indegree, adj, Ids(nodes), EdgeList(nodes, Ids(nodes)))
  {
    var ids := Ids(nodes);
    indegree := map v | v in ids :: 0;
    adj := map v | v in ids :: [];
    for i := 0 to |nodes|
      invariant Records(indegree, adj, ids, EdgeList(nodes[..i], ids))
    {
      indegree, adj := AddNodeEdges(nodes[i], ids, EdgeList(nodes[..i], ids), indegree, adj);
      assert nodes[..i + 1][..i] == nodes[..i];
    }
    assert nodes[..|nodes|] == nodes;
  }

  lemma NextNodeEdge(before: seq<(string, string)>, n: Node, ids: set<string>, j: nat)
    requires j < |n.dependsOn|
    ensures before + NodeEdges(n, ids, j + 1)
         == if n.dependsOn[j] in ids then (before + NodeEdges(n, ids, j)) + [(n.dependsOn[j], n.id)]
            else before + NodeEdges(n, ids, j)
  {
  }

  lemma NoNodeEdges(before: seq<(string, string)>, n: Node, ids: set<string>)
    ensures before + NodeEdges(n, ids, 0) == before
  {
  }

  lemma RecordsKeys(indegree: map<string, nat>, adj: map<string, seq<string>>, ids: set<string>,
                    edges: seq<(string, string)>)
    requires Records(indegree, adj, ids, edges)
    ensures indegree.Keys == adj.Keys == ids
  {
  }

  method AddNodeEdges(n: Node, ids: set<string>, ghost before: seq<(string, string)>,
                      indegree0: map<string, nat>, adj0: map<string, seq<string>>)
    returns (indegree: map<string, nat>, adj: map<string, seq<string>>)
    requires Records(indegree0, adj0, ids, before) && n.id in ids
    ensures Records(indegree, adj, ids, before + NodeEdges(n, ids, |n.dependsOn|))
  {
    hide Records, NodeEdges;
    indegree, adj := indegree0, adj0;
    NoNodeEdges(before, n, ids);
    RecordsKeys(indegree, adj, ids, before);
    ghost var edges := before;
    for j := 0 to |n.dependsOn|
      invariant edges == before + NodeEdges(n, ids, j)
      invariant indegree.Keys == adj.Keys == ids
      invariant Records(indegree, adj, ids, edges)
    {
      var dep := n.dependsOn[j];
      NextNodeEdge(before, n, ids, j);
      if dep in ids {
        RecordsEdge(indegree, adj, ids, edges, dep, n.id);
        adj := adj[dep := adj[dep] + [n.id]];
        indegree := indegree[n.id := indegree[n.id] + 1];
        edges := edges + [(dep, n.id)];
      }
    }
  }

  function BlockingMap(nodes: seq<Node>, popped: set<string>): map<string, nat> {
    map v | v in Ids(nodes) :: Blocking(EdgeList(nodes, Ids(nodes)), popped, v)
  }

  /** The listed ids, popped or queued, are exactly those with nothing left to wait for. */
  ghost predicate Ready(listed: seq<string>, indegree: map<string, nat>) {
    && Distinct(listed)
    && Elements(listed) == (set v | v in indegree && indegree[v] == 0)
  }

  /** State of the peel after some pops: who is out, who is queued, what blocks. */
  ghost predicate Peeled(nodes: seq<Node>, order: seq<string>, queue: seq<string>, indegree: map<string, nat>) {
    && Ready(order + queue, indegree)
    && indegree == BlockingMap(nodes, Elements(order))
    && Topological(nodes, order)
  }

  lemma {:induction false} UnblockedMeansReady(nodes: seq<Node>, popped: set<string>, id: string)
    requires Blocking(EdgeList(nodes, Ids(nodes)), popped, id) == 0
    ensures forall dep :: Edge(nodes, dep, id) ==> dep in popped
  {
    var edges := EdgeList(nodes, Ids(nodes));
    forall dep | Edge(nodes, dep, id) ensures dep in popped {
      EdgeListMembers(nodes, Ids(nodes), (dep, id));
      BlockingPositive(edges, popped, id);
    }
  }

  // When the queue runs dry the ids still blocked all block one another.
  lemma {:induction false} DryQueueVerdict(nodes: seq<Node>, order: seq<string>, indegree: map<string, nat>)
    requires Peeled(nodes, order, [], indegree)
    ensures |order| == |Ids(nodes)| <==> !Cyclic(nodes)
  {
    hide Cyclic, EdgeList, Blocking, Topological;
    var ids, edges := Ids(nodes), EdgeList(nodes, Ids(nodes));
    assert order + [] == order;
    DistinctCardinality(order);
    SubsetCardinality(Elements(order), ids);
    var stuck := ids - Elements(order);
    if stuck == {} {
      forall v | v in ids ensures v in Elements(order) {
        assert v !in stuck;
      }
      TopologicalMeansAcyclic(nodes, order);
    } else {
      forall v | v in stuck ensures Blocked(nodes, stuck, v) {
        assert v !in order;
        BlockingPositive(edges, Elements(order), v);
        var e :| e in edges && e.1 == v && e.0 !in Elements(order);
        EdgeListMembers(nodes, ids, e);
        assert Edge(nodes, e.0, v);
      }
      StuckMeansCyclic(nodes, stuck);
    }
  }

  lemma {:induction false} TopologicalStep(nodes: seq<Node>, order: seq<string>, id: string)
    requires Topological(nodes, order)
    requires Blocking(EdgeList(nodes, Ids(nodes)), Elements(order), id) == 0
    ensures Topological(nodes, order + [id])
  {
    var out := order + [id];
    UnblockedMeansReady(nodes, Elements(order), id);
    forall k, dep | 0 <= k < |out| && Edge(nodes, dep, out[k]) ensures dep in out[..k] {
      assert out[..k] == order[..k];
    }
  }

  // Each listed dependent loses one unit; whoever reaches zero is queued.
  method Decrement(ghost out: seq<string>, ghost blocked: map<string, nat>, nexts: seq<string>,
                   queue0: seq<string>, indegree0: map<string, nat>)
    returns (queue: seq<string>, indegree: map<string, nat>)
    requires Owes(indegree0, blocked, nexts)
    requires Ready(out + queue0, indegree0)
    ensures indegree == blocked && Ready(out + queue, indegree)
  {
    hide Count;
    queue, indegree := queue0, indegree0;
    assert nexts[0..] == nexts;
    for k := 0 to |nexts|
      invariant Owes(indegree, blocked, nexts[k..])
      invariant Ready(out + queue, indegree)
    {
      var next := nexts[k];
      assert nexts[k..] == [next] + nexts[k + 1..];
      CountFirst(next, nexts[k + 1..]);
      ghost var listed, was := out + queue, indegree;
      assert next !in Elements(listed);
      indegree := indegree[next := indegree[next] - 1];
      if indegree[next] == 0 {
        queue := queue + [next];
        assert listed + [next] == out + queue;
        assert Elements(out + queue) == Elements(listed) + {next};
      }
    }
    CountNone(nexts);
  }

  lemma CountNone(nexts: seq<string>)
    ensures forall v :: Count(nexts[|nexts|..], v) == 0
  {
  }

  lemma CountFirst(next: string, rest: seq<string>)
    ensures forall v :: Count([next] + rest, v) == Count(rest, v) + if v == next then 1 else 0
  {
    assert multiset([next] + rest) == multiset{next} + multiset(rest);
  }

  /** Each indegree exceeds its target by its occurrences in the work list. */
  ghost predicate Owes(indegree: map<string, nat>, target: map<string, nat>, nexts: seq<string>) {
    && indegree.Keys == target.Keys
    && (forall v :: v in nexts ==> v in indegree)
    && (forall v :: v in indegree ==> indegree[v] == target[v] + Count(nexts, v))
  }

  // One pop: the dependents of id lose one blocking edge each, and those left
  // with none join the queue.
  method Relax(nodes: seq<Node>, ghost order: seq<string>, id: string, nexts: seq<string>,
               queue0: seq<string>, indegree0: map<string, nat>)
    returns (queue: seq<string>, indegree: map<string, nat>)
    requires Peeled(nodes, order, [id] + queue0, indegree0)
    requires nexts == Dependents(EdgeList(nodes, Ids(nodes)), id)
    ensures Peeled(nodes, order + [id], queue, indegree)
  {
    queue, indegree := queue0, indegree0;
    ghost var out := order + [id];
    assert order + ([id] + queue0) == out + queue0;
    PopLeaves(nodes, order, id, queue0, indegree0);
    queue, indegree := Decrement(out, BlockingMap(nodes, Elements(out)), nexts, queue, indegree);
  }

  // What popping id leaves to be subtracted: one unit per listed dependent.
  lemma {:induction false} PopLeaves(nodes: seq<Node>, order: seq<string>, id: string, queue: seq<string>,
                                     indegree: map<string, nat>)
    requires Peeled(nodes, order, [id] + queue, indegree)
    ensures Topological(nodes, order + [id])
    ensures Owes(indegree, BlockingMap(nodes, Elements(order + [id])), Dependents(EdgeList(nodes, Ids(nodes)), id))
  {
    var edges, popped := EdgeList(nodes, Ids(nodes)), Elements(order);
    var all := order + ([id] + queue);
    assert all[|order|] == id;
    assert id in Elements(all);
    TopologicalStep(nodes, order, id);
    assert id !in popped by {
      assert forall k :: 0 <= k < |order| ==> all[k] == order[k];
    }
    assert Elements(order + [id]) == popped + {id};
    var nexts := Dependents(edges, id);
    forall v | v in indegree
      ensures indegree[v] == Blocking(edges, popped + {id}, v) + Count(nexts, v)
    {
      PopUnblocks(edges, popped, id, v);
    }
    forall v | v in nexts ensures v in indegree {
      DependentsMembers(edges, id, v);
      EdgeListMembers(nodes, Ids(nodes), (id, v));
    }
  }

  /** The ids nothing blocks, in iteration order. */
  method Leaves(idOrder: seq<string>, indegree: map<string, nat>) returns (queue: seq<string>)
    requires Distinct(idOrder) && Elements(idOrder) == indegree.Keys
    ensures Ready(queue, indegree)
  {
    queue := [];
    for i := 0 to |idOrder|
      invariant Distinct(queue)
      invariant forall v :: v in queue <==> v in idOrder[..i] && indegree[v] == 0
    {
      assert idOrder[i] in Elements(idOrder);
      if indegree[idOrder[i]] == 0 {
        queue := queue + [idOrder[i]];
      }
    }
    forall v | v in indegree ensures indegree[v] == 0 <==> v in queue {
      assert v in Elements(idOrder);
    }
  }

  /** Kahn's algorithm: visited counts the ids peeled off, order lists them. */
  method Peel(nodes: seq<Node>) returns (visited: nat, order: seq<string>)
    ensures visited == |order|
    ensures Distinct(order) && Elements(order) <= Ids(nodes)
    ensures Topological(nodes, order)
    ensures visited == |Ids(nodes)| <==> !Cyclic(nodes)
  {
    var idOrder := CollectIds(nodes);
    var indegree, adj := BuildGraph(nodes, idOrder);
    var queue := Leaves(idOrder, indegree);
    order, visited := [], 0;
    assert order + queue == queue;
    assert Elements(order) == {};
    assert Peeled(nodes, order, queue, indegree);
    while queue != []
      invariant visited == |order|
      invariant Peeled(nodes, order, queue, indegree)
      decreases |Ids(nodes)| - |order|
    {
      var id := queue[0];
      assert queue == [id] + queue[1..];
      PeeledNext(nodes, order, queue, indegree);
      queue := queue[1..];
      visited := visited + 1;
      queue, indegree := Relax(nodes, order, id, adj[id], queue, indegree);
      order := order + [id];
    }
    DryQueueVerdict(nodes, order, indegree);
    assert order + queue == order;
  }

  // The next id is known, and there are more known ids than popped ones.
  lemma {:induction false} PeeledNext(nodes: seq<Node>, order: seq<string>, queue: seq<string>,
                                      indegree: map<string, nat>)
    requires Peeled(nodes, order, queue, indegree) && queue != []
    ensures queue[0] in Ids(nodes) && |order| < |Ids(nodes)|
  {
    var listed := order + queue;
    assert listed[|order|] == queue[0];
    assert queue[0] in Elements(listed);
    DistinctCardinality(listed);
    SubsetCardinality(Elements(listed), Ids(nodes));
  }

  // ---------------------------------------------------------------- the check

  ghost predicate DuplicatesAt(nodes: seq<Node>, i: nat)
    requires i < |nodes|
  {
    exists k :: 0 <= k < i && nodes[k].id == nodes[i].id
  }

  ghost predicate DanglingChecker(nodes: seq<Node>, i: nat)
    requires i < |nodes|
  {
    match nodes[i].rerun
    case Some(DeclaredBy(None)) => true
    case Some(DeclaredBy(Some(checker))) => checker == "" || checker !in Ids(nodes)
    case _ => false
  }

  /** What an issue says about the definition it was raised on. */
  ghost predicate Justified(nodes: seq<Node>, issue: Issue) {
    match issue
    case DuplicateId(i) => i < |nodes| && DuplicatesAt(nodes, i)
    case UnknownDep(i, j) => i < |nodes| && j < |nodes[i].dependsOn| && nodes[i].dependsOn[j] !in Ids(nodes)
    case UnknownChecker(i) => i < |nodes| && DanglingChecker(nodes, i)
    case Cycle => Cyclic(nodes)
  }

  method CheckDuplicates(nodes: seq<Node>) returns (issues: seq<Issue>)
    ensures forall issue :: issue in issues <==> issue.DuplicateId? && Justified(nodes, issue)
    ensures Distinct(issues)
  {
    issues := [];
    var seen: set<string> := {};
    for i := 0 to |nodes|
      invariant Distinct(issues)
      invariant forall id :: id in seen <==> exists k :: 0 <= k < i && nodes[k].id == id
      invariant forall issue :: issue in issues <==>
        issue.DuplicateId? && issue.node < i && DuplicatesAt(nodes, issue.node)
    {
      if nodes[i].id in seen {
        issues := issues + [DuplicateId(i)];
      }
      seen := seen + {nodes[i].id};
    }
  }

  /** An issue the reference rules raise before reaching node i's dependency j. */
  ghost predicate ReferenceIssueBefore(nodes: seq<Node>, issue: Issue, i: nat, j: nat) {
    && (issue.UnknownDep? || issue.UnknownChecker?)
    && Justified(nodes, issue)
    && (issue.node < i || (issue.node == i && issue.UnknownDep? && issue.dep < j))
  }

  method CheckReferences(nodes: seq<Node>) returns (issues: seq<Issue>)
    ensures forall issue :: issue in issues <==> ReferenceIssueBefore(nodes, issue, |nodes|, 0)
    ensures Distinct(issues)
  {
    var ids := Ids(nodes);
    issues := [];
    for i := 0 to |nodes|
      invariant Distinct(issues)
      invariant forall issue :: issue in issues <==> ReferenceIssueBefore(nodes, issue, i, 0)
    {
      for j := 0 to |nodes[i].dependsOn|
        invariant Distinct(issues)
        invariant forall issue :: issue in issues <==> ReferenceIssueBefore(nodes, issue, i, j)
      {
        if nodes[i].dependsOn[j] !in ids {
          assert UnknownDep(i, j) !in issues;
          issues := issues + [UnknownDep(i, j)];
        }
      }
      match nodes[i].rerun {
        case Some(DeclaredBy(checker)) =>
          if checker == None || checker.value == "" || checker.value !in ids {
            assert UnknownChecker(i) !in issues;
            issues := issues + [UnknownChecker(i)];
          }
        case _ =>
      }
    }
  }

  /** Every rule violation is reported, nothing else is, and none twice. */
  method Check(nodes: seq<Node>) returns (issues: seq<Issue>)
    ensures forall issue :: issue in issues <==> Justified(nodes, issue)
    ensures Distinct(issues)
  {
    issues := CheckDuplicates(nodes);
    var references := CheckReferences(nodes);
    DistinctAppend(issues, references);
    issues := issues + references;
    var visited, order := Peel(nodes);
    DistinctCardinality(order);
    SubsetCardinality(Elements(order), Ids(nodes));
    if visited < |Ids(nodes)| {
      DistinctAppend(issues, [Cycle]);
      issues := issues + [Cycle];
    }
  }

  // ------------------------------------------------- what acceptance amounts to

  // An acyclic graph can always be listed dependencies first: as long as ids
  // are left, one of them has all its dependencies listed.
  lemma {:induction false} ExtendTopological(nodes: seq<Node>, order: seq<string>) returns (full: seq<string>)
    requires !Cyclic(nodes)
    requires Distinct(order) && Elements(order) <= Ids(nodes) && Topological(nodes, order)
    ensures Distinct(full) && Elements(full) == Ids(nodes) && Topological(nodes, full)
    decreases |Ids(nodes) - Elements(order)|
  {
    var rest := Ids(nodes) - Elements(order);
    if rest == {} {
      full := order;
    } else {
      if forall v {:trigger Blocked(nodes, rest, v)} :: v in rest ==> Blocked(nodes, rest, v) {
        StuckMeansCyclic(nodes, rest);
        assert false;
      }
      var v :| v in rest && !Blocked(nodes, rest, v);
      OneMoreInOrder(nodes, order, rest, v);
      full := ExtendTopological(nodes, order + [v]);
    }
  }

  lemma OneMoreInOrder(nodes: seq<Node>, order: seq<string>, rest: set<string>, v: string)
    requires Distinct(order) && Elements(order) <= Ids(nodes) && Topological(nodes, order)
    requires rest == Ids(nodes) - Elements(order) && v in rest && !Blocked(nodes, rest, v)
    ensures var next := order + [v];
      && Distinct(next) && Elements(next) <= Ids(nodes) && Topological(nodes, next)
      && Ids(nodes) - Elements(next) == rest - {v}
  {
    hide Ids, Edge;
    var next := order + [v];
    forall k, dep | 0 <= k < |next| && Edge(nodes, dep, next[k]) ensures dep in next[..k] {
      EdgeEnds(nodes, dep, next[k]);
      assert next[..k] == order[..k];
    }
    assert Elements(next) == Elements(order) + {v};
  }

  /** Acyclic is the same as orderable: the two readings of the fourth rule agree. */
  lemma {:induction false} AcyclicIffOrderable(nodes: seq<Node>)
    ensures !Cyclic(nodes) <==>
      exists order :: Distinct(order) && Elements(order) == Ids(nodes) && Topological(nodes, order)
  {
    if !Cyclic(nodes) {
      var order := ExtendTopological(nodes, []);
    } else {
      forall order | Distinct(order) && Elements(order) == Ids(nodes) && Topological(nodes, order)
        ensures false
      {
        TopologicalMeansAcyclic(nodes, order);
      }
    }
  }
}
