/**
 * The wave executor as a transition system. Every goroutine takes one step at a
 * time; the permit channel, the mutex and the wait group are explicit state, so
 * an execution is any interleaving the scheduler could choose.
 */
module WaveExecutor {
  import opened Collections

  const CONCURRENCY: nat := 2

  /** The scheduled waves and, per node, its dependsOn list. */
  datatype Config = Config(waves: seq<seq<string>>, dependsOn: map<string, seq<string>>)

  /** How far one node's goroutine has come. The mutex is held while Copying, Writing and Written. */
  datatype Task =
    | Idle
    | Started
    | Holding
    | Copying(deps: map<string, string>, copied: nat)
    | Ready(deps: map<string, string>)
    | Ran(deps: map<string, string>, out: string, ok: bool)
    | Writing(deps: map<string, string>, out: string, ok: bool)
    | Written(deps: map<string, string>, out: string, ok: bool)
    | Recorded(deps: map<string, string>, out: string, ok: bool)
    | Returned(deps: map<string, string>, out: string, ok: bool)
    | Finished(deps: map<string, string>, out: string, ok: bool)
  {
    predicate In(phase: Phase) {
      match phase
      case Begun => !Idle?
      case Active => !Idle? && !Finished?
      case InPermit => !Idle? && !Started? && !Returned? && !Finished?
      case InLock => Copying? || Writing? || Written?
      case HasRun => Ran? || Writing? || Written? || Recorded? || Returned? || Finished?
      case HasWritten => Written? || Recorded? || Returned? || Finished?
      case HasRecorded => Recorded? || Returned? || Finished?
    }

    predicate HasSnapshot() { Ready? || In(HasRun) }
  }

  datatype Phase = Begun | Active | InPermit | InLock | HasRun | HasWritten | HasRecorded

  datatype State = State(
    wave: nat,
    next: nat,
    pending: nat,
    permits: nat,
    lock: Option<string>,
    outputs: map<string, string>,
    failed: bool,
    tasks: map<string, Task>,
    runs: seq<string>)

  datatype Action =
    | Spawn
    | Barrier
    | Acquire(id: string)
    | LockToCopy(id: string)
    | CopyDep(id: string)
    | UnlockCopy(id: string)
    | Run(id: string, out: string, ok: bool)
    | LockToWrite(id: string)
    | WriteOutput(id: string)
    | WriteFlag(id: string)
    | ReturnPermit(id: string)
    | Done(id: string)

  // ------------------------------------------------------------- the schedule

  function Before(cfg: Config, w: nat): set<string>
    requires w <= |cfg.waves|
  {
    if w == 0 then {} else Before(cfg, w - 1) + Elements(cfg.waves[w - 1])
  }

  function Scheduled(cfg: Config): set<string> {
    Before(cfg, |cfg.waves|)
  }

  /** What the topological sort promises: no id twice, dependencies in earlier waves. */
  ghost predicate Contract(cfg: Config) {
    && (forall w :: 0 <= w < |cfg.waves| ==>
        Distinct(cfg.waves[w]) && Before(cfg, w) !! Elements(cfg.waves[w]))
    && Scheduled(cfg) <= cfg.dependsOn.Keys
    && (forall w, id, dep ::
        0 <= w < |cfg.waves| && id in cfg.waves[w] && id in cfg.dependsOn && dep in cfg.dependsOn[id] ==>
          dep in Before(cfg, w) || dep !in Scheduled(cfg))
  }

  // ---------------------------------------------------------------- the steps

  function Init(cfg: Config): State {
    State(0, 0, 0, 0, None, map[], false, map id | id in Scheduled(cfg) :: Idle, [])
  }

  predicate Enabled(cfg: Config, s: State, a: Action) {
    && s.wave < |cfg.waves|
    && match a
       case Spawn => s.next < |cfg.waves[s.wave]|
       case Barrier => s.next == |cfg.waves[s.wave]| && s.pending == 0
       case Acquire(id) => id in s.tasks && s.tasks[id].Started? && s.permits < CONCURRENCY
       case LockToCopy(id) => id in s.tasks && s.tasks[id].Holding? && s.lock == None
       case CopyDep(id) =>
         && id in s.tasks && id in cfg.dependsOn
         && s.tasks[id].Copying? && s.tasks[id].copied < |cfg.dependsOn[id]|
       case UnlockCopy(id) =>
         && id in s.tasks && id in cfg.dependsOn
         && s.tasks[id].Copying? && s.tasks[id].copied >= |cfg.dependsOn[id]|
       case Run(id, _, _) => id in s.tasks && s.tasks[id].Ready?
       case LockToWrite(id) => id in s.tasks && s.tasks[id].Ran? && s.lock == None
       case WriteOutput(id) => id in s.tasks && s.tasks[id].Writing?
       case WriteFlag(id) => id in s.tasks && s.tasks[id].Written?
       case ReturnPermit(id) => id in s.tasks && s.tasks[id].Recorded? && s.permits > 0
       case Done(id) => id in s.tasks && s.tasks[id].Returned? && s.pending > 0
  }

  /** A missing map key reads as the empty string. */
  function Read(outputs: map<string, string>, dep: string): string {
    if dep in outputs then outputs[dep] else ""
  }

  /** The node an action moves; the main goroutine's spawn moves the node it starts. */
  function Moved(cfg: Config, s: State, a: Action): string
    requires Enabled(cfg, s, a) && a != Barrier
  {
    if a == Spawn then cfg.waves[s.wave][s.next] else a.id
  }

  function NextTask(cfg: Config, s: State, a: Action): Task
    requires Enabled(cfg, s, a) && a != Barrier
  {
    match a
    case Spawn => Started
    case Acquire(id) => Holding
    case LockToCopy(id) => Copying(map[], 0)
    case CopyDep(id) =>
      var t := s.tasks[id];
      var dep := cfg.dependsOn[id][t.copied];
      Copying(t.deps[dep := Read(s.outputs, dep)], t.copied + 1)
    case UnlockCopy(id) => Ready(s.tasks[id].deps)
    case Run(id, out, ok) => Ran(s.tasks[id].deps, out, ok)
    case LockToWrite(id) => var t := s.tasks[id]; Writing(t.deps, t.out, t.ok)
    case WriteOutput(id) => var t := s.tasks[id]; Written(t.deps, t.out, t.ok)
    case WriteFlag(id) => var t := s.tasks[id]; Recorded(t.deps, t.out, t.ok)
    case ReturnPermit(id) => var t := s.tasks[id]; Returned(t.deps, t.out, t.ok)
    case Done(id) => var t := s.tasks[id]; Finished(t.deps, t.out, t.ok)
  }

  function Apply(cfg: Config, s: State, a: Action): State
    requires Enabled(cfg, s, a)
  {
    if a == Barrier then s.(wave := s.wave + 1, next := 0)
    else
      var id := Moved(cfg, s, a);
      var s' := s.(tasks := s.tasks[id := NextTask(cfg, s, a)]);
      match a
      case Spawn => s'.(next := s.next + 1, pending := s.pending + 1)
      case Acquire(_) => s'.(permits := s.permits + 1)
      case LockToCopy(_) => s'.(lock := Some(id))
      case CopyDep(_) => s'
      case UnlockCopy(_) => s'.(lock := None)
      case Run(_, _, _) => s'.(runs := s.runs + [id])
      case LockToWrite(_) => s'.(lock := Some(id))
      case WriteOutput(_) => s'.(outputs := s.outputs[id := s.tasks[id].out])
      case WriteFlag(_) => s'.(lock := None, failed := s.failed || !s.tasks[id].ok)
      case ReturnPermit(_) => s'.(permits := s.permits - 1)
      case Done(_) => s'.(pending := s.pending - 1)
  }

  ghost predicate Step(cfg: Config, s: State, s': State) {
    exists a :: Enabled(cfg, s, a) && s' == Apply(cfg, s, a)
  }

  ghost predicate Execution(cfg: Config, run: seq<State>) {
    && run != []
    && run[0] == Init(cfg)
    && forall i, j :: 0 <= i && j == i + 1 && j < |run| ==> Step(cfg, run[i], run[j])
  }

  predicate Terminal(cfg: Config, s: State) {
    s.wave >= |cfg.waves|
  }

  function Verdict(s: State): string {
    if s.failed then "failed" else "done"
  }

  // ------------------------------------------------------------ the invariant

  function Where(tasks: map<string, Task>, phase: Phase): set<string> {
    set id | id in tasks && tasks[id].In(phase)
  }

  lemma WhereUpdate(tasks: map<string, Task>, id: string, t: Task, phase: Phase)
    requires id in tasks
    ensures Where(tasks[id := t], phase)
      == if t.In(phase) then Where(tasks, phase) + {id} else Where(tasks, phase) - {id}
  {
  }

  function Launched(cfg: Config, s: State): set<string>
    requires s.wave <= |cfg.waves|
    requires s.wave < |cfg.waves| ==> s.next <= |cfg.waves[s.wave]|
  {
    Before(cfg, s.wave) + if s.wave < |cfg.waves| then Elements(cfg.waves[s.wave][..s.next]) else {}
  }

  /** The main goroutine's position agrees with which nodes were started and which are over. */
  ghost predicate Scheduling(cfg: Config, s: State) {
    && s.wave <= |cfg.waves|
    && (s.wave < |cfg.waves| ==> s.next <= |cfg.waves[s.wave]|)
    && s.tasks.Keys == Scheduled(cfg)
    && Where(s.tasks, Begun) == Launched(cfg, s)
    && (forall id :: id in Before(cfg, s.wave) && id in s.tasks ==> s.tasks[id].Finished?)
  }

  function Owner(lock: Option<string>): set<string> {
    match lock { case None => {} case Some(id) => {id} }
  }

  function Outputs(tasks: map<string, Task>): map<string, string> {
    map id | id in tasks && tasks[id].In(HasWritten) :: tasks[id].out
  }

  function Failures(tasks: map<string, Task>): set<string> {
    set id | id in tasks && tasks[id].In(HasRecorded) && !tasks[id].ok
  }

  /** Wait group, permits and mutex count exactly the goroutines inside them. */
  ghost predicate Counting(s: State) {
    && s.pending == |Where(s.tasks, Active)|
    && s.permits == |Where(s.tasks, InPermit)| <= CONCURRENCY
    && Where(s.tasks, InLock) == Owner(s.lock)
  }

  /** The shared map and flag hold exactly what the goroutines have written. */
  ghost predicate Results(s: State) {
    && s.outputs == Outputs(s.tasks)
    && (s.failed <==> Failures(s.tasks) != {})
    && Distinct(s.runs)
    && Elements(s.runs) == Where(s.tasks, HasRun)
  }

  /** A copied dependency is over, and the copy is its output. */
  ghost predicate Copied(cfg: Config, s: State, dep: string, value: string) {
    if dep in s.tasks then s.tasks[dep].Finished? && s.tasks[dep].out == value else value == ""
  }

  ghost predicate Snapshot(cfg: Config, s: State, deps: map<string, string>, names: set<string>) {
    deps.Keys == names && forall dep :: dep in deps ==> Copied(cfg, s, dep, deps[dep])
  }

  ghost predicate TaskSnapshot(cfg: Config, s: State, id: string)
    requires id in s.tasks
  {
    var t := s.tasks[id];
    && id in cfg.dependsOn
    && (t.Copying? ==>
        && t.copied <= |cfg.dependsOn[id]|
        && Snapshot(cfg, s, t.deps, Elements(cfg.dependsOn[id][..t.copied])))
    && (t.HasSnapshot() ==> Snapshot(cfg, s, t.deps, Elements(cfg.dependsOn[id])))
  }

  ghost predicate Snapshots(cfg: Config, s: State) {
    forall id :: id in s.tasks ==> TaskSnapshot(cfg, s, id)
  }

  ghost predicate Inv(cfg: Config, s: State) {
    Scheduling(cfg, s) && Counting(s) && Results(s) && Snapshots(cfg, s)
  }

  // ------------------------------------------------- the invariant is kept

  lemma {:induction false} BeforeMonotone(cfg: Config, v: nat, w: nat)
    requires v <= w <= |cfg.waves|
    ensures Before(cfg, v) <= Before(cfg, w)
  {
    if v < w {
      BeforeMonotone(cfg, v, w - 1);
    }
  }

  lemma {:induction false} WaveIsScheduled(cfg: Config, w: nat)
    requires w < |cfg.waves|
    ensures Elements(cfg.waves[w]) <= Scheduled(cfg)
  {
    BeforeMonotone(cfg, w + 1, |cfg.waves|);
  }

  lemma InitHolds(cfg: Config)
    requires Contract(cfg)
    ensures Inv(cfg, Init(cfg))
  {
    hide Where, Outputs, Failures, Before, Launched;
    var s := Init(cfg);
    NothingBegun(s.tasks);
    NothingLaunched(cfg);
    assert Elements(s.runs) == {};
  }

  lemma NothingBegun(tasks: map<string, Task>)
    requires forall id :: id in tasks ==> tasks[id].Idle?
    ensures forall phase :: Where(tasks, phase) == {}
    ensures Outputs(tasks) == map[] && Failures(tasks) == {}
  {
    forall phase ensures Where(tasks, phase) == {} {
    }
  }

  lemma NothingLaunched(cfg: Config)
    ensures Before(cfg, 0) == {} && Launched(cfg, Init(cfg)) == {}
  {
    if |cfg.waves| > 0 {
      assert cfg.waves[0][..0] == [];
    }
  }

  // A step moves a node that exists and is not over.
  lemma {:induction false} MovedIsLive(cfg: Config, s: State, a: Action)
    requires Contract(cfg) && Scheduling(cfg, s) && Enabled(cfg, s, a) && a != Barrier
    ensures Moves(cfg, s, a)
  {
    if a == Spawn {
      var wave := cfg.waves[s.wave];
      var id := wave[s.next];
      WaveIsScheduled(cfg, s.wave);
      assert id in Elements(wave);
      assert id !in Launched(cfg, s);
      assert id !in Where(s.tasks, Begun);
    }
  }

  lemma {:induction false} SpawnKeepsScheduling(cfg: Config, s: State)
    requires Moves(cfg, s, Spawn) && Scheduling(cfg, s)
    ensures Scheduling(cfg, Apply(cfg, s, Spawn))
  {
    var wave := cfg.waves[s.wave];
    var id := wave[s.next];
    var s' := Apply(cfg, s, Spawn);
    WhereUpdate(s.tasks, id, Task.Started, Begun);
    assert wave[..s.next + 1] == wave[..s.next] + [id];
    assert Elements(wave[..s.next + 1]) == Elements(wave[..s.next]) + {id};
    assert Launched(cfg, s') == Launched(cfg, s) + {id};
  }

  lemma {:induction false} BarrierKeepsScheduling(cfg: Config, s: State)
    requires Inv(cfg, s) && Enabled(cfg, s, Barrier)
    ensures Scheduling(cfg, Apply(cfg, s, Barrier))
  {
    var s' := Apply(cfg, s, Barrier);
    BarrierMeansFinished(cfg, s);
    assert cfg.waves[s.wave][..s.next] == cfg.waves[s.wave];
    assert Launched(cfg, s) == Before(cfg, s'.wave);
    if s'.wave < |cfg.waves| {
      assert cfg.waves[s'.wave][..0] == [];
    }
    assert Launched(cfg, s') == Before(cfg, s'.wave);
  }

  lemma {:induction false} SchedulingKept(cfg: Config, s: State, a: Action)
    requires Moves(cfg, s, a) && a != Spawn && Scheduling(cfg, s)
    ensures Scheduling(cfg, Apply(cfg, s, a))
  {
    var id, t := Moved(cfg, s, a), NextTask(cfg, s, a);
    WhereUpdate(s.tasks, id, t, Begun);
    assert id in Where(s.tasks, Begun);
    assert Where(s.tasks[id := t], Begun) == Where(s.tasks, Begun);
  }

  // With the wait group at zero no goroutine is under way.
  lemma BarrierMeansFinished(cfg: Config, s: State)
    requires Inv(cfg, s) && s.pending == 0
    ensures forall id :: id in Launched(cfg, s) && id in s.tasks ==> s.tasks[id].Finished?
  {
    var active := Where(s.tasks, Active);
    assert active == {};
    forall id | id in Launched(cfg, s) && id in s.tasks ensures s.tasks[id].Finished? {
      assert id in Where(s.tasks, Begun);
      assert id !in active;
    }
  }

  /** The facts about the moving node that the count and result lemmas start from. */
  ghost predicate Moves(cfg: Config, s: State, a: Action) {
    && Enabled(cfg, s, a) && a != Barrier
    && Moved(cfg, s, a) in s.tasks
    && (a == Spawn <==> s.tasks[Moved(cfg, s, a)].Idle?)
  }

  lemma {:induction false} PendingKept(cfg: Config, s: State, a: Action)
    requires Moves(cfg, s, a) && s.pending == |Where(s.tasks, Active)|
    ensures var s' := Apply(cfg, s, a); s'.pending == |Where(s'.tasks, Active)|
  {
    WhereUpdate(s.tasks, Moved(cfg, s, a), NextTask(cfg, s, a), Active);
  }

  lemma {:induction false} PermitsKept(cfg: Config, s: State, a: Action)
    requires Moves(cfg, s, a) && s.permits == |Where(s.tasks, InPermit)| && s.permits <= CONCURRENCY
    ensures var s' := Apply(cfg, s, a); s'.permits == |Where(s'.tasks, InPermit)| && s'.permits <= CONCURRENCY
  {
    hide Apply, NextTask, Moved, Enabled, Where, Task.In;
    PermitMoves(cfg, s, a);
    CountMoved(s.tasks, Moved(cfg, s, a), NextTask(cfg, s, a), InPermit);
  }

  /** A permit is taken when one is free, and given back by the node that took it. */
  lemma PermitMoves(cfg: Config, s: State, a: Action)
    requires Moves(cfg, s, a)
    ensures var id, t, s' := Moved(cfg, s, a), NextTask(cfg, s, a), Apply(cfg, s, a);
      && s'.tasks == s.tasks[id := t]
      && s'.permits == s.permits + One(t.In(InPermit)) - One(s.tasks[id].In(InPermit))
      && (s'.permits > s.permits ==> s.permits < CONCURRENCY)
  {
  }

  function One(b: bool): nat { if b then 1 else 0 }

  lemma CountMoved(tasks: map<string, Task>, id: string, t: Task, phase: Phase)
    requires id in tasks
    ensures |Where(tasks[id := t], phase)| == |Where(tasks, phase)| + One(t.In(phase)) - One(tasks[id].In(phase))
  {
    hide Task.In;
    WhereUpdate(tasks, id, t, phase);
    assert id in Where(tasks, phase) <==> tasks[id].In(phase);
  }

  lemma {:induction false} LockKept(cfg: Config, s: State, a: Action)
    requires Moves(cfg, s, a) && Where(s.tasks, InLock) == Owner(s.lock)
    ensures var s' := Apply(cfg, s, a); Where(s'.tasks, InLock) == Owner(s'.lock)
  {
    var id := Moved(cfg, s, a);
    WhereUpdate(s.tasks, id, NextTask(cfg, s, a), InLock);
    assert s.tasks[id].In(InLock) ==> id in Where(s.tasks, InLock);
  }

  lemma {:induction false} OutputsKept(cfg: Config, s: State, a: Action)
    requires Moves(cfg, s, a) && s.outputs == Outputs(s.tasks)
    ensures var s' := Apply(cfg, s, a); s'.outputs == Outputs(s'.tasks)
  {
    hide Outputs;
    OutputsUpdate(s.tasks, Moved(cfg, s, a), NextTask(cfg, s, a));
  }

  lemma OutputsUpdate(tasks: map<string, Task>, id: string, t: Task)
    ensures Outputs(tasks[id := t]) == if t.In(HasWritten) then Outputs(tasks)[id := t.out] else Outputs(tasks) - {id}
    ensures id in tasks && tasks[id].In(HasWritten) && t.In(HasWritten) && tasks[id].out == t.out ==>
      Outputs(tasks[id := t]) == Outputs(tasks)
    ensures id in tasks && !tasks[id].In(HasWritten) && !t.In(HasWritten) ==> Outputs(tasks[id := t]) == Outputs(tasks)
  {
  }

  lemma {:induction false} FailedKept(cfg: Config, s: State, a: Action)
    requires Moves(cfg, s, a) && (s.failed <==> Failures(s.tasks) != {})
    ensures var s' := Apply(cfg, s, a); s'.failed <==> Failures(s'.tasks) != {}
  {
    var id, t := Moved(cfg, s, a), NextTask(cfg, s, a);
    assert Failures(s.tasks[id := t])
        == if t.In(HasRecorded) && !t.ok then Failures(s.tasks) + {id} else Failures(s.tasks) - {id};
    assert s.tasks[id].In(HasRecorded) ==> (id in Failures(s.tasks) <==> !s.tasks[id].ok);
  }

  lemma {:induction false} RunsKept(cfg: Config, s: State, a: Action)
    requires Moves(cfg, s, a) && Distinct(s.runs) && Elements(s.runs) == Where(s.tasks, HasRun)
    ensures var s' := Apply(cfg, s, a); Distinct(s'.runs) && Elements(s'.runs) == Where(s'.tasks, HasRun)
  {
    var id := Moved(cfg, s, a);
    WhereUpdate(s.tasks, id, NextTask(cfg, s, a), HasRun);
    assert s.tasks[id].In(HasRun) <==> id in Elements(s.runs);
    assert Elements(s.runs + [id]) == Elements(s.runs) + {id};
  }

  /** Nodes that are over stay exactly as they are. */
  ghost predicate KeepsFinished(s: State, s': State) {
    && s'.tasks.Keys == s.tasks.Keys
    && forall dep :: dep in s.tasks && s.tasks[dep].Finished? ==> s'.tasks[dep] == s.tasks[dep]
  }

  lemma {:induction false} StepKeepsFinished(cfg: Config, s: State, a: Action)
    requires Enabled(cfg, s, a) && (a == Barrier || Moves(cfg, s, a))
    ensures KeepsFinished(s, Apply(cfg, s, a))
  {
  }

  lemma {:induction false} SnapshotCarries(cfg: Config, s: State, s': State, deps: map<string, string>,
                                           names: set<string>)
    requires KeepsFinished(s, s') && Snapshot(cfg, s, deps, names)
    ensures Snapshot(cfg, s', deps, names)
  {
    forall dep | dep in deps ensures Copied(cfg, s', dep, deps[dep]) {
      assert Copied(cfg, s, dep, deps[dep]);
    }
  }

  lemma {:induction false} UnmovedSnapshotKept(cfg: Config, s: State, s': State, id: string)
    requires id in s.tasks && TaskSnapshot(cfg, s, id)
    requires KeepsFinished(s, s') && s'.tasks[id] == s.tasks[id]
    ensures TaskSnapshot(cfg, s', id)
  {
    var t := s.tasks[id];
    if t.Copying? {
      SnapshotCarries(cfg, s, s', t.deps, Elements(cfg.dependsOn[id][..t.copied]));
    } else if t.HasSnapshot() {
      SnapshotCarries(cfg, s, s', t.deps, Elements(cfg.dependsOn[id]));
    }
  }

  lemma {:induction false} MovedSnapshotKept(cfg: Config, s: State, a: Action)
    requires Moves(cfg, s, a) && TaskSnapshot(cfg, s, Moved(cfg, s, a))
    requires !a.CopyDep?
    ensures TaskSnapshot(cfg, Apply(cfg, s, a), Moved(cfg, s, a))
  {
    var id := Moved(cfg, s, a);
    var s', t, names := Apply(cfg, s, a), s.tasks[id], cfg.dependsOn[id];
    StepKeepsFinished(cfg, s, a);
    if t.Copying? || t.HasSnapshot() {
      assert a.UnlockCopy? ==> names[..t.copied] == names;
      SnapshotCarries(cfg, s, s', t.deps, Elements(names));
    } else {
      assert a.LockToCopy? ==> names[..0] == [];
    }
  }

  // A dependency copied now was finished by an earlier wave, or is not scheduled at all.
  lemma {:induction false} CopiedNow(cfg: Config, s: State, id: string)
    requires Contract(cfg) && Scheduling(cfg, s) && s.outputs == Outputs(s.tasks)
    requires Enabled(cfg, s, CopyDep(id))
    ensures var dep := cfg.dependsOn[id][s.tasks[id].copied]; Copied(cfg, s, dep, Read(s.outputs, dep))
  {
    var wave, dep := cfg.waves[s.wave], cfg.dependsOn[id][s.tasks[id].copied];
    assert id in Where(s.tasks, Begun);
    assert id !in Before(cfg, s.wave);
    assert id in Elements(wave[..s.next]);
    assert id in wave;
    BeforeMonotone(cfg, s.wave, |cfg.waves|);
    assert dep in Before(cfg, s.wave) || dep !in Scheduled(cfg);
  }

  lemma {:induction false} CopySnapshotKept(cfg: Config, s: State, id: string)
    requires Moves(cfg, s, CopyDep(id)) && TaskSnapshot(cfg, s, id)
    requires var dep := cfg.dependsOn[id][s.tasks[id].copied]; Copied(cfg, s, dep, Read(s.outputs, dep))
    ensures TaskSnapshot(cfg, Apply(cfg, s, CopyDep(id)), id)
  {
    var t, names := s.tasks[id], cfg.dependsOn[id];
    var dep, s' := names[t.copied], Apply(cfg, s, CopyDep(id));
    StepKeepsFinished(cfg, s, CopyDep(id));
    SnapshotCarries(cfg, s, s', t.deps, Elements(names[..t.copied]));
    assert names[..t.copied + 1] == names[..t.copied] + [dep];
    assert Elements(names[..t.copied + 1]) == Elements(names[..t.copied]) + {dep};
  }

  lemma {:induction false} SnapshotsKept(cfg: Config, s: State, a: Action)
    requires Contract(cfg) && Inv(cfg, s) && Enabled(cfg, s, a) && (a == Barrier || Moves(cfg, s, a))
    ensures Snapshots(cfg, Apply(cfg, s, a))
  {
    hide TaskSnapshot, Scheduling, Counting, Results, Contract, Enabled, Apply;
    SameTasks(cfg, s, a);
    forall id | id in s.tasks ensures TaskSnapshot(cfg, Apply(cfg, s, a), id) {
      assert TaskSnapshot(cfg, s, id);
      OneSnapshotKept(cfg, s, a, id);
    }
  }

  lemma SameTasks(cfg: Config, s: State, a: Action)
    requires Enabled(cfg, s, a) && (a == Barrier || Moves(cfg, s, a))
    ensures Apply(cfg, s, a).tasks.Keys == s.tasks.Keys
    ensures Apply(cfg, s, a).tasks == if a == Barrier then s.tasks else s.tasks[Moved(cfg, s, a) := NextTask(cfg, s, a)]
    ensures Apply(cfg, s, a).wave == if a == Barrier then s.wave + 1 else s.wave
  {
    hide NextTask;
  }

  lemma OneSnapshotKept(cfg: Config, s: State, a: Action, id: string)
    requires Contract(cfg) && Inv(cfg, s) && Enabled(cfg, s, a) && (a == Barrier || Moves(cfg, s, a))
    requires id in s.tasks && TaskSnapshot(cfg, s, id) && id in Apply(cfg, s, a).tasks
    ensures TaskSnapshot(cfg, Apply(cfg, s, a), id)
  {
    hide TaskSnapshot, Scheduling, Counting, Contract, Apply, Outputs, Failures, NextTask, KeepsFinished;
    SameTasks(cfg, s, a);
    StepKeepsFinished(cfg, s, a);
    if a == Barrier || id != Moved(cfg, s, a) {
      UnmovedSnapshotKept(cfg, s, Apply(cfg, s, a), id);
    } else if a.CopyDep? {
      CopiedNow(cfg, s, id);
      CopySnapshotKept(cfg, s, id);
    } else {
      MovedSnapshotKept(cfg, s, a);
    }
  }

  lemma {:induction false} StepKeepsInv(cfg: Config, s: State, s': State)
    requires Contract(cfg) && Inv(cfg, s) && Step(cfg, s, s')
    ensures Inv(cfg, s')
  {
    var a :| Enabled(cfg, s, a) && s' == Apply(cfg, s, a);
    if a == Barrier {
      BarrierKeepsScheduling(cfg, s);
    } else {
      MovedIsLive(cfg, s, a);
      PendingKept(cfg, s, a);
      PermitsKept(cfg, s, a);
      LockKept(cfg, s, a);
      OutputsKept(cfg, s, a);
      FailedKept(cfg, s, a);
      RunsKept(cfg, s, a);
      if a == Spawn {
        SpawnKeepsScheduling(cfg, s);
      } else {
        SchedulingKept(cfg, s, a);
      }
    }
    SnapshotsKept(cfg, s, a);
  }

  lemma {:induction false} ExecutionKeepsInv(cfg: Config, run: seq<State>, k: nat)
    requires Contract(cfg) && Execution(cfg, run) && k < |run|
    ensures Inv(cfg, run[k])
  {
    if k == 0 {
      InitHolds(cfg);
    } else {
      ExecutionKeepsInv(cfg, run, k - 1);
      StepKeepsInv(cfg, run[k - 1], run[k]);
    }
  }

  // -------------------------------------------------------------- liveness

  /** Steps a node's goroutine still has to take. */
  function Remaining(cfg: Config, id: string, t: Task): nat {
    match t
    case Idle => Copies(cfg, id) + 10
    case Started => Copies(cfg, id) + 9
    case Holding => Copies(cfg, id) + 8
    case Copying(_, copied) => (if copied <= Copies(cfg, id) then Copies(cfg, id) - copied else 0) + 7
    case Ready(_) => 6
    case Ran(_, _, _) => 5
    case Writing(_, _, _) => 4
    case Written(_, _, _) => 3
    case Recorded(_, _, _) => 2
    case Returned(_, _, _) => 1
    case Finished(_, _, _) => 0
  }

  function Copies(cfg: Config, id: string): nat {
    if id in cfg.dependsOn then |cfg.dependsOn[id]| else 0
  }

  ghost function TotalRemaining(cfg: Config, tasks: map<string, Task>): nat {
    if tasks == map[] then 0
    else
      var id :| id in tasks;
      Remaining(cfg, id, tasks[id]) + TotalRemaining(cfg, tasks - {id})
  }

  lemma {:induction false} TotalSplit(cfg: Config, tasks: map<string, Task>, id: string)
    requires id in tasks
    ensures TotalRemaining(cfg, tasks) == Remaining(cfg, id, tasks[id]) + TotalRemaining(cfg, tasks - {id})
    decreases |tasks|
  {
    var first :| first in tasks
      && TotalRemaining(cfg, tasks) == Remaining(cfg, first, tasks[first]) + TotalRemaining(cfg, tasks - {first});
    if first != id {
      TotalSplit(cfg, tasks - {first}, id);
      TotalSplit(cfg, tasks - {id}, first);
      assert tasks - {first} - {id} == tasks - {id} - {first};
    }
  }

  ghost function Budget(cfg: Config, s: State): nat {
    TotalRemaining(cfg, s.tasks) + if s.wave <= |cfg.waves| then |cfg.waves| - s.wave else 0
  }

  lemma {:induction false} StepSpendsBudget(cfg: Config, s: State, a: Action)
    requires Enabled(cfg, s, a) && (a == Barrier || Moves(cfg, s, a))
    ensures Budget(cfg, Apply(cfg, s, a)) == Budget(cfg, s) - 1
  {
    hide Apply, NextTask, TotalRemaining, Remaining;
    SameTasks(cfg, s, a);
    WaveInRange(cfg, s, a);
    if a != Barrier {
      var id, t := Moved(cfg, s, a), NextTask(cfg, s, a);
      OneLess(cfg, s, a);
      TotalSplit(cfg, s.tasks, id);
      TotalSplit(cfg, s.tasks[id := t], id);
      assert s.tasks[id := t] - {id} == s.tasks - {id};
    }
  }

  lemma WaveInRange(cfg: Config, s: State, a: Action)
    requires Enabled(cfg, s, a)
    ensures s.wave < |cfg.waves|
  {
  }

  lemma OneLess(cfg: Config, s: State, a: Action)
    requires Moves(cfg, s, a)
    ensures var id := Moved(cfg, s, a); Remaining(cfg, id, NextTask(cfg, s, a)) == Remaining(cfg, id, s.tasks[id]) - 1
  {
  }

  /** Every execution takes a bounded number of steps, whatever the interleaving. */
  lemma {:induction false} ExecutionsTerminate(cfg: Config, run: seq<State>)
    requires Contract(cfg) && Execution(cfg, run)
    ensures |run| - 1 + Budget(cfg, run[|run| - 1]) == Budget(cfg, Init(cfg))
    decreases |run|
  {
    if |run| > 1 {
      var init := run[..|run| - 1];
      assert Execution(cfg, init);
      ExecutionsTerminate(cfg, init);
      var s, s' := run[|run| - 2], run[|run| - 1];
      assert Step(cfg, s, s');
      ExecutionKeepsInv(cfg, run, |run| - 2);
      var a :| Enabled(cfg, s, a) && s' == Apply(cfg, s, a);
      if a != Barrier {
        MovedIsLive(cfg, s, a);
      }
      StepSpendsBudget(cfg, s, a);
    }
  }

  // Whoever holds the mutex can go on; with the mutex free whoever holds a permit
  // can; with no permit taken whoever waits for one can.
  lemma {:induction false} UnfinishedCanStep(cfg: Config, s: State)
    requires Inv(cfg, s) && !Terminal(cfg, s)
    ensures exists a :: Enabled(cfg, s, a)
  {
    if s.next < |cfg.waves[s.wave]| {
      assert Enabled(cfg, s, Spawn);
    } else if s.pending == 0 {
      assert Enabled(cfg, s, Barrier);
    } else if s.lock != None {
      OwnerCanStep(cfg, s, s.lock.value);
    } else if s.permits > 0 {
      assert Where(s.tasks, InPermit) != {};
      var id :| id in Where(s.tasks, InPermit);
      PermitCanStep(cfg, s, id);
    } else {
      assert Where(s.tasks, Active) != {};
      var id :| id in Where(s.tasks, Active);
      assert id !in Where(s.tasks, InPermit);
      assert Enabled(cfg, s, if s.tasks[id].Started? then Acquire(id) else Done(id));
    }
  }

  lemma OwnerCanStep(cfg: Config, s: State, id: string)
    requires s.wave < |cfg.waves| && Snapshots(cfg, s)
    requires Where(s.tasks, InLock) == {id}
    ensures exists a :: Enabled(cfg, s, a)
  {
    assert id in Where(s.tasks, InLock);
    assert TaskSnapshot(cfg, s, id);
    match s.tasks[id]
    case Copying(_, copied) =>
      assert Enabled(cfg, s, if copied < |cfg.dependsOn[id]| then CopyDep(id) else UnlockCopy(id));
    case Writing(_, _, _) => assert Enabled(cfg, s, WriteOutput(id));
    case Written(_, _, _) => assert Enabled(cfg, s, WriteFlag(id));
  }

  lemma PermitCanStep(cfg: Config, s: State, id: string)
    requires s.wave < |cfg.waves| && s.lock == None && Where(s.tasks, InLock) == {}
    requires id in Where(s.tasks, InPermit) && s.permits > 0
    ensures exists a :: Enabled(cfg, s, a)
  {
    assert id !in Where(s.tasks, InLock);
    match s.tasks[id]
    case Holding => assert Enabled(cfg, s, LockToCopy(id));
    case Ready(_) => assert Enabled(cfg, s, Run(id, "", true));
    case Ran(_, _, _) => assert Enabled(cfg, s, LockToWrite(id));
    case Recorded(_, _, _) => assert Enabled(cfg, s, ReturnPermit(id));
  }

  // --------------------------------------------------------- the guarantees

  /** No interleaving gets stuck: any reachable state that is not the end has a successor. */
  lemma {:induction false} NoDeadlock(cfg: Config, run: seq<State>)
    requires Contract(cfg) && Execution(cfg, run) && !Terminal(cfg, run[|run| - 1])
    ensures exists s :: Execution(cfg, run + [s])
  {
    var last := run[|run| - 1];
    ExecutionKeepsInv(cfg, run, |run| - 1);
    UnfinishedCanStep(cfg, last);
    var a :| Enabled(cfg, last, a);
    assert Step(cfg, last, Apply(cfg, last, a));
    assert Execution(cfg, run + [Apply(cfg, last, a)]);
  }

  /** At any moment at most two nodes run and at most one is inside the mutex. */
  lemma {:induction false} BoundedConcurrency(cfg: Config, run: seq<State>, k: nat)
    requires Contract(cfg) && Execution(cfg, run) && k < |run|
    ensures |Where(run[k].tasks, InPermit)| <= 2
    ensures forall i, j :: i in Where(run[k].tasks, InLock) && j in Where(run[k].tasks, InLock) ==> i == j
  {
    ExecutionKeepsInv(cfg, run, k);
    LockIsExclusive(run[k]);
  }

  /** No permit is held back: a started node can take one whenever fewer than two are in use. */
  lemma {:induction false} PermitsAreUsed(cfg: Config, run: seq<State>, k: nat, id: string)
    requires Contract(cfg) && Execution(cfg, run) && k < |run|
    requires id in run[k].tasks && run[k].tasks[id].Started? && |Where(run[k].tasks, InPermit)| < 2
    ensures Enabled(cfg, run[k], Acquire(id))
  {
    ExecutionKeepsInv(cfg, run, k);
    hide Contract, Execution, Results, Snapshots;
    StartedBeforeTheEnd(cfg, run[k], id);
  }

  lemma StartedBeforeTheEnd(cfg: Config, s: State, id: string)
    requires Scheduling(cfg, s) && id in s.tasks && s.tasks[id].Started?
    ensures s.wave < |cfg.waves|
  {
    hide Launched, Where;
    assert id in Before(cfg, |cfg.waves|);
  }

  lemma LockIsExclusive(s: State)
    requires Counting(s)
    ensures |Where(s.tasks, InPermit)| <= CONCURRENCY
    ensures forall i, j :: i in Where(s.tasks, InLock) && j in Where(s.tasks, InLock) ==> i == j
  {
    assert Where(s.tasks, InLock) == Owner(s.lock);
  }

  /** The state the executor must be in when it returns. */
  ghost predicate Complete(cfg: Config, s: State) {
    && Distinct(s.runs) && Elements(s.runs) == Scheduled(cfg)
    && s.outputs.Keys == s.tasks.Keys == Scheduled(cfg)
    && (forall id :: id in s.tasks ==> s.tasks[id].Finished? && s.outputs[id] == s.tasks[id].out)
    && Verdict(s) == if exists id :: id in s.tasks && s.tasks[id].Finished? && !s.tasks[id].ok then "failed" else "done"
  }

  lemma TerminalIsComplete(cfg: Config, s: State)
    requires Scheduling(cfg, s) && Results(s) && Terminal(cfg, s)
    ensures Complete(cfg, s)
  {
    forall id | id in s.tasks ensures s.tasks[id].Finished? {
      assert id in Before(cfg, s.wave);
    }
    assert Where(s.tasks, HasRun) == s.tasks.Keys;
    assert s.failed <==> Failures(s.tasks) != {};
    assert forall id :: id in Failures(s.tasks) <==> id in s.tasks && s.tasks[id].Finished? && !s.tasks[id].ok;
    if s.failed {
      var id :| id in Failures(s.tasks);
      assert s.tasks[id].Finished? && !s.tasks[id].ok;
    }
  }

  /** When the executor returns, every scheduled node ran exactly once, and the verdict says whether one failed. */
  lemma {:induction false} FinalVerdict(cfg: Config, run: seq<State>)
    requires Contract(cfg) && Execution(cfg, run) && Terminal(cfg, run[|run| - 1])
    ensures Complete(cfg, run[|run| - 1])
  {
    ExecutionKeepsInv(cfg, run, |run| - 1);
    TerminalIsComplete(cfg, run[|run| - 1]);
  }

  lemma {:induction false} KnownStepKeepsFinished(cfg: Config, s: State, s': State)
    requires Contract(cfg) && Scheduling(cfg, s) && Step(cfg, s, s')
    ensures KeepsFinished(s, s')
  {
    var a :| Enabled(cfg, s, a) && s' == Apply(cfg, s, a);
    if a != Barrier {
      MovedIsLive(cfg, s, a);
    }
    StepKeepsFinished(cfg, s, a);
  }

  lemma NextKeepsFinished(cfg: Config, run: seq<State>, k: nat)
    requires Contract(cfg) && Execution(cfg, run) && k + 1 < |run|
    ensures KeepsFinished(run[k], run[k + 1])
  {
    var s, s' := run[k], run[k + 1];
    assert Scheduling(cfg, s) by {
      ExecutionKeepsInv(cfg, run, k);
    }
    assert Step(cfg, s, s');
    KnownStepKeepsFinished(cfg, s, s');
  }

  lemma {:induction false} FinishedForGood(run: seq<State>, j: nat, k: nat, id: string)
    requires forall i, i' :: 0 <= i && i' == i + 1 && i' < |run| ==> KeepsFinished(run[i], run[i'])
    requires j <= k < |run|
    requires id in run[j].tasks && run[j].tasks[id].Finished?
    ensures id in run[k].tasks && run[k].tasks[id] == run[j].tasks[id]
  {
    if j < k {
      FinishedForGood(run, j, k - 1, id);
      assert KeepsFinished(run[k - 1], run[k]);
    }
  }

  /** What a node was given for a dependency is that dependency's final output, for good. */
  lemma {:induction false} SnapshotsAreFinal(cfg: Config, run: seq<State>, j: nat, k: nat, id: string, dep: string)
    requires Contract(cfg) && Execution(cfg, run) && j <= k < |run|
    requires id in run[j].tasks && run[j].tasks[id].HasSnapshot() && id in cfg.dependsOn
    ensures dep in run[j].tasks[id].deps <==> dep in cfg.dependsOn[id]
    ensures dep in cfg.dependsOn[id] ==> run[j].tasks[id].deps[dep] == Read(run[k].outputs, dep)
  {
    assert TaskSnapshot(cfg, run[j], id) && run[j].tasks.Keys == Scheduled(cfg) by {
      ExecutionKeepsInv(cfg, run, j);
    }
    assert run[k].outputs == Outputs(run[k].tasks) && run[k].tasks.Keys == Scheduled(cfg) by {
      ExecutionKeepsInv(cfg, run, k);
    }
    assert dep in cfg.dependsOn[id] <==> dep in Elements(cfg.dependsOn[id]);
    if dep in cfg.dependsOn[id] {
      assert Copied(cfg, run[j], dep, run[j].tasks[id].deps[dep]);
      if dep in run[j].tasks {
        forall i, i' | 0 <= i && i' == i + 1 && i' < |run| ensures KeepsFinished(run[i], run[i']) {
          NextKeepsFinished(cfg, run, i);
        }
        FinishedForGood(run, j, k, dep);
      }
    }
  }
}
