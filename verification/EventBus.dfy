/**
 * The daemon's event bus: a bounded replay buffer and a registry of
 * subscribers under one lock, with every delivery made outside it. Publishers,
 * registrations and removals interleave freely; what a registration is sent
 * is accounted for event by event.
 */
module EventBus {
  import opened Collections

  const MAX_RECENT: nat := 200

  /** The last MAX_RECENT of a sequence of events. */
  function Recent<E>(events: seq<E>): seq<E> {
    if |events| > MAX_RECENT then events[|events| - MAX_RECENT..] else events
  }

  /** The two fields guarded by the lock; a subscriber's callback is known by a number. */
  class Registry<E(!new)> {
    var recent: seq<E>
    var eventSinks: map<string, nat>

    constructor ()
      ensures recent == [] && eventSinks == map[] && Locked(Fresh(), recent, eventSinks)
    {
      recent, eventSinks := [], map[];
    }

    /** The locked part of publishing: buffer the event, copy out the subscribers in some order. */
    method Record(env: E) returns (sinks: seq<nat>)
      modifies this
      ensures recent == Recent(old(recent) + [env]) && eventSinks == old(eventSinks)
      ensures multiset(sinks) == Subscribers(eventSinks, eventSinks.Keys)
      ensures forall b: Bus<E> :: Locked(b, old(recent), old(eventSinks)) ==>
        Enabled(b, Publish(env, sinks)) && Locked(Next(b, Publish(env, sinks)), recent, eventSinks)
    {
      hide Subscribers, Enabled, Locked, Next;
      recent := recent + [env];
      if |recent| > MAX_RECENT {
        recent := recent[|recent| - MAX_RECENT..];
      }
      sinks := CopySinks();
      forall b: Bus<E> | Locked(b, old(recent), old(eventSinks))
        ensures Enabled(b, Publish(env, sinks)) && Locked(Next(b, Publish(env, sinks)), recent, eventSinks)
      {
        RecordIsPublish(b, old(recent), eventSinks, env, sinks);
      }
    }

    method CopySinks() returns (sinks: seq<nat>)
      ensures multiset(sinks) == Subscribers(eventSinks, eventSinks.Keys)
    {
      hide Subscribers;
      sinks := [];
      NoSubscribers(eventSinks);
      var ids := eventSinks.Keys;
      while ids != {}
        invariant ids <= eventSinks.Keys
        invariant multiset(sinks) + Subscribers(eventSinks, ids) == Subscribers(eventSinks, eventSinks.Keys)
        decreases |ids|
      {
        var id :| id in ids;
        SubscribersWithout(eventSinks, ids, id);
        sinks := sinks + [eventSinks[id]];
        ids := ids - {id};
      }
    }

    /** The locked part of registering: take or take over the id, copy out the buffer. */
    method Register(id: string, fn: nat) returns (replay: seq<E>)
      modifies this
      ensures eventSinks == old(eventSinks)[id := fn] && recent == old(recent) == replay
      ensures forall b: Bus<E> :: Locked(b, old(recent), old(eventSinks)) && fn == |b.subs| ==>
        Locked(Next(b, Add(id)), recent, eventSinks) && Next(b, Add(id)).tasks == b.tasks + [Replay(fn, replay)]
    {
      eventSinks := eventSinks[id := fn];
      replay := recent;
    }

    method RemoveEventSink(id: string)
      modifies this
      ensures eventSinks == old(eventSinks) - {id} && recent == old(recent)
      ensures forall b: Bus<E> :: Locked(b, old(recent), old(eventSinks)) ==>
        Locked(Next(b, Remove(id)), recent, eventSinks)
    {
      eventSinks := eventSinks - {id};
    }
  }

  /** The callbacks registered under some ids, as often as they are registered. */
  ghost function Subscribers(sinks: map<string, nat>, ids: set<string>): multiset<nat>
    requires ids <= sinks.Keys
    decreases |ids|
  {
    if ids == {} then multiset{}
    else
      var id :| id in ids;
      multiset{sinks[id]} + Subscribers(sinks, ids - {id})
  }

  lemma {:induction false} SubscribersWithout(sinks: map<string, nat>, ids: set<string>, id: string)
    requires id in ids && ids <= sinks.Keys
    ensures Subscribers(sinks, ids) == multiset{sinks[id]} + Subscribers(sinks, ids - {id})
    decreases |ids|
  {
    var first :| first in ids && Subscribers(sinks, ids) == multiset{sinks[first]} + Subscribers(sinks, ids - {first});
    if first != id {
      SubscribersWithout(sinks, ids - {first}, id);
      SubscribersWithout(sinks, ids - {id}, first);
      assert ids - {first} - {id} == ids - {id} - {first};
    }
  }

  lemma {:induction false} SubscribersDistinct(sinks: map<string, nat>, ids: set<string>)
    requires ids <= sinks.Keys
    requires forall a, b :: a in ids && b in ids && a != b ==> sinks[a] != sinks[b]
    ensures forall t: nat :: Subscribers(sinks, ids)[t] == if exists id :: id in ids && sinks[id] == t then 1 else 0
    decreases |ids|
  {
    hide Subscribers;
    NoSubscribers(sinks);
    if ids != {} {
      var id :| id in ids;
      SubscribersWithout(sinks, ids, id);
      SubscribersDistinct(sinks, ids - {id});
      forall t: nat
        ensures Subscribers(sinks, ids)[t] == if exists other :: other in ids && sinks[other] == t then 1 else 0
      {
        if t != sinks[id] && exists other :: other in ids && sinks[other] == t {
          var other :| other in ids && sinks[other] == t;
          assert other in ids - {id};
        }
      }
    }
  }

  // -------------------------------------------------------- all interleavings

  /** One registration: its id, how many events were published before it, and before its end. */
  datatype Sub = Sub(id: string, since: nat, until: Option<nat>)

  /** Deliveries still owed by one publisher, or by one registration replaying the buffer. */
  datatype Task<E> = Fanout(env: E, sinks: seq<nat>) | Replay(sink: nat, events: seq<E>)

  /** Everything published, the locked fields, all registrations so far, and what each callback received. */
  datatype Bus<E> = Bus(
    log: seq<E>, recent: seq<E>, sinks: map<string, nat>, subs: seq<Sub>, tasks: seq<Task<E>>, received: seq<seq<E>>)

  /** The registry's fields are the locked fields of that state of the bus. */
  ghost predicate Locked<E>(b: Bus<E>, recent: seq<E>, sinks: map<string, nat>) {
    recent == b.recent && sinks == b.sinks
  }

  /** The locked part of publishing, seen as a step of the bus. */
  lemma RecordIsPublish<E>(b: Bus<E>, recent: seq<E>, sinks: map<string, nat>, env: E, order: seq<nat>)
    requires Locked(b, recent, sinks) && multiset(order) == Subscribers(sinks, sinks.Keys)
    ensures Enabled(b, Publish(env, order)) && Locked(Next(b, Publish(env, order)), Recent(recent + [env]), sinks)
  {
    hide Recent, Subscribers;
  }

  datatype Action<E> =
    | Publish(env: E, order: seq<nat>)
    | Add(id: string)
    | Remove(id: string)
    | Deliver(task: nat)

  ghost predicate Enabled<E>(b: Bus<E>, a: Action<E>) {
    match a
    case Publish(_, order) => multiset(order) == Subscribers(b.sinks, b.sinks.Keys)
    case Deliver(k) => k < |b.tasks| && Owed(b.tasks[k]) > 0
    case _ => true
  }

  function Owed<E>(task: Task<E>): nat {
    match task
    case Fanout(_, sinks) => |sinks|
    case Replay(_, events) => |events|
  }

  /** The registration currently holding an id ends now. */
  function Close(subs: seq<Sub>, sinks: map<string, nat>, id: string, now: nat): seq<Sub> {
    if id in sinks && sinks[id] < |subs| then subs[sinks[id] := subs[sinks[id]].(until := Some(now))] else subs
  }

  function Receive<E>(received: seq<seq<E>>, t: nat, env: E): seq<seq<E>> {
    if t < |received| then received[t := received[t] + [env]] else received
  }

  function Next<E>(b: Bus<E>, a: Action<E>): Bus<E> {
    match a
    case Publish(env, order) =>
      b.(log := b.log + [env], recent := Recent(b.recent + [env]), tasks := b.tasks + [Fanout(env, order)])
    case Add(id) =>
      var t := |b.subs|;
      b.(sinks := b.sinks[id := t], subs := Close(b.subs, b.sinks, id, |b.log|) + [Sub(id, |b.log|, None)],
         tasks := b.tasks + [Replay(t, b.recent)], received := b.received + [[]])
    case Remove(id) => b.(sinks := b.sinks - {id}, subs := Close(b.subs, b.sinks, id, |b.log|))
    case Deliver(k) =>
      if k >= |b.tasks| || Owed(b.tasks[k]) == 0 then b
      else
        match b.tasks[k]
        case Fanout(env, sinks) =>
          b.(tasks := b.tasks[k := Fanout(env, sinks[1..])], received := Receive(b.received, sinks[0], env))
        case Replay(t, events) =>
          b.(tasks := b.tasks[k := Replay(t, events[1..])], received := Receive(b.received, t, events[0]))
  }

  function Run<E>(b: Bus<E>, actions: seq<Action<E>>): Bus<E> {
    if actions == [] then b else Next(Run(b, actions[..|actions| - 1]), actions[|actions| - 1])
  }

  ghost predicate Runnable<E>(b: Bus<E>, actions: seq<Action<E>>) {
    forall k :: 0 <= k < |actions| ==> Enabled(Run(b, actions[..k]), actions[k])
  }

  function Fresh<E>(): Bus<E> { Bus([], [], map[], [], [], []) }

  // ----------------------------------------------------------- the accounting

  /** How often one task still owes event e to a callback. */
  function OwedTo<E(==)>(task: Task<E>, t: nat, e: E): nat {
    match task
    case Fanout(env, sinks) => if env == e then multiset(sinks)[t] else 0
    case Replay(sink, events) => if sink == t then multiset(events)[e] else 0
  }

  function Pending<E(==)>(tasks: seq<Task<E>>, t: nat, e: E): nat {
    if tasks == [] then 0 else Pending(tasks[..|tasks| - 1], t, e) + OwedTo(tasks[|tasks| - 1], t, e)
  }

  /** What a registration is promised: the last 200 events before it, then every event until its end. */
  function Due<E>(log: seq<E>, sub: Sub): seq<E> {
    var start := if sub.since > 200 then sub.since - 200 else 0;
    var end := if sub.until.Some? then sub.until.value else |log|;
    if start <= end <= |log| then log[start..end] else []
  }

  ghost predicate SubOk(sub: Sub, t: nat, now: nat, sinks: map<string, nat>) {
    && sub.since <= now
    && (sub.until.Some? ==> sub.since <= sub.until.value <= now)
    && (sub.until.None? <==> sub.id in sinks && sinks[sub.id] == t)
  }

  ghost predicate RegistryOk<E>(b: Bus<E>) {
    && |b.received| == |b.subs|
    && (forall t :: 0 <= t < |b.subs| ==> SubOk(b.subs[t], t, |b.log|, b.sinks))
    && (forall id :: id in b.sinks ==> b.sinks[id] < |b.subs| && b.subs[b.sinks[id]].id == id)
  }

  predicate TaskOk<E>(task: Task<E>, n: nat) {
    match task
    case Fanout(_, sinks) => forall t :: t in sinks ==> t < n
    case Replay(sink, _) => sink < n
  }

  ghost predicate TasksOk<E>(b: Bus<E>) {
    forall k :: 0 <= k < |b.tasks| ==> TaskOk(b.tasks[k], |b.subs|)
  }

  /** Event e: received so often, and owed so often, as it is due. */
  ghost predicate Balanced<E>(b: Bus<E>, t: nat, e: E)
    requires t < |b.subs| && t < |b.received|
  {
    multiset(b.received[t])[e] + Pending(b.tasks, t, e) == multiset(Due(b.log, b.subs[t]))[e]
  }

  ghost predicate Inv<E>(b: Bus<E>, e: E) {
    && b.recent == Recent(b.log)
    && RegistryOk(b) && TasksOk(b)
    && forall t :: 0 <= t < |b.subs| ==> Balanced(b, t, e)
  }

  // ------------------------------------------------------------- preservation

  /** Trimming what was already trimmed gives the last events of the whole log. */
  lemma RecentStep<E>(log: seq<E>, env: E)
    ensures Recent(Recent(log) + [env]) == Recent(log + [env])
  {
  }

  lemma OneEach<E>(b: Bus<E>, t: nat)
    requires RegistryOk(b) && t < |b.subs|
    ensures Subscribers(b.sinks, b.sinks.Keys)[t] == if b.subs[t].until.None? then 1 else 0
  {
    SubscribersDistinct(b.sinks, b.sinks.Keys);
  }

  lemma OnlyKnown<E>(b: Bus<E>, order: seq<nat>)
    requires RegistryOk(b) && multiset(order) == Subscribers(b.sinks, b.sinks.Keys)
    ensures forall t :: t in order ==> t < |b.subs|
  {
    SubscribersDistinct(b.sinks, b.sinks.Keys);
    forall t | t in order ensures t < |b.subs| {
      assert t in multiset(order);
    }
  }

  /** Exactly the registration holding the id, if any, is ended. */
  lemma CloseEnds<E>(b: Bus<E>, id: string)
    requires RegistryOk(b)
    ensures var subs := Close(b.subs, b.sinks, id, |b.log|);
      && |subs| == |b.subs|
      && forall t :: 0 <= t < |subs| ==>
           var sub := b.subs[t];
           subs[t] == if sub.id == id && sub.until.None? then sub.(until := Some(|b.log|)) else sub
  {
  }

  lemma DeliverFrame<E>(b: Bus<E>, k: nat)
    ensures var b' := Next(b, Deliver(k));
      && b'.subs == b.subs && b'.sinks == b.sinks && b'.log == b.log && b'.recent == b.recent
      && |b'.received| == |b.received| && |b'.tasks| == |b.tasks|
  {
  }

  lemma RegistryKept<E>(b: Bus<E>, a: Action<E>)
    requires RegistryOk(b)
    ensures RegistryOk(Next(b, a))
  {
    match a {
      case Publish(env, order) => PublishKeepsRegistry(b, env, order);
      case Deliver(k) =>
        hide Next, RegistryOk;
        DeliverFrame(b, k);
        SameRegistry(b, Next(b, a));
      case Add(id) => AddKeepsRegistry(b, id);
      case Remove(id) => RemoveKeepsRegistry(b, id);
    }
  }

  lemma SameRegistry<E>(b: Bus<E>, b': Bus<E>)
    requires RegistryOk(b) && |b'.received| == |b.received|
    requires b'.subs == b.subs && b'.sinks == b.sinks && b'.log == b.log
    ensures RegistryOk(b')
  {
    hide SubOk;
  }

  lemma PublishKeepsRegistry<E>(b: Bus<E>, env: E, order: seq<nat>)
    requires RegistryOk(b)
    ensures RegistryOk(Next(b, Publish(env, order)))
  {
    hide Recent;
    var b' := Next(b, Publish(env, order));
    forall t | 0 <= t < |b'.subs| ensures SubOk(b'.subs[t], t, |b'.log|, b'.sinks) {
      assert SubOk(b.subs[t], t, |b.log|, b.sinks);
    }
  }

  lemma AddKeepsRegistry<E>(b: Bus<E>, id: string)
    requires RegistryOk(b)
    ensures RegistryOk(Next(b, Add(id)))
  {
    hide Recent, Close;
    CloseEnds(b, id);
    var b' := Next(b, Add(id));
    forall t | 0 <= t < |b'.subs| ensures SubOk(b'.subs[t], t, |b'.log|, b'.sinks) {
      assert t < |b.subs| ==> SubOk(b.subs[t], t, |b.log|, b.sinks);
    }
  }

  lemma RemoveKeepsRegistry<E>(b: Bus<E>, id: string)
    requires RegistryOk(b)
    ensures RegistryOk(Next(b, Remove(id)))
  {
    hide Recent, Close;
    CloseEnds(b, id);
    var b' := Next(b, Remove(id));
    forall t | 0 <= t < |b'.subs| ensures SubOk(b'.subs[t], t, |b'.log|, b'.sinks) {
      assert SubOk(b.subs[t], t, |b.log|, b.sinks);
    }
  }

  lemma TasksKept<E>(b: Bus<E>, a: Action<E>)
    requires RegistryOk(b) && TasksOk(b) && Enabled(b, a)
    ensures TasksOk(Next(b, a))
  {
    hide Recent, Subscribers, SubOk;
    var b' := Next(b, a);
    match a {
      case Publish(_, order) => OnlyKnown(b, order);
      case Add(id) => CloseEnds(b, id);
      case Remove(id) => CloseEnds(b, id);
      case Deliver(k) =>
        DeliverFrame(b, k);
        assert b.tasks[k].Fanout? ==> forall t :: t in b.tasks[k].sinks[1..] ==> t in b.tasks[k].sinks;
    }
    forall k | 0 <= k < |b'.tasks| ensures TaskOk(b'.tasks[k], |b'.subs|) {
      if k < |b.tasks| {
        assert TaskOk(b.tasks[k], |b.subs|);
      }
    }
  }

  lemma {:induction false} PendingAppend<E>(tasks: seq<Task<E>>, task: Task<E>, t: nat, e: E)
    ensures Pending(tasks + [task], t, e) == Pending(tasks, t, e) + OwedTo(task, t, e)
  {
    assert (tasks + [task])[..|tasks|] == tasks;
  }

  lemma {:induction false} PendingUpdate<E>(tasks: seq<Task<E>>, k: nat, task: Task<E>, t: nat, e: E)
    requires k < |tasks|
    ensures Pending(tasks[k := task], t, e) + OwedTo(tasks[k], t, e) == Pending(tasks, t, e) + OwedTo(task, t, e)
  {
    hide OwedTo;
    var init := tasks[..|tasks| - 1];
    if k == |tasks| - 1 {
      assert tasks[k := task][..|tasks| - 1] == init;
    } else {
      assert tasks[k := task][..|tasks| - 1] == init[k := task];
      PendingUpdate(init, k, task, t, e);
    }
  }

  /** Nothing is owed to a callback that is not registered yet. */
  lemma {:induction false} PendingUnknown<E>(tasks: seq<Task<E>>, t: nat, e: E)
    requires forall k :: 0 <= k < |tasks| ==> TaskOk(tasks[k], t)
    ensures Pending(tasks, t, e) == 0
  {
    if tasks != [] {
      PendingUnknown(tasks[..|tasks| - 1], t, e);
      OwedToUnknown(tasks[|tasks| - 1], t, e);
    }
  }

  lemma OwedToUnknown<E>(task: Task<E>, t: nat, e: E)
    requires TaskOk(task, t)
    ensures OwedTo(task, t, e) == 0
  {
    if task.Fanout? {
      assert t !in task.sinks;
    }
  }

  lemma PublishBalances<E>(b: Bus<E>, env: E, order: seq<nat>, t: nat, e: E)
    requires RegistryOk(b) && t < |b.subs| && Balanced(b, t, e)
    requires multiset(order) == Subscribers(b.sinks, b.sinks.Keys)
    ensures Balanced(Next(b, Publish(env, order)), t, e)
  {
    hide Recent, Subscribers, Due, Pending;
    PendingAppend(b.tasks, Fanout(env, order), t, e);
    OneEach(b, t);
    DueAfter(b.log, env, b.subs[t]);
  }

  lemma DueAfter<E>(log: seq<E>, env: E, sub: Sub)
    requires sub.since <= |log| && (sub.until.Some? ==> sub.since <= sub.until.value <= |log|)
    ensures Due(log + [env], sub) == Due(log, sub) + if sub.until.None? then [env] else []
  {
  }

  lemma AddBalances<E>(b: Bus<E>, id: string, t: nat, e: E)
    requires RegistryOk(b) && TasksOk(b) && b.recent == Recent(b.log) && t <= |b.subs|
    requires t < |b.subs| ==> Balanced(b, t, e)
    ensures var b' := Next(b, Add(id)); t < |b'.received| && t < |b'.subs| && Balanced(b', t, e)
  {
    hide Pending, Close, Due, Recent, TaskOk, SubOk;
    CloseEnds(b, id);
    EndingNow(b.log, id);
    PendingAppend(b.tasks, Replay(|b.subs|, b.recent), t, e);
    if t == |b.subs| {
      PendingUnknown(b.tasks, t, e);
    }
  }

  /** Ending a registration now takes nothing from it; a newcomer is due the buffer. */
  lemma EndingNow<E>(log: seq<E>, id: string)
    ensures forall sub: Sub :: sub.until.None? ==> Due(log, sub.(until := Some(|log|))) == Due(log, sub)
    ensures Due(log, Sub(id, |log|, None)) == Recent(log)
  {
  }

  lemma RemoveBalances<E>(b: Bus<E>, id: string, t: nat, e: E)
    requires RegistryOk(b) && t < |b.subs| && Balanced(b, t, e)
    ensures var b' := Next(b, Remove(id)); t < |b'.subs| && Balanced(b', t, e)
  {
    hide Pending, Close, Due, SubOk;
    CloseEnds(b, id);
    EndingNow(b.log, id);
  }

  lemma DeliverBalances<E>(b: Bus<E>, k: nat, t: nat, e: E)
    requires |b.received| == |b.subs| && k < |b.tasks| && Owed(b.tasks[k]) > 0 && TaskOk(b.tasks[k], |b.subs|)
    requires t < |b.subs| && Balanced(b, t, e)
    ensures var b' := Next(b, Deliver(k)); t < |b'.received| && t < |b'.subs| && Balanced(b', t, e)
  {
    hide Pending, OwedTo, Due;
    var b' := Next(b, Deliver(k));
    PendingUpdate(b.tasks, k, b'.tasks[k], t, e);
    DeliveryMoves(b.tasks[k], b'.tasks[k], b.received, b'.received, t, e);
  }

  // One delivery moves one event from owed to received.
  lemma DeliveryMoves<E>(task: Task<E>, task': Task<E>, received: seq<seq<E>>, received': seq<seq<E>>, t: nat, e: E)
    requires Owed(task) > 0 && TaskOk(task, |received|) && t < |received|
    requires match task
      case Fanout(env, sinks) => task' == Fanout(env, sinks[1..]) && received' == Receive(received, sinks[0], env)
      case Replay(sink, events) => task' == Replay(sink, events[1..]) && received' == Receive(received, sink, events[0])
    ensures t < |received'|
    ensures multiset(received'[t])[e] + OwedTo(task', t, e) == multiset(received[t])[e] + OwedTo(task, t, e)
  {
    match task {
      case Fanout(env, sinks) =>
        assert sinks == [sinks[0]] + sinks[1..];
        assert sinks[0] in sinks;
      case Replay(sink, events) =>
        assert events == [events[0]] + events[1..];
    }
  }

  lemma StepKeepsInv<E>(b: Bus<E>, a: Action<E>, e: E)
    requires Inv(b, e) && Enabled(b, a)
    ensures Inv(Next(b, a), e)
  {
    RegistryKept(b, a);
    TasksKept(b, a);
    StepBalances(b, a, e);
    match a {
      case Publish(env, _) => RecentStep(b.log, env);
      case Deliver(k) => DeliverFrame(b, k);
      case _ =>
    }
  }

  lemma StepBalances<E>(b: Bus<E>, a: Action<E>, e: E)
    requires Inv(b, e) && Enabled(b, a) && RegistryOk(Next(b, a))
    ensures var b' := Next(b, a); forall t :: 0 <= t < |b'.subs| ==> Balanced(b', t, e)
  {
    hide Recent, Pending, Due, Subscribers, SubOk, TaskOk, Balanced;
    var b' := Next(b, a);
    forall t | 0 <= t < |b'.subs| ensures Balanced(b', t, e) {
      match a {
        case Publish(env, order) => PublishBalances(b, env, order, t, e);
        case Add(id) => AddBalances(b, id, t, e);
        case Remove(id) => RemoveBalances(b, id, t, e);
        case Deliver(k) =>
          DeliverFrame(b, k);
          DeliverBalances(b, k, t, e);
      }
    }
  }

  lemma {:induction false} RunKeepsInv<E>(b: Bus<E>, actions: seq<Action<E>>, e: E)
    requires Inv(b, e) && Runnable(b, actions)
    ensures Inv(Run(b, actions), e)
  {
    hide Inv, Next, Enabled;
    if actions != [] {
      var init := actions[..|actions| - 1];
      assert forall k :: 0 <= k <= |init| ==> actions[..k] == init[..k];
      RunKeepsInv(b, init, e);
      StepKeepsInv(Run(b, init), actions[|actions| - 1], e);
    }
  }

  // ------------------------------------------------------------------ theorems

  /** In every interleaving the buffer holds the last 200 events, and every registration has
      received, or is still owed, each event exactly as often as that event was promised to it. */
  lemma Accounted<E>(actions: seq<Action<E>>, t: nat, e: E)
    requires Runnable(Fresh(), actions) && t < |Run(Fresh(), actions).subs|
    ensures var b := Run(Fresh(), actions);
      && b.recent == (if |b.log| > 200 then b.log[|b.log| - 200..] else b.log)
      && t < |b.received|
      && multiset(b.received[t])[e] + Pending(b.tasks, t, e) == multiset(Due(b.log, b.subs[t]))[e]
  {
    RunKeepsInv(Fresh(), actions, e);
    assert Balanced(Run(Fresh(), actions), t, e);
  }

  /** No delivery to this registration is outstanding. */
  ghost predicate Settled<E(!new)>(b: Bus<E>, t: nat) {
    forall e :: Pending(b.tasks, t, e) == 0
  }

  /** A registration never receives anything beyond what it is promised, and once no delivery to it
      is outstanding it has received exactly that. */
  lemma ExactlyOnce<E(!new)>(actions: seq<Action<E>>, t: nat)
    requires Runnable(Fresh(), actions) && t < |Run(Fresh(), actions).subs|
    ensures var b := Run(Fresh(), actions);
      && t < |b.received|
      && multiset(b.received[t]) <= multiset(Due(b.log, b.subs[t]))
      && (Settled(b, t) <==> multiset(b.received[t]) == multiset(Due(b.log, b.subs[t])))
  {
    hide Run, Runnable, Fresh, Due, Pending;
    RunKeepsLengths(actions);
    var b := Run(Fresh(), actions);
    var got, due := multiset(b.received[t]), multiset(Due(b.log, b.subs[t]));
    forall e: E ensures got[e] + Pending(b.tasks, t, e) == due[e] {
      Accounted(actions, t, e);
    }
    assert got <= due;
    if Settled(b, t) {
      forall e: E ensures got[e] == due[e] {
        assert Pending(b.tasks, t, e) == 0;
      }
      assert got == due;
    } else {
      var e :| Pending(b.tasks, t, e) != 0;
      assert got[e] < due[e];
    }
  }

  lemma RunKeepsLengths<E(!new)>(actions: seq<Action<E>>)
    requires Runnable(Fresh(), actions)
    ensures |Run(Fresh(), actions).received| == |Run(Fresh(), actions).subs|
  {
    RunKeepsRegistry(Fresh(), actions);
  }

  lemma {:induction false} RunKeepsRegistry<E>(b: Bus<E>, actions: seq<Action<E>>)
    requires RegistryOk(b)
    ensures RegistryOk(Run(b, actions))
  {
    if actions != [] {
      RunKeepsRegistry(b, actions[..|actions| - 1]);
      RegistryKept(Run(b, actions[..|actions| - 1]), actions[|actions| - 1]);
    }
  }

  // -------------------------------------------------------------------- order

  /** What a task still owes a callback, in the order it will deliver it. */
  function OwedEvents<E>(task: Task<E>, t: nat): seq<E> {
    match task
    case Fanout(env, sinks) => Copies(env, multiset(sinks)[t])
    case Replay(sink, events) => if sink == t then events else []
  }

  function Copies<E>(env: E, n: nat): seq<E> { if n == 0 then [] else [env] + Copies(env, n - 1) }

  /** What all tasks still owe a callback, older tasks first. */
  function Line<E>(tasks: seq<Task<E>>, t: nat): seq<E> {
    if tasks == [] then [] else Line(tasks[..|tasks| - 1], t) + OwedEvents(tasks[|tasks| - 1], t)
  }

  /** The callback a task calls next. */
  function NextSink<E>(task: Task<E>): nat
    requires Owed(task) > 0
  {
    match task
    case Fanout(_, sinks) => sinks[0]
    case Replay(sink, _) => sink
  }

  /** The action does not call t while an older task still owes it something. */
  ghost predicate Patient<E>(b: Bus<E>, a: Action<E>, t: nat) {
    a.Deliver? && a.task < |b.tasks| && Owed(b.tasks[a.task]) > 0 && NextSink(b.tasks[a.task]) == t ==>
      Line(b.tasks[..a.task], t) == []
  }

  ghost predicate AllPatient<E>(actions: seq<Action<E>>, t: nat) {
    forall k :: 0 <= k < |actions| ==> Patient(Run(Fresh(), actions[..k]), actions[k], t)
  }

  /** Received so far, then everything owed oldest first, is what is due. */
  ghost predicate Lined<E>(b: Bus<E>, t: nat) {
    t < |b.subs| && t < |b.received| ==> b.received[t] + Line(b.tasks, t) == Due(b.log, b.subs[t])
  }

  /** Some position already holds another event than the one due there. */
  ghost predicate Scrambled<E>(b: Bus<E>, t: nat) {
    && t < |b.subs| && t < |b.received|
    && exists p: nat :: p < |b.received[t]| && p < |Due(b.log, b.subs[t])|
         && b.received[t][p] != Due(b.log, b.subs[t])[p]
  }

  lemma LineAppend<E>(tasks: seq<Task<E>>, task: Task<E>, t: nat)
    ensures Line(tasks + [task], t) == Line(tasks, t) + OwedEvents(task, t)
  {
    assert (tasks + [task])[..|tasks|] == tasks;
  }

  lemma {:induction false} LineAround<E>(tasks: seq<Task<E>>, k: nat, task: Task<E>, t: nat)
    requires k < |tasks|
    ensures Line(tasks, t) == Line(tasks[..k], t) + OwedEvents(tasks[k], t) + Line(tasks[k + 1..], t)
    ensures Line(tasks[k := task], t) == Line(tasks[..k], t) + OwedEvents(task, t) + Line(tasks[k + 1..], t)
  {
    hide OwedEvents;
    LineJoin(tasks[..k] + [tasks[k]], tasks[k + 1..], t);
    LineJoin(tasks[..k] + [task], tasks[k + 1..], t);
    LineAppend(tasks[..k], tasks[k], t);
    LineAppend(tasks[..k], task, t);
    assert tasks == tasks[..k] + [tasks[k]] + tasks[k + 1..];
    assert tasks[k := task] == tasks[..k] + [task] + tasks[k + 1..];
  }

  lemma {:induction false} LineJoin<E>(a: seq<Task<E>>, b: seq<Task<E>>, t: nat)
    ensures Line(a + b, t) == Line(a, t) + Line(b, t)
  {
    hide OwedEvents;
    if b == [] {
      assert a + b == a;
    } else {
      var init, last := b[..|b| - 1], b[|b| - 1];
      var all := a + b;
      assert all[..|all| - 1] == a + init && all[|all| - 1] == last;
      LineJoin(a, init, t);
      assert Line(a, t) + (Line(init, t) + OwedEvents(last, t)) == Line(a, t) + Line(init, t) + OwedEvents(last, t);
    }
  }

  lemma {:induction false} LineUnknown<E>(tasks: seq<Task<E>>, t: nat)
    requires forall k :: 0 <= k < |tasks| ==> TaskOk(tasks[k], t)
    ensures Line(tasks, t) == []
  {
    if tasks != [] {
      LineUnknown(tasks[..|tasks| - 1], t);
      var last := tasks[|tasks| - 1];
      assert last.Fanout? ==> t !in last.sinks;
    }
  }

  /** A delivery takes the first event off what its own task owes. */
  lemma DeliveryTakesFirst<E>(b: Bus<E>, k: nat, t: nat)
    requires k < |b.tasks| && Owed(b.tasks[k]) > 0 && t < |b.received|
    ensures var b' := Next(b, Deliver(k));
      && |b'.received| == |b.received| && |b'.tasks| == |b.tasks| && b'.tasks == b.tasks[k := b'.tasks[k]]
      && (if NextSink(b.tasks[k]) == t then
            var owed := OwedEvents(b.tasks[k], t);
            owed != [] && b'.received[t] == b.received[t] + [owed[0]] && OwedEvents(b'.tasks[k], t) == owed[1..]
          else b'.received[t] == b.received[t] && OwedEvents(b'.tasks[k], t) == OwedEvents(b.tasks[k], t))
  {
    hide Copies;
    match b.tasks[k] {
      case Fanout(env, sinks) => FanoutTakesFirst(env, sinks, t);
      case Replay(_, _) =>
    }
  }

  lemma FanoutTakesFirst<E>(env: E, sinks: seq<nat>, t: nat)
    requires sinks != []
    ensures var owed, left := Copies(env, multiset(sinks)[t]), Copies(env, multiset(sinks[1..])[t]);
      if sinks[0] == t then owed != [] && owed[0] == env && left == owed[1..] else left == owed
  {
    assert sinks == [sinks[0]] + sinks[1..];
    assert multiset(sinks) == multiset{sinks[0]} + multiset(sinks[1..]);
  }

  /** A patient delivery moves the head of the line to the end of what was received; an impatient one
      puts an event from further back there. */
  lemma DeliverLines<E>(b: Bus<E>, k: nat, t: nat)
    requires k < |b.tasks| && Owed(b.tasks[k]) > 0 && t < |b.received| && t < |b.subs| && |b.received| == |b.subs|
    requires Lined(b, t)
    ensures Patient(b, Deliver(k), t) ==> Lined(Next(b, Deliver(k)), t)
    ensures !Patient(b, Deliver(k), t) && Distinct(Due(b.log, b.subs[t])) ==> Scrambled(Next(b, Deliver(k)), t)
  {
    hide OwedEvents, Line, Due, Next;
    var b' := Next(b, Deliver(k));
    DeliverFrame(b, k);
    DeliveryTakesFirst(b, k, t);
    LineAround(b.tasks, k, b'.tasks[k], t);
    var before, owed, behind := Line(b.tasks[..k], t), OwedEvents(b.tasks[k], t), Line(b.tasks[k + 1..], t);
    if NextSink(b.tasks[k]) == t {
      HeadMoves(b.received[t], before, owed, behind, Due(b.log, b.subs[t]));
    }
  }

  lemma HeadMoves<E>(got: seq<E>, before: seq<E>, owed: seq<E>, behind: seq<E>, due: seq<E>)
    requires owed != [] && got + (before + owed + behind) == due
    ensures before == [] ==> (got + [owed[0]]) + (before + owed[1..] + behind) == due
    ensures before != [] && Distinct(due) ==> |got| < |due| && owed[0] != due[|got|]
  {
    assert due[|got| + |before|] == owed[0];
    if before != [] {
      assert due[|got|] == before[0];
    }
  }

  lemma PublishLines<E>(b: Bus<E>, env: E, order: seq<nat>, t: nat)
    requires RegistryOk(b) && multiset(order) == Subscribers(b.sinks, b.sinks.Keys) && Lined(b, t)
    ensures Lined(Next(b, Publish(env, order)), t)
  {
    hide Recent, Subscribers, Due, Line;
    LineAppend(b.tasks, Fanout(env, order), t);
    if t < |b.subs| {
      OneEach(b, t);
      DueAfter(b.log, env, b.subs[t]);
      assert Copies(env, 1) == [env];
    }
  }

  lemma AddLines<E>(b: Bus<E>, id: string, t: nat)
    requires RegistryOk(b) && TasksOk(b) && b.recent == Recent(b.log) && Lined(b, t)
    ensures Lined(Next(b, Add(id)), t)
  {
    hide Close, Due, Recent, TaskOk, SubOk, Line;
    CloseEnds(b, id);
    EndingNow(b.log, id);
    LineAppend(b.tasks, Replay(|b.subs|, b.recent), t);
    if t == |b.subs| {
      LineUnknown(b.tasks, t);
    }
  }

  lemma RemoveLines<E>(b: Bus<E>, id: string, t: nat)
    requires RegistryOk(b) && Lined(b, t)
    ensures Lined(Next(b, Remove(id)), t)
  {
    hide Close, Due, SubOk, Line;
    CloseEnds(b, id);
    EndingNow(b.log, id);
  }

  /** What every state keeps, whoever is being watched. */
  ghost predicate Sane<E>(b: Bus<E>) { b.recent == Recent(b.log) && RegistryOk(b) && TasksOk(b) }

  lemma StepKeepsSane<E>(b: Bus<E>, a: Action<E>)
    requires Sane(b) && Enabled(b, a)
    ensures Sane(Next(b, a))
  {
    hide Subscribers, RegistryOk, TasksOk;
    RegistryKept(b, a);
    TasksKept(b, a);
    match a {
      case Publish(env, _) => RecentStep(b.log, env);
      case Deliver(k) => DeliverFrame(b, k);
      case _ =>
    }
  }

  lemma StepLines<E>(b: Bus<E>, a: Action<E>, t: nat)
    requires Sane(b) && Enabled(b, a) && Lined(b, t)
    ensures Patient(b, a, t) ==> Lined(Next(b, a), t)
    ensures !Patient(b, a, t) && t < |b.subs| && Distinct(Due(b.log, b.subs[t])) ==> Scrambled(Next(b, a), t)
    ensures !Patient(b, a, t) ==> t < |b.subs|
  {
    hide Recent, Due, Subscribers, SubOk, Lined, Line, Scrambled;
    match a {
      case Publish(env, order) => PublishLines(b, env, order, t);
      case Add(id) => AddLines(b, id, t);
      case Remove(id) => RemoveLines(b, id, t);
      case Deliver(k) =>
        DeliverFrame(b, k);
        assert TaskOk(b.tasks[k], |b.subs|);
        if t < |b.subs| {
          DeliverLines(b, k, t);
        } else {
          UnknownLines(b, Next(b, a), t);
          NextSinkKnown(b.tasks[k], |b.subs|);
        }
    }
  }

  lemma NextSinkKnown<E>(task: Task<E>, n: nat)
    requires TaskOk(task, n) && Owed(task) > 0
    ensures NextSink(task) < n
  {
    if task.Fanout? {
      assert task.sinks[0] in task.sinks;
    }
  }

  lemma UnknownLines<E>(b: Bus<E>, b': Bus<E>, t: nat)
    requires t >= |b'.subs|
    ensures Lined(b', t)
  {
  }

  /** What is due only ever grows at its end. */
  lemma StepKeepsScrambled<E>(b: Bus<E>, a: Action<E>, t: nat)
    requires Sane(b) && Enabled(b, a) && Scrambled(b, t)
    ensures Scrambled(Next(b, a), t)
  {
    hide Recent, Subscribers, Close, TasksOk;
    DueGrows(b, a, t);
    var p: nat :| p < |b.received[t]| && p < |Due(b.log, b.subs[t])| && b.received[t][p] != Due(b.log, b.subs[t])[p];
    var b' := Next(b, a);
    assert b'.received[t][p] == b.received[t][p] && Due(b'.log, b'.subs[t])[p] == Due(b.log, b.subs[t])[p];
  }

  lemma DueGrows<E>(b: Bus<E>, a: Action<E>, t: nat)
    requires Sane(b) && Enabled(b, a) && t < |b.subs|
    ensures var b' := Next(b, a);
      && t < |b'.subs| && t < |b'.received|
      && Due(b.log, b.subs[t]) <= Due(b'.log, b'.subs[t]) && b.received[t] <= b'.received[t] && b.log <= b'.log
  {
    hide Recent, Subscribers, Close, Due, TasksOk, SubOk;
    match a {
      case Publish(env, _) =>
        assert SubOk(b.subs[t], t, |b.log|, b.sinks);
        SubBounds(b.subs[t], t, |b.log|, b.sinks);
        DueAfter(b.log, env, b.subs[t]);
      case Add(id) =>
        CloseEnds(b, id);
        EndingNow(b.log, id);
      case Remove(id) =>
        CloseEnds(b, id);
        EndingNow(b.log, id);
      case Deliver(k) =>
        DeliverFrame(b, k);
        DeliveryTakesFirst(b, k, t);
    }
  }

  lemma SubBounds(sub: Sub, t: nat, now: nat, sinks: map<string, nat>)
    requires SubOk(sub, t, now, sinks)
    ensures sub.since <= now && (sub.until.Some? ==> sub.since <= sub.until.value <= now)
  {
  }

  /** Until the first impatient delivery everything is lined up; after it, if no event was published twice,
      the registration is out of order for good. */
  lemma {:induction false} RunLines<E>(actions: seq<Action<E>>, t: nat)
    requires Runnable(Fresh(), actions)
    ensures Sane(Run(Fresh(), actions))
    ensures AllPatient(actions, t) ==> Lined(Run(Fresh(), actions), t)
    ensures !AllPatient(actions, t) && Distinct(Run(Fresh(), actions).log) ==> Scrambled(Run(Fresh(), actions), t)
  {
    hide Next, Enabled, Due, Patient, Lined, Scrambled, Sane;
    if actions == [] {
      NothingLined<E>(t);
    } else {
      var init, last := actions[..|actions| - 1], actions[|actions| - 1];
      var b := Run(Fresh(), init);
      assert forall k :: 0 <= k <= |init| ==> actions[..k] == init[..k];
      RunLines(init, t);
      StepKeepsSane(b, last);
      OneMorePatient(init, last, t);
      LogGrows(b, last);
      if AllPatient(init, t) {
        StepLines(b, last, t);
        if !Patient(b, last, t) && Distinct(Next(b, last).log) {
          DueDistinct(b.log, b.subs[t]);
        }
      } else if Distinct(Next(b, last).log) {
        StepKeepsScrambled(b, last, t);
      }
    }
  }

  lemma NothingLined<E>(t: nat)
    ensures Sane(Fresh<E>()) && Lined(Fresh<E>(), t)
  {
  }

  lemma OneMorePatient<E>(init: seq<Action<E>>, last: Action<E>, t: nat)
    ensures AllPatient(init + [last], t) <==> AllPatient(init, t) && Patient(Run(Fresh(), init), last, t)
  {
    hide Run, Patient;
    var actions := init + [last];
    assert forall k :: 0 <= k <= |init| ==> actions[..k] == init[..k];
    assert init[..|init|] == init;
    if AllPatient(actions, t) {
      assert Patient(Run(Fresh(), actions[..|init|]), actions[|init|], t);
      forall k | 0 <= k < |init| ensures Patient(Run(Fresh(), init[..k]), init[k], t) {
        assert Patient(Run(Fresh(), actions[..k]), actions[k], t);
      }
    }
  }

  lemma LogGrows<E>(b: Bus<E>, a: Action<E>)
    ensures b.log <= Next(b, a).log
    ensures Distinct(Next(b, a).log) ==> Distinct(b.log)
  {
  }

  lemma DueDistinct<E>(log: seq<E>, sub: Sub)
    requires Distinct(log)
    ensures Distinct(Due(log, sub))
  {
  }

  /** A registration has its events in publishing order whenever each was delivered only after everything
      older owed to it; and if no event was published twice, only then. */
  lemma {:induction false} InOrderIffPatient<E>(actions: seq<Action<E>>, t: nat)
    requires Runnable(Fresh(), actions) && t < |Run(Fresh(), actions).subs|
    ensures var b := Run(Fresh(), actions);
      && t < |b.received|
      && (AllPatient(actions, t) ==> b.received[t] <= Due(b.log, b.subs[t]))
      && (Distinct(b.log) ==> (b.received[t] <= Due(b.log, b.subs[t]) <==> AllPatient(actions, t)))
  {
    hide Run, Runnable, AllPatient, Due, Line;
    RunLines(actions, t);
  }

  /** A publisher that copied the subscribers may deliver before the replay does: order is not promised. */
  lemma LiveCanOvertakeReplay()
    ensures exists actions: seq<Action<int>> :: Overtakes(actions)
  {
    hide Run, Runnable, Subscribers;
    var none: seq<Action<int>> := [];
    RunNothing<int>();
    RunOneMore(Fresh(), none, Publish(1, []));
    var one := none + [Publish(1, [])];
    NoSubscribers(map[]);
    assert Run(Fresh(), one) == Bus([1], [1], map[], [], [Fanout(1, [])], []);
    RunOneMore(Fresh(), one, Add("c"));
    var two := one + [Add("c")];
    var b := Run(Fresh(), two);
    assert b == Bus([1], [1], map["c" := 0], [Sub("c", 1, None)], [Fanout(1, []), Replay(0, [1])], [[]]);
    OneSubscriber();
    RunOneMore(Fresh(), two, Publish(2, [0]));
    var three := two + [Publish(2, [0])];
    RunOneMore(Fresh(), three, Deliver(2));
    var four := three + [Deliver(2)];
    RunOneMore(Fresh(), four, Deliver(1));
    var tasks := [Fanout(1, []), Replay(0, [1]), Fanout(2, [0])];
    assert Run(Fresh(), three) == Bus([1, 2], [1, 2], b.sinks, b.subs, tasks, [[]]);
    LiveThenReplay(Run(Fresh(), three));
    assert Overtakes(four + [Deliver(1)]);
  }

  lemma LiveThenReplay(b: Bus<int>)
    requires b.tasks == [Fanout(1, []), Replay(0, [1]), Fanout(2, [0])] && b.received == [[]]
    ensures var live := Next(b, Deliver(2));
      && Enabled(b, Deliver(2)) && Enabled(live, Deliver(1))
      && Next(live, Deliver(1)) == b.(tasks := [Fanout(1, []), Replay(0, []), Fanout(2, [])], received := [[2, 1]])
  {
    var live := Next(b, Deliver(2));
    var silent: seq<int> := [];
    assert [0][1..] == [] && [1][1..] == [];
    assert silent + [2] == [2] && [2] + [1] == [2, 1];
    assert live.tasks == [Fanout(1, []), Replay(0, [1]), Fanout(2, [])] && live.received == [[2]];
  }

  ghost predicate Overtakes(actions: seq<Action<int>>) {
    && Runnable(Fresh(), actions)
    && Run(Fresh(), actions).log == [1, 2] && Run(Fresh(), actions).received == [[2, 1]]
  }

  lemma RunNothing<E>()
    ensures Run(Fresh<E>(), []) == Fresh() && Runnable(Fresh<E>(), [])
  {
  }

  lemma NoSubscribers(sinks: map<string, nat>)
    ensures Subscribers(sinks, {}) == multiset{}
    ensures sinks == map[] ==> Subscribers(sinks, sinks.Keys) == multiset{}
  {
  }

  lemma OneSubscriber()
    ensures var sinks := map["c" := 0]; Subscribers(sinks, sinks.Keys) == multiset{0}
  {
    var sinks: map<string, nat> := map["c" := 0];
    SubscribersWithout(sinks, sinks.Keys, "c");
    assert sinks.Keys - {"c"} == {};
  }

  lemma RunOneMore<E>(b: Bus<E>, actions: seq<Action<E>>, a: Action<E>)
    ensures Run(b, actions + [a]) == Next(Run(b, actions), a)
    ensures Runnable(b, actions) && Enabled(Run(b, actions), a) ==> Runnable(b, actions + [a])
  {
    assert (actions + [a])[..|actions|] == actions;
    assert forall k :: 0 <= k <= |actions| ==> (actions + [a])[..k] == actions[..k];
  }
}
