/**
 The credential reload coalescer: any number of requesters and the worker tasks they spawn share
 `running` and `pending` under a mutex.  Every locked section is one atomic step, as are the start and
 the return of a reload, and steps interleave freely.  A reload always returns.
 */
module ReloadCoalescer {
  import opened Bytes

  // ----- The locked sections -----

  datatype Shared = Shared(running: bool, pending: Option<string>)

  /** `request` under the lock: the new state, and whether the requester must spawn a worker. */
  function OnRequest(s: Shared, reason: string): (Shared, bool) {
    if s.running then (s.(pending := Some(reason)), false) else (s.(running := true), true)
  }

  /** A worker under the lock after its reload: the new state, and the reason to go on with, if any. */
  function OnCheck(s: Shared): (Shared, Option<string>) {
    if s.pending.Some? then (s.(pending := None), s.pending) else (s.(running := false), None)
  }

  class CredentialsReloadCoalescer {
    var running: bool
    var pending: Option<string>

    ghost function View(): Shared
      reads this
    {
      Shared(running, pending)
    }

    constructor ()
      ensures View() == Shared(false, None)
    {
      running, pending := false, None;
    }

    method Request(reason: string) returns (spawn: bool)
      modifies this
      ensures (View(), spawn) == OnRequest(old(View()), reason)
      ensures running && spawn == !old(running) && pending == if old(running) then Some(reason) else old(pending)
    {
      if running {
        pending := Some(reason);
        return false;
      }
      running := true;
      spawn := true;
    }

    method TakeNext() returns (next: Option<string>)
      modifies this
      ensures (View(), next) == OnCheck(old(View()))
      ensures next == old(pending) && pending == None && running == (old(running) && next.Some?)
    {
      next := pending;
      pending := None;
      if next.None? {
        running := false;
      }
    }
  }

  // ----- The step system -----

  /** A spawned worker: its reload has not begun, is under way, or has returned. */
  datatype Worker = Starting(reason: string) | Reloading(reason: string) | Checking

  datatype World = World(shared: Shared, workers: map<nat, Worker>)

  datatype Step =
    | Request(reason: string, id: nat)  // `id` names the worker if one is spawned
    | Begin(id: nat)
    | Return(id: nat)
    | Check(id: nat)

  const INITIAL := World(Shared(false, None), map[])

  predicate Enabled(w: World, step: Step) {
    match step
    case Request(_, id) => id !in w.workers
    case Begin(id) => id in w.workers && w.workers[id].Starting?
    case Return(id) => id in w.workers && w.workers[id].Reloading?
    case Check(id) => id in w.workers && w.workers[id].Checking?
  }

  function Next(w: World, step: Step): World
    requires Enabled(w, step)
  {
    match step
    case Request(reason, id) =>
      var (shared, spawn) := OnRequest(w.shared, reason);
      World(shared, if spawn then w.workers[id := Starting(reason)] else w.workers)
    case Begin(id) => w.(workers := w.workers[id := Reloading(w.workers[id].reason)])
    case Return(id) => w.(workers := w.workers[id := Checking])
    case Check(id) =>
      var (shared, next) := OnCheck(w.shared);
      World(shared, if next.Some? then w.workers[id := Starting(next.value)] else w.workers - {id})
  }

  predicate Valid(w: World, trace: seq<Step>)
    decreases |trace|
  {
    trace == [] || (Enabled(w, trace[0]) && Valid(Next(w, trace[0]), trace[1..]))
  }

  function Run(w: World, trace: seq<Step>): World
    requires Valid(w, trace)
    decreases |trace|
  {
    if trace == [] then w else Run(Next(w, trace[0]), trace[1..])
  }

  // ----- Invariant -----

  ghost predicate OneWorker(w: World, id: nat) {
    w.workers.Keys == {id}
  }

  /** A worker exists exactly while `running`, never two, and `pending` is set only then. */
  ghost predicate Inv(w: World) {
    if w.shared.running then exists id :: OneWorker(w, id)
    else w.workers == map[] && w.shared.pending == None
  }

  lemma StepKeepsInv(w: World, step: Step)
    requires Inv(w) && Enabled(w, step)
    ensures Inv(Next(w, step))
  {
    var w' := Next(w, step);
    if step.Check? && w.shared.pending.None? {
      var id :| OneWorker(w, id);
      assert w'.workers.Keys == {};
    } else if w.shared.running {
      var id :| OneWorker(w, id);
      assert OneWorker(w', id);
    } else {
      assert OneWorker(w', step.id);
    }
  }

  /** In every reachable state at most one worker runs, and `pending` is set only while `running`. */
  lemma {:induction false} AlwaysAtMostOneWorker(w: World, trace: seq<Step>)
    requires Inv(w) && Valid(w, trace)
    ensures Inv(Run(w, trace))
    ensures |Run(w, trace).workers| <= 1
    ensures Run(w, trace).shared.pending.Some? ==> Run(w, trace).shared.running
    decreases |trace|
  {
    if trace == [] {
      if w.shared.running {
        var id :| OneWorker(w, id);
        assert |w.workers.Keys| == 1;
      }
    } else {
      StepKeepsInv(w, trace[0]);
      AlwaysAtMostOneWorker(Next(w, trace[0]), trace[1..]);
    }
  }

  // ----- Reloads and requests -----

  function Requests(trace: seq<Step>): nat {
    if trace == [] then 0 else (if trace[0].Request? then 1 else 0) + Requests(trace[1..])
  }

  function Reloads(trace: seq<Step>): nat {
    if trace == [] then 0 else (if trace[0].Begin? then 1 else 0) + Reloads(trace[1..])
  }

  ghost predicate SomeStarting(w: World) {
    exists id :: id in w.workers && w.workers[id].Starting?
  }

  /** Reloads that must still begin. */
  ghost function Owed(w: World): nat {
    (if SomeStarting(w) then 1 else 0) + (if w.shared.pending.Some? then 1 else 0)
  }

  /** What the step does to the number of reloads owed. */
  lemma StepOwes(w: World, step: Step)
    requires Inv(w) && Enabled(w, step)
    ensures var owed' := Owed(Next(w, step));
            && (step.Request? ==> 1 <= owed' <= Owed(w) + 1)
            && (step.Begin? ==> owed' == Owed(w) - 1)
            && (step.Return? || step.Check? ==> owed' == Owed(w))
  {
    var w' := Next(w, step);
    if w.shared.running {
      var id :| OneWorker(w, id);
      assert step.Request? || step.id == id;
      assert w'.workers.Keys <= {id};
      assert SomeStarting(w) <==> w.workers[id].Starting?;
      assert id in w'.workers ==> (SomeStarting(w') <==> w'.workers[id].Starting?);
      if step.Check? && w.shared.pending.None? {
        assert w'.workers == map[];
      }
    } else {
      assert step.Request? && w'.workers[step.id].Starting?;
    }
  }

  /** Reloads never outnumber requests, counting those still owed. */
  lemma {:induction false} ReloadsNeverOutnumberRequests(w: World, trace: seq<Step>)
    requires Inv(w) && Valid(w, trace)
    ensures Reloads(trace) + Owed(Run(w, trace)) <= Requests(trace) + Owed(w)
    decreases |trace|
  {
    if trace != [] {
      StepOwes(w, trace[0]);
      StepKeepsInv(w, trace[0]);
      ReloadsNeverOutnumberRequests(Next(w, trace[0]), trace[1..]);
    }
  }

  lemma {:induction false} DebtIsPaidByReload(w: World, trace: seq<Step>)
    requires Inv(w) && Valid(w, trace) && Owed(w) > 0 && Owed(Run(w, trace)) == 0
    ensures Reloads(trace) > 0
    decreases |trace|
  {
    if trace != [] && !trace[0].Begin? {
      StepOwes(w, trace[0]);
      StepKeepsInv(w, trace[0]);
      DebtIsPaidByReload(Next(w, trace[0]), trace[1..]);
    }
  }

  lemma {:induction false} ValidSplit(w: World, trace: seq<Step>, i: nat)
    requires Valid(w, trace) && i <= |trace|
    ensures Valid(w, trace[..i]) && Valid(Run(w, trace[..i]), trace[i..])
    ensures Run(Run(w, trace[..i]), trace[i..]) == Run(w, trace)
    decreases i
  {
    if i == 0 {
      assert trace[0..] == trace;
    } else {
      ValidSplit(Next(w, trace[0]), trace[1..], i - 1);
      assert trace[..i][1..] == trace[1..][..i - 1] && trace[1..][i - 1..] == trace[i..];
    }
  }

  /** No request is lost: once nothing is owed, a reload has begun after every request. */
  lemma EveryRequestIsFollowedByAReload(trace: seq<Step>, i: nat)
    requires Valid(INITIAL, trace) && i < |trace| && trace[i].Request?
    requires Owed(Run(INITIAL, trace)) == 0
    ensures Reloads(trace[i + 1..]) > 0
  {
    ValidSplit(INITIAL, trace, i);
    var w := Run(INITIAL, trace[..i]);
    AlwaysAtMostOneWorker(INITIAL, trace[..i]);
    StepKeepsInv(w, trace[i]);
    StepOwes(w, trace[i]);
    assert trace[i..][0] == trace[i] && trace[i..][1..] == trace[i + 1..];
    DebtIsPaidByReload(Next(w, trace[i]), trace[i + 1..]);
  }

  // ----- Quiescence -----

  /** Worker steps left until the coalescer is idle, if no request comes. */
  ghost function StepsLeft(w: World): nat {
    (if !w.shared.running then 0 else if SomeStarting(w) then 3 else if SomeReloading(w) then 2 else 1)
    + (if w.shared.pending.Some? then 3 else 0)
  }

  ghost predicate SomeReloading(w: World) {
    exists id :: id in w.workers && w.workers[id].Reloading?
  }

  lemma WorkerStepCounts(w: World, step: Step)
    requires Inv(w) && Enabled(w, step) && !step.Request?
    ensures StepsLeft(Next(w, step)) == StepsLeft(w) - 1
  {
    var w' := Next(w, step);
    var id :| OneWorker(w, id);
    assert step.id == id && w'.workers.Keys <= {id};
    assert SomeStarting(w) <==> w.workers[id].Starting?;
    assert SomeReloading(w) <==> w.workers[id].Reloading?;
    assert id in w'.workers ==> (SomeStarting(w') <==> w'.workers[id].Starting?);
    assert id in w'.workers ==> (SomeReloading(w') <==> w'.workers[id].Reloading?);
  }

  lemma NeverStuck(w: World) returns (step: Step)
    requires Inv(w) && w.shared.running
    ensures Enabled(w, step) && !step.Request?
  {
    var id :| OneWorker(w, id);
    assert id in w.workers;
    step := match w.workers[id]
      case Starting(_) => Begin(id)
      case Reloading(_) => Return(id)
      case Checking => Check(id);
  }

  /**
   Without new requests the worker goes idle: every step brings it one closer, some step is always
   possible until then, and at most two more reloads begin on the way.
   */
  lemma {:induction false} GoesIdle(w: World, trace: seq<Step>)
    requires Inv(w) && Valid(w, trace) && Requests(trace) == 0
    ensures |trace| + StepsLeft(Run(w, trace)) == StepsLeft(w) <= 6
    ensures Reloads(trace) + Owed(Run(w, trace)) == Owed(w) <= 2
    ensures StepsLeft(Run(w, trace)) == 0 ==> Run(w, trace) == INITIAL
    decreases |trace|
  {
    if trace != [] {
      WorkerStepCounts(w, trace[0]);
      StepOwes(w, trace[0]);
      StepKeepsInv(w, trace[0]);
      GoesIdle(Next(w, trace[0]), trace[1..]);
    }
  }
}
