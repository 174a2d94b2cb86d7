/**
 * Pick and dispatch as concurrent steps (relay/server.go handleHarnessPick, handleHarnessRun,
 * dispatchHarnessInbound): how far a worker can be loaded beyond its capacity, and when the job counter
 * is exact.
 */
module Dispatch {
  import opened Counting
  import opened HubState
  import opened Scheduling

  /** A client's pick, and the dispatch it leads to; a delivered job is done when the worker completes it. */
  datatype Task = Picked(id: string) | Writing(id: string) | RollingBack(id: string) | Delivered(id: string) | Done

  datatype Machine = Machine(hub: State, tasks: seq<Task>)

  /**
   * Finish is a worker's completion of a job delivered to it, Complete a completion frame for no such job. Member is
   * any other effect on the hub: connect, reconnect, disconnect, sweep, touch, capabilities.
   */
  datatype Step =
    | Pick(query: Query, id: string)
    | Abandon(task: nat)
    | Increment(task: nat)
    | Write(task: nat, ok: bool)
    | Rollback(task: nat)
    | Finish(task: nat)
    | Complete(id: string)
    | Member(action: Action)

  function IsPickOf(id: string): Task -> bool {
    (t: Task) => t == Picked(id)
  }

  const IS_OUTSTANDING := (t: Task) => t.Picked?

  /** A connection starts with no jobs; job counts change by the other steps only. */
  predicate Possible(a: Action) {
    match a
    case RegisterA(_, w) => w.activeJobs == 0
    case IncA(_, _) => false
    case _ => true
  }

  /** The step is no capability update that lowers the effective capacity. */
  predicate KeepsCapacity(s: State, step: Step) {
    step.Member? && step.action.UpdateA? && step.action.id in s.harness ==>
      var w := s.harness[step.action.id];
      Capacity(WithCapabilities(w, step.action.tier, step.action.providers, step.action.maxConcurrent)) >= Capacity(w)
  }

  /** At most `limit` picks are outstanding. A step that is not enabled changes nothing. */
  ghost function Apply(m: Machine, limit: nat, step: Step): Machine {
    match step
    case Pick(q, id) =>
      if IsPick(m.hub, q, id) && Count(m.tasks, IS_OUTSTANDING) < limit then m.(tasks := m.tasks + [Picked(id)]) else m
    case Abandon(t) =>
      if t < |m.tasks| && m.tasks[t].Picked? then m.(tasks := m.tasks[t := Done]) else m
    case Increment(t) =>
      if t < |m.tasks| && m.tasks[t].Picked?
      then Machine(IncActiveJobs(m.hub, m.tasks[t].id, 1), m.tasks[t := Writing(m.tasks[t].id)]) else m
    case Write(t, ok) =>
      if t < |m.tasks| && m.tasks[t].Writing?
      then m.(tasks := m.tasks[t := if ok then Delivered(m.tasks[t].id) else RollingBack(m.tasks[t].id)]) else m
    case Rollback(t) =>
      if t < |m.tasks| && m.tasks[t].RollingBack?
      then Machine(IncActiveJobs(m.hub, m.tasks[t].id, -1), m.tasks[t := Done]) else m
    case Finish(t) =>
      if t < |m.tasks| && m.tasks[t].Delivered?
      then Machine(IncActiveJobs(m.hub, m.tasks[t].id, -1), m.tasks[t := Done]) else m
    case Complete(id) => m.(hub := IncActiveJobs(m.hub, id, -1))
    case Member(a) => if Possible(a) then m.(hub := HubState.Apply(m.hub, a)) else m
  }

  ghost function Exec(m: Machine, limit: nat, run: seq<Step>): Machine
    decreases |run|
  {
    if run == [] then m else Exec(Apply(m, limit, run[0]), limit, run[1..])
  }

  ghost predicate CapacityKept(m: Machine, limit: nat, run: seq<Step>)
    decreases |run|
  {
    run != [] ==> KeepsCapacity(m.hub, run[0]) && CapacityKept(Apply(m, limit, run[0]), limit, run[1..])
  }

  ghost predicate Bounded(m: Machine, limit: nat) {
    && Count(m.tasks, IS_OUTSTANDING) <= limit
    && NonNegative(m.hub)
    && forall id :: id in m.hub.harness ==>
         m.hub.harness[id].activeJobs + Count(m.tasks, IsPickOf(id)) <= Capacity(m.hub.harness[id]) + limit - 1
  }

  lemma PicksOfAreOutstanding(tasks: seq<Task>, id: string)
    ensures Count(tasks, IsPickOf(id)) <= Count(tasks, IS_OUTSTANDING)
  {
    CountMonotone(tasks, IsPickOf(id), IS_OUTSTANDING);
  }

  lemma TaskStepKeepsBounded(m: Machine, limit: nat, t: nat, next: Task)
    requires Bounded(m, limit) && t < |m.tasks| && !next.Picked?
    ensures Count(m.tasks[t := next], IS_OUTSTANDING) <= limit
    ensures forall id :: Count(m.tasks[t := next], IsPickOf(id))
                         == Count(m.tasks, IsPickOf(id)) - if m.tasks[t] == Picked(id) then 1 else 0
  {
    CountUpdate(m.tasks, t, next, IS_OUTSTANDING);
    forall id ensures Count(m.tasks[t := next], IsPickOf(id))
                      == Count(m.tasks, IsPickOf(id)) - if m.tasks[t] == Picked(id) then 1 else 0
    {
      CountUpdate(m.tasks, t, next, IsPickOf(id));
    }
  }

  lemma RegisterKeepsBounded(m: Machine, limit: nat, id: string, w: Worker)
    requires 1 <= limit && Bounded(m, limit) && w.activeJobs == 0
    ensures Bounded(m.(hub := Register(m.hub, id, w)), limit)
  {
    PicksOfAreOutstanding(m.tasks, id);
  }

  lemma MemberKeepsBounded(m: Machine, limit: nat, a: Action)
    requires 1 <= limit && Bounded(m, limit) && Possible(a) && KeepsCapacity(m.hub, Member(a))
    ensures Bounded(Apply(m, limit, Member(a)), limit)
  {
    if a.RegisterA? {
      RegisterKeepsBounded(m, limit, a.id, a.worker);
    } else {
      var hub := HubState.Apply(m.hub, a);
      forall id | id in hub.harness
        ensures id in m.hub.harness && hub.harness[id].activeJobs == m.hub.harness[id].activeJobs
        ensures Capacity(hub.harness[id]) >= Capacity(m.hub.harness[id])
      {}
    }
  }

  lemma PickKeepsBounded(m: Machine, limit: nat, q: Query, id: string)
    requires 1 <= limit && Bounded(m, limit) && IsPick(m.hub, q, id) && Count(m.tasks, IS_OUTSTANDING) < limit
    ensures Bounded(Apply(m, limit, Pick(q, id)), limit)
  {
    CountAppend(m.tasks, Picked(id), IS_OUTSTANDING);
    PicksOfAreOutstanding(m.tasks, id);
    forall other | other in m.hub.harness
      ensures m.hub.harness[other].activeJobs + Count(m.tasks + [Picked(id)], IsPickOf(other))
              <= Capacity(m.hub.harness[other]) + limit - 1
    {
      CountAppend(m.tasks, Picked(id), IsPickOf(other));
    }
  }

  lemma IncrementKeepsBounded(m: Machine, limit: nat, t: nat)
    requires 1 <= limit && Bounded(m, limit) && t < |m.tasks| && m.tasks[t].Picked?
    ensures Bounded(Apply(m, limit, Increment(t)), limit)
  {
    TaskStepKeepsBounded(m, limit, t, Writing(m.tasks[t].id));
  }

  lemma RollbackKeepsBounded(m: Machine, limit: nat, t: nat)
    requires 1 <= limit && Bounded(m, limit) && t < |m.tasks| && m.tasks[t].RollingBack?
    ensures Bounded(Apply(m, limit, Rollback(t)), limit)
  {
    TaskStepKeepsBounded(m, limit, t, Done);
  }

  lemma FinishKeepsBounded(m: Machine, limit: nat, t: nat)
    requires 1 <= limit && Bounded(m, limit) && t < |m.tasks| && m.tasks[t].Delivered?
    ensures Bounded(Apply(m, limit, Finish(t)), limit)
  {
    TaskStepKeepsBounded(m, limit, t, Done);
  }

  lemma StepKeepsBounded(m: Machine, limit: nat, step: Step)
    requires 1 <= limit && Bounded(m, limit) && KeepsCapacity(m.hub, step)
    ensures Bounded(Apply(m, limit, step), limit)
  {
    match step
    case Pick(q, id) =>
      if IsPick(m.hub, q, id) && Count(m.tasks, IS_OUTSTANDING) < limit { PickKeepsBounded(m, limit, q, id); }
    case Abandon(t) => if t < |m.tasks| { TaskStepKeepsBounded(m, limit, t, Done); }
    case Increment(t) => if t < |m.tasks| && m.tasks[t].Picked? { IncrementKeepsBounded(m, limit, t); }
    case Write(t, ok) =>
      if t < |m.tasks| && m.tasks[t].Writing? {
        TaskStepKeepsBounded(m, limit, t, if ok then Delivered(m.tasks[t].id) else RollingBack(m.tasks[t].id));
      }
    case Rollback(t) => if t < |m.tasks| && m.tasks[t].RollingBack? { RollbackKeepsBounded(m, limit, t); }
    case Finish(t) => if t < |m.tasks| && m.tasks[t].Delivered? { FinishKeepsBounded(m, limit, t); }
    case Complete(_) =>
    case Member(a) => if Possible(a) { MemberKeepsBounded(m, limit, a); }
  }

  /**
   * In every interleaving with completions, spurious ones included, and with reconnects, a registered
   * worker's jobs and outstanding picks stay within its capacity plus limit - 1. With one pick at a time
   * the capacity is never exceeded, although the dispatch does not recheck it.
   */
  lemma {:induction false} OverloadIsBounded(m: Machine, limit: nat, run: seq<Step>)
    requires 1 <= limit && Bounded(m, limit) && CapacityKept(m, limit, run)
    ensures Bounded(Exec(m, limit, run), limit)
    decreases |run|
  {
    if run != [] {
      StepKeepsBounded(m, limit, run[0]);
      OverloadIsBounded(Apply(m, limit, run[0]), limit, run[1..]);
    }
  }

  ghost predicate WithinCapacity(m: Machine) {
    forall id :: id in m.hub.harness ==> m.hub.harness[id].activeJobs <= Capacity(m.hub.harness[id])
  }

  /** Without picks there is even less. */
  lemma {:induction false} NoPicksAreBounded(m: Machine, run: seq<Step>)
    requires Bounded(m, 1) && CapacityKept(m, 0, run)
    ensures Bounded(Exec(m, 0, run), 1)
    decreases |run|
  {
    if run != [] {
      if !run[0].Pick? {
        StepKeepsBounded(m, 1, run[0]);
        assert Apply(m, 0, run[0]) == Apply(m, 1, run[0]);
      }
      NoPicksAreBounded(Apply(m, 0, run[0]), run[1..]);
    }
  }

  /** The hub starts empty; then the bound holds of every reachable state. */
  lemma SequentialUseNeverExceedsCapacity(limit: nat, run: seq<Step>)
    requires limit <= 1 && CapacityKept(Machine(EMPTY, []), limit, run)
    ensures WithinCapacity(Exec(Machine(EMPTY, []), limit, run))
  {
    if limit == 0 {
      NoPicksAreBounded(Machine(EMPTY, []), run);
    } else {
      OverloadIsBounded(Machine(EMPTY, []), 1, run);
    }
  }

  /******* The bound is reached *******/

  function Picks(q: Query, id: string, n: nat): seq<Step> {
    if n == 0 then [] else [Pick(q, id)] + Picks(q, id, n - 1)
  }

  function Increments(from: nat, n: nat): seq<Step>
    decreases n
  {
    if n == 0 then [] else [Increment(from)] + Increments(from + 1, n - 1)
  }

  lemma {:induction false} ExecConcat(m: Machine, limit: nat, a: seq<Step>, b: seq<Step>)
    ensures Exec(m, limit, a + b) == Exec(Exec(m, limit, a), limit, b)
    decreases |a|
  {
    if a == [] {
      assert a + b == b;
    } else {
      assert (a + b)[1..] == a[1..] + b;
      ExecConcat(Apply(m, limit, a[0]), limit, a[1..], b);
    }
  }

  function Repeat(id: string, n: nat): seq<Task> {
    seq(n, _ => Picked(id))
  }

  lemma RepeatOneMore(tasks: seq<Task>, id: string, n: nat)
    requires n > 0
    ensures tasks + [Picked(id)] + Repeat(id, n - 1) == tasks + Repeat(id, n)
  {}

  lemma OnePick(m: Machine, limit: nat, q: Query, id: string, rest: seq<Step>)
    requires IsPick(m.hub, q, id) && Count(m.tasks, IS_OUTSTANDING) < limit
    ensures Exec(m, limit, [Pick(q, id)] + rest) == Exec(Machine(m.hub, m.tasks + [Picked(id)]), limit, rest)
  {
    assert ([Pick(q, id)] + rest)[1..] == rest;
  }

  lemma {:induction false} PickRepeatedly(m: Machine, limit: nat, q: Query, id: string, n: nat)
    requires IsPick(m.hub, q, id) && Count(m.tasks, IS_OUTSTANDING) + n <= limit
    ensures Exec(m, limit, Picks(q, id, n)) == Machine(m.hub, m.tasks + Repeat(id, n))
    decreases n
  {
    if n == 0 {
      assert m.tasks + Repeat(id, n) == m.tasks;
    } else {
      OnePick(m, limit, q, id, Picks(q, id, n - 1));
      CountAppend(m.tasks, Picked(id), IS_OUTSTANDING);
      PickRepeatedly(Machine(m.hub, m.tasks + [Picked(id)]), limit, q, id, n - 1);
      RepeatOneMore(m.tasks, id, n);
    }
  }

  lemma OneIncrement(m: Machine, limit: nat, id: string, t: nat, rest: seq<Step>)
    requires t < |m.tasks| && m.tasks[t] == Picked(id)
    requires id in m.hub.harness && m.hub.harness[id].activeJobs >= 0
    ensures Exec(m, limit, [Increment(t)] + rest) == Exec(Apply(m, limit, Increment(t)), limit, rest)
    ensures var m' := Apply(m, limit, Increment(t));
      && m'.tasks == m.tasks[t := Writing(id)] && id in m'.hub.harness
      && m'.hub.harness[id] == m.hub.harness[id].(activeJobs := m.hub.harness[id].activeJobs + 1)
  {
    assert ([Increment(t)] + rest)[1..] == rest;
  }

  lemma {:induction false} IncrementRepeatedly(m: Machine, limit: nat, id: string, from: nat, n: nat)
    requires from + n <= |m.tasks| && forall t :: from <= t < from + n ==> m.tasks[t] == Picked(id)
    requires id in m.hub.harness && m.hub.harness[id].activeJobs >= 0
    ensures id in Exec(m, limit, Increments(from, n)).hub.harness
    ensures Exec(m, limit, Increments(from, n)).hub.harness[id] ==
              m.hub.harness[id].(activeJobs := m.hub.harness[id].activeJobs + n)
    decreases n
  {
    if n > 0 {
      OneIncrement(m, limit, id, from, Increments(from + 1, n - 1));
      IncrementRepeatedly(Apply(m, limit, Increment(from)), limit, id, from + 1, n - 1);
    }
  }

  /** Picks do not reserve: `limit` of them on a worker with one slot left load it to the bound. */
  lemma BoundIsReached(hub: State, q: Query, id: string, limit: nat)
    requires IsPick(hub, q, id) && hub.harness[id].activeJobs == Capacity(hub.harness[id]) - 1
    ensures var m := Exec(Machine(hub, []), limit, Picks(q, id, limit) + Increments(0, limit));
            && id in m.hub.harness
            && m.hub.harness[id].activeJobs == Capacity(m.hub.harness[id]) + limit - 1
  {
    var m := Machine(hub, []);
    ExecConcat(m, limit, Picks(q, id, limit), Increments(0, limit));
    PickRepeatedly(m, limit, q, id, limit);
    var picked := Exec(m, limit, Picks(q, id, limit));
    assert picked.tasks == Repeat(id, limit);
    IncrementRepeatedly(picked, limit, id, 0, limit);
  }

  predicate IsUpdate(step: Step) {
    step.Member? && step.action.UpdateA?
  }

  lemma {:induction false} NoUpdateKeepsCapacity(m: Machine, limit: nat, run: seq<Step>)
    requires forall step :: step in run ==> !IsUpdate(step)
    ensures CapacityKept(m, limit, run)
    decreases |run|
  {
    if run != [] {
      assert !IsUpdate(run[0]);
      NoUpdateKeepsCapacity(Apply(m, limit, run[0]), limit, run[1..]);
    }
  }

  lemma PicksAreNoUpdates(q: Query, id: string, n: nat)
    ensures forall step :: step in Picks(q, id, n) ==> !IsUpdate(step)
  {}

  lemma IncrementsAreNoUpdates(from: nat, n: nat)
    ensures forall step :: step in Increments(from, n) ==> !IsUpdate(step)
    decreases n
  {}

  /** A worker that takes one job at a time, and a request for its tier. */
  const IDLE := Worker("", "", "light", "", [], 1, 0, 0)
  const LIGHT := Query("", "", "light")

  /** It connects, is picked `limit` times, and is dispatched to as often. */
  function Overload(limit: nat): seq<Step> {
    [Member(RegisterA("w", IDLE))] + (Picks(LIGHT, "w", limit) + Increments(0, limit))
  }

  lemma IdleIsPicked()
    ensures var hub := Register(EMPTY, "w", IDLE); IsPick(hub, LIGHT, "w") && hub.harness["w"] == IDLE
  {}

  lemma FirstStep(m: Machine, limit: nat, step: Step, rest: seq<Step>)
    ensures Exec(m, limit, [step] + rest) == Exec(Apply(m, limit, step), limit, rest)
  {
    assert ([step] + rest)[1..] == rest;
  }

  lemma OverloadKeepsCapacity(limit: nat)
    ensures CapacityKept(Machine(EMPTY, []), limit, Overload(limit))
  {
    PicksAreNoUpdates(LIGHT, "w", limit);
    IncrementsAreNoUpdates(0, limit);
    NoUpdateKeepsCapacity(Machine(EMPTY, []), limit, Overload(limit));
  }

  lemma BoundExceedsCapacity(hub: State, limit: nat, rest: seq<Step>)
    requires limit >= 2 && rest == Picks(LIGHT, "w", limit) + Increments(0, limit)
    requires IsPick(hub, LIGHT, "w") && hub.harness["w"] == IDLE
    ensures !WithinCapacity(Exec(Machine(hub, []), limit, rest))
  {
    BoundIsReached(hub, LIGHT, "w", limit);
  }

  lemma OverloadExceeds(limit: nat)
    requires limit >= 2
    ensures !WithinCapacity(Exec(Machine(EMPTY, []), limit, Overload(limit)))
  {
    var rest := Picks(LIGHT, "w", limit) + Increments(0, limit);
    IdleIsPicked();
    BoundExceedsCapacity(Register(EMPTY, "w", IDLE), limit, rest);
    FirstStep(Machine(EMPTY, []), limit, Member(RegisterA("w", IDLE)), rest);
  }

  /**
   * From the empty hub, every run without updates that lower a capacity keeps all workers within their capacity, if and
   * only if at most one pick is outstanding at a time.
   */
  lemma CapacityIsKeptIff(limit: nat)
    ensures (forall run :: CapacityKept(Machine(EMPTY, []), limit, run) ==> WithinCapacity(Exec(Machine(EMPTY, []), limit, run)))
            <==> limit <= 1
  {
    if limit <= 1 {
      forall run | CapacityKept(Machine(EMPTY, []), limit, run)
        ensures WithinCapacity(Exec(Machine(EMPTY, []), limit, run))
      {
        SequentialUseNeverExceedsCapacity(limit, run);
      }
    } else {
      OverloadKeepsCapacity(limit);
      OverloadExceeds(limit);
    }
  }

  /******* One dispatch *******/

  /** A picked job whose frame cannot be written leaves the worker's counter as it was; one that is written counts. */
  lemma DispatchCounts(m: Machine, limit: nat, t: nat)
    requires t < |m.tasks| && m.tasks[t].Picked? && NonNegative(m.hub)
    ensures var id := m.tasks[t].id;
      var failed := Apply(Apply(Apply(m, limit, Increment(t)), limit, Write(t, false)), limit, Rollback(t));
      var written := Apply(Apply(m, limit, Increment(t)), limit, Write(t, true));
      && failed.tasks == m.tasks[t := Done] && failed.hub == m.hub
      && written.tasks == m.tasks[t := Delivered(id)]
      && written.hub == if id in m.hub.harness
                        then var w := m.hub.harness[id];
                             m.hub.(harness := m.hub.harness[id := w.(activeJobs := w.activeJobs + 1)])
                        else m.hub
  {
    var id := m.tasks[t].id;
    if id in m.hub.harness {
      var jobs := m.hub.harness[id].activeJobs;
      assert m.hub.harness[id := m.hub.harness[id].(activeJobs := jobs + 1)][id := m.hub.harness[id].(activeJobs := jobs)]
             == m.hub.harness;
    }
  }

  /******* When the counter is exact *******/

  /** The step counts a job of `id` before its frame is written. */
  predicate Sends(m: Machine, step: Step, id: string) {
    step.Increment? && step.task < |m.tasks| && m.tasks[step.task] == Picked(id)
  }

  /** The step takes a job of `id` off: a rollback, or a completion, spurious or not. */
  predicate TakesOff(m: Machine, step: Step, id: string) {
    match step
    case Rollback(t) => t < |m.tasks| && m.tasks[t] == RollingBack(id)
    case Finish(t) => t < |m.tasks| && m.tasks[t] == Delivered(id)
    case Complete(other) => other == id
    case _ => false
  }

  predicate Registers(step: Step, id: string) {
    step.Member? && Possible(step.action) && step.action.RegisterA? && step.action.id == id && id != ""
  }

  /** The clamp at zero takes effect. */
  predicate Fires(m: Machine, step: Step, id: string) {
    id in m.hub.harness && TakesOff(m, step, id) && m.hub.harness[id].activeJobs <= 0
  }

  ghost predicate NeverFires(m: Machine, limit: nat, id: string, run: seq<Step>)
    decreases |run|
  {
    run != [] ==> !Fires(m, run[0], id) && NeverFires(Apply(m, limit, run[0]), limit, id, run[1..])
  }

  /** Since the worker was last registered: jobs counted, and jobs rolled back or completed. */
  datatype Tally = Tally(sent: nat, takenOff: nat)

  function Tallied(m: Machine, step: Step, id: string, t: Tally): Tally {
    if Registers(step, id) then Tally(0, 0)
    else if id !in m.hub.harness then t
    else if Sends(m, step, id) then t.(sent := t.sent + 1)
    else if TakesOff(m, step, id) then t.(takenOff := t.takenOff + 1)
    else t
  }

  ghost function TallyAfter(m: Machine, limit: nat, id: string, run: seq<Step>, t: Tally): Tally
    decreases |run|
  {
    if run == [] then t else TallyAfter(Apply(m, limit, run[0]), limit, id, run[1..], Tallied(m, run[0], id, t))
  }

  /** At every point of the run, no more jobs were taken off since the registration than counted. */
  ghost predicate NeverOverdrawn(m: Machine, limit: nat, id: string, run: seq<Step>, t: Tally)
    decreases |run|
  {
    && (id in m.hub.harness ==> t.takenOff <= t.sent)
    && (run != [] ==> NeverOverdrawn(Apply(m, limit, run[0]), limit, id, run[1..], Tallied(m, run[0], id, t)))
  }

  /** The counter is what the tally says. */
  predicate Agrees(m: Machine, id: string, t: Tally) {
    id in m.hub.harness ==> t.takenOff <= t.sent && m.hub.harness[id].activeJobs == t.sent - t.takenOff
  }

  lemma MemberTallies(m: Machine, limit: nat, a: Action, id: string, t: Tally)
    requires Agrees(m, id, t)
    ensures Agrees(Apply(m, limit, Member(a)), id, Tallied(m, Member(a), id, t))
  {}

  lemma StepTallies(m: Machine, limit: nat, step: Step, id: string, t: Tally)
    requires Agrees(m, id, t)
    ensures var m', t' := Apply(m, limit, step), Tallied(m, step, id, t);
      if Fires(m, step, id) then id in m'.hub.harness && t'.takenOff > t'.sent else Agrees(m', id, t')
  {
    if step.Member? { MemberTallies(m, limit, step.action, id, t); }
  }

  /**
   * Over every interleaving, with reconnects and spurious completions: the clamp never fires for a worker if and only
   * if at every point, since the worker was last registered, rollbacks and completions do not exceed the jobs counted.
   * While it has not fired, the counter is their difference.
   */
  lemma {:induction false} ClampNeverFiresIff(m: Machine, limit: nat, id: string, run: seq<Step>, t: Tally)
    requires Agrees(m, id, t)
    ensures NeverFires(m, limit, id, run) <==> NeverOverdrawn(m, limit, id, run, t)
    ensures NeverFires(m, limit, id, run) ==> Agrees(Exec(m, limit, run), id, TallyAfter(m, limit, id, run, t))
    decreases |run|
  {
    if run != [] {
      var m', t' := Apply(m, limit, run[0]), Tallied(m, run[0], id, t);
      StepTallies(m, limit, run[0], id, t);
      if Fires(m, run[0], id) {
        assert !NeverOverdrawn(m', limit, id, run[1..], t');
      } else {
        ClampNeverFiresIff(m', limit, id, run[1..], t');
      }
    }
  }

  /** The worker stays on its connection, and completes only jobs delivered to it. */
  predicate Faithful(m: Machine, step: Step, id: string) {
    match step
    case Complete(other) => other != id
    case Member(RegisterA(other, _)) => other != id
    case Member(UnregisterA(other)) => other != id
    case Member(SweepA(now)) => id in m.hub.harness ==> !Stale(m.hub.harness[id], now)
    case _ => true
  }

  ghost predicate FaithfulThroughout(m: Machine, limit: nat, id: string, run: seq<Step>)
    decreases |run|
  {
    run != [] ==> Faithful(m, run[0], id) && FaithfulThroughout(Apply(m, limit, run[0]), limit, id, run[1..])
  }

  /** Counted and neither rolled back nor completed. */
  function IsLiveOf(id: string): Task -> bool {
    (t: Task) => t == Writing(id) || t == RollingBack(id) || t == Delivered(id)
  }

  ghost predicate Exact(m: Machine, id: string) {
    id in m.hub.harness && m.hub.harness[id].activeJobs == Count(m.tasks, IsLiveOf(id))
  }

  lemma TaskStepExact(m: Machine, id: string, t: nat, next: Task)
    requires t < |m.tasks|
    ensures var live := IsLiveOf(id);
      Count(m.tasks[t := next], live) + (if live(m.tasks[t]) then 1 else 0) == Count(m.tasks, live) + if live(next) then 1 else 0
    ensures IsLiveOf(id)(m.tasks[t]) ==> Count(m.tasks, IsLiveOf(id)) > 0
  {
    CountUpdate(m.tasks, t, next, IsLiveOf(id));
    if IsLiveOf(id)(m.tasks[t]) { CountPositive(m.tasks, t, IsLiveOf(id)); }
  }

  lemma MemberKeepsExact(m: Machine, limit: nat, a: Action, id: string)
    requires Exact(m, id) && Faithful(m, Member(a), id)
    ensures Exact(Apply(m, limit, Member(a)), id)
  {}

  /** A job of `id` may be taken off only if one is there. */
  lemma TaskKeepsExact(m: Machine, limit: nat, step: Step, id: string, t: nat, next: Task)
    requires Exact(m, id) && t < |m.tasks|
    requires || (step == Rollback(t) && m.tasks[t].RollingBack? && next == Done)
             || (step == Finish(t) && m.tasks[t].Delivered? && next == Done)
             || (step == Increment(t) && m.tasks[t].Picked? && next == Writing(m.tasks[t].id))
    ensures Exact(Apply(m, limit, step), id) && !Fires(m, step, id)
  {
    TaskStepExact(m, id, t, next);
  }

  lemma StepKeepsExact(m: Machine, limit: nat, step: Step, id: string)
    requires Exact(m, id) && Faithful(m, step, id)
    ensures Exact(Apply(m, limit, step), id) && !Fires(m, step, id)
  {
    match step
    case Pick(q, other) => CountAppend(m.tasks, Picked(other), IsLiveOf(id));
    case Abandon(t) => if t < |m.tasks| { TaskStepExact(m, id, t, Done); }
    case Increment(t) =>
      if t < |m.tasks| && m.tasks[t].Picked? { TaskKeepsExact(m, limit, step, id, t, Writing(m.tasks[t].id)); }
    case Write(t, ok) =>
      if t < |m.tasks| && m.tasks[t].Writing? {
        TaskStepExact(m, id, t, if ok then Delivered(m.tasks[t].id) else RollingBack(m.tasks[t].id));
      }
    case Rollback(t) => if t < |m.tasks| && m.tasks[t].RollingBack? { TaskKeepsExact(m, limit, step, id, t, Done); }
    case Finish(t) => if t < |m.tasks| && m.tasks[t].Delivered? { TaskKeepsExact(m, limit, step, id, t, Done); }
    case Complete(_) =>
    case Member(a) => MemberKeepsExact(m, limit, a, id);
  }

  /**
   * Because the increment comes before the write: in every interleaving, for a worker that stays on one connection and
   * completes only jobs delivered to it, once each, the clamp never fires, and the counter is the number of jobs counted
   * and neither rolled back nor completed.
   */
  lemma {:induction false} CounterIsExact(m: Machine, limit: nat, id: string, run: seq<Step>)
    requires Exact(m, id) && FaithfulThroughout(m, limit, id, run)
    ensures NeverFires(m, limit, id, run) && Exact(Exec(m, limit, run), id)
    decreases |run|
  {
    if run != [] {
      StepKeepsExact(m, limit, run[0], id);
      CounterIsExact(Apply(m, limit, run[0]), limit, id, run[1..]);
    }
  }

  /** So it is increments minus rollbacks minus completions since the worker came online. */
  lemma CounterIsDifference(m: Machine, limit: nat, id: string, run: seq<Step>)
    requires Exact(m, id) && Count(m.tasks, IsLiveOf(id)) == 0 && FaithfulThroughout(m, limit, id, run)
    ensures var t := TallyAfter(m, limit, id, run, Tally(0, 0)); var m' := Exec(m, limit, run);
      && id in m'.hub.harness && m'.hub.harness[id].activeJobs == t.sent - t.takenOff == Count(m'.tasks, IsLiveOf(id))
  {
    CounterIsExact(m, limit, id, run);
    ClampNeverFiresIff(m, limit, id, run, Tally(0, 0));
  }

  /** Staying on one connection is needed: after a reconnect, finishing any job of the old connection fires the clamp. */
  lemma ReconnectFiresClamp(m: Machine, limit: nat, id: string, w: Worker, t: nat)
    requires id != "" && w.activeJobs == 0 && t < |m.tasks| && m.tasks[t] == Delivered(id)
    ensures Fires(Apply(m, limit, Member(RegisterA(id, w))), Finish(t), id)
  {}
}
