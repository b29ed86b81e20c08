/**
 The shared shutdown deadline as a state machine. Any number of tasks call `begin`, `wait_started` and
 `run_phase_with_reserve`; a step of the machine is one step of one task between two points where
 others may run, the arrival or the cancellation of a task, or the passing of time. The window is
 behind a mutex, and `notify_waiters` reaches every `Notified` future created before it.
 */
module Shutdown {
  import opened Wrappers

  type TaskId = nat

  datatype Window = Window(startedAt: nat, deadline: nat)

  /** Who waits: a caller of `wait_started`, or a phase that has to wait first. */
  datatype Caller = Plain | InPhase(reserve: nat)

  /** Where a task is. `notified` says whether its Notified future has been woken. */
  datatype Task =
    | BeginLock
    | BeginHeld
    | BeginWrote(deadline: nat)
    | BeginDropped(deadline: nat)
    | WaitTop(caller: Caller)
    | WaitLock(caller: Caller, notified: bool)
    | WaitHeld(caller: Caller, notified: bool)
    | WaitBlocked(caller: Caller, notified: bool)
    | PhaseLock(reserve: nat)
    | PhaseHeld(reserve: nat)
    | PhaseReady(reserve: nat, window: Window)
    | PhaseRunning(reserve: nat, effective: int)
    | Returned(deadline: nat)
    | Cancelled

  datatype State = State(
    total: nat,
    now: nat,
    window: Option<Window>,
    holder: Option<TaskId>,
    announced: bool,
    tasks: map<TaskId, Task>
  )

  datatype Action = Spawn(id: TaskId, task: Task) | Tick(elapsed: nat) | Advance(id: TaskId) | Cancel(id: TaskId)

  predicate Init(s: State) {
    s.window == None && s.holder == None && !s.announced && s.tasks == map[]
  }

  function Min(a: nat, b: nat): nat {
    if a < b then a else b
  }

  // ---------- steps ----------

  predicate IsEntry(t: Task) {
    t.BeginLock? || t == WaitTop(Plain) || t.PhaseLock?
  }

  predicate NeedsLock(t: Task) {
    t.BeginLock? || t.WaitLock? || t.PhaseLock?
  }

  predicate HoldsLock(t: Task) {
    t.BeginHeld? || t.BeginWrote? || t.WaitHeld? || t.PhaseHeld?
  }

  predicate Finished(t: Task) {
    t.Returned? || t.PhaseRunning? || t.Cancelled?
  }

  /** A task can be dropped where it awaits. */
  predicate AtAwait(t: Task) {
    NeedsLock(t) || t.WaitBlocked?
  }

  predicate CanAdvance(s: State, id: TaskId) {
    && id in s.tasks
    && !Finished(s.tasks[id])
    && (NeedsLock(s.tasks[id]) ==> s.holder == None)
    && (s.tasks[id].WaitBlocked? ==> s.tasks[id].notified)
  }

  function Woken(t: Task): Task {
    match t
    case WaitLock(c, _) => WaitLock(c, true)
    case WaitHeld(c, _) => WaitHeld(c, true)
    case WaitBlocked(c, _) => WaitBlocked(c, true)
    case _ => t
  }

  function Put(s: State, id: TaskId, t: Task): State {
    s.(tasks := s.tasks[id := t])
  }

  function Locked(s: State, id: TaskId, t: Task): State {
    Put(s, id, t).(holder := Some(id))
  }

  function Unlocked(s: State, id: TaskId, t: Task): State {
    Put(s, id, t).(holder := None)
  }

  /** `notify_waiters`, and the return of the caller that started the shutdown. */
  function Announced(s: State, id: TaskId, deadline: nat): State {
    s.(announced := true, tasks := (map k | k in s.tasks :: Woken(s.tasks[k]))[id := Returned(deadline)])
  }

  /** The next step of a task. */
  function Advanced(s: State, id: TaskId): State
    requires CanAdvance(s, id)
  {
    match s.tasks[id]
    case BeginLock => Locked(s, id, BeginHeld)
    case BeginHeld =>
      if s.window.Some? then Unlocked(s, id, Returned(s.window.value.deadline))
      else
        var w := Window(s.now, s.now + s.total);
        Put(s, id, BeginWrote(w.deadline)).(window := Some(w))
    case BeginWrote(d) => Unlocked(s, id, BeginDropped(d))
    case BeginDropped(d) => Announced(s, id, d)
    case WaitTop(c) => Put(s, id, WaitLock(c, false))
    case WaitLock(c, n) => Locked(s, id, WaitHeld(c, n))
    case WaitHeld(c, n) =>
      if s.window.None? then Unlocked(s, id, WaitBlocked(c, n))
      else if c.Plain? then Unlocked(s, id, Returned(s.window.value.deadline))
      else Unlocked(s, id, PhaseLock(c.reserve))
    case WaitBlocked(c, _) => Put(s, id, WaitTop(c))
    case PhaseLock(r) => Locked(s, id, PhaseHeld(r))
    case PhaseHeld(r) =>
      if s.window.Some? then Unlocked(s, id, PhaseReady(r, s.window.value))
      else Unlocked(s, id, WaitTop(InPhase(r)))
    case PhaseReady(r, w) => Put(s, id, PhaseRunning(r, w.deadline - Min(r, s.total)))
    case _ => s
  }

  predicate Enabled(s: State, a: Action) {
    match a
    case Spawn(id, t) => id !in s.tasks && IsEntry(t)
    case Tick(_) => true
    case Advance(id) => CanAdvance(s, id)
    case Cancel(id) => id in s.tasks && AtAwait(s.tasks[id])
  }

  function Apply(s: State, a: Action): State
    requires Enabled(s, a)
  {
    match a
    case Spawn(id, t) => Put(s, id, t)
    case Tick(elapsed) => s.(now := s.now + elapsed)
    case Advance(id) => Advanced(s, id)
    case Cancel(id) => Put(s, id, Cancelled)
  }

  // ---------- the invariant ----------

  /** What is true of a task wherever it is. */
  predicate TaskOk(s: State, id: TaskId, t: Task) {
    && (HoldsLock(t) <==> s.holder == Some(id))
    && (t.BeginWrote? || t.BeginDropped? || t.Returned? ==> s.window.Some? && t.deadline == s.window.value.deadline)
    && (t.PhaseReady? ==> s.window == Some(t.window))
    && (t.PhaseRunning? ==> s.window.Some? && t.effective == s.window.value.deadline - Min(t.reserve, s.total))
    && (t.WaitBlocked? && !t.notified ==> !s.announced)
  }

  predicate IsSetter(t: Task) {
    t.BeginWrote? || t.BeginDropped?
  }

  /** The deadline is the start plus the budget, the start is not in the future, and only a start is announced. */
  predicate WindowOk(s: State) {
    && (s.window.Some? ==>
          s.window.value.deadline == s.window.value.startedAt + s.total && s.window.value.startedAt <= s.now)
    && (s.announced ==> s.window.Some?)
  }

  ghost predicate Inv(s: State) {
    && (forall id :: id in s.tasks ==> TaskOk(s, id, s.tasks[id]))
    && (s.holder.Some? ==> s.holder.value in s.tasks)
    && WindowOk(s)
    && (s.window.Some? && !s.announced ==> exists id :: id in s.tasks && IsSetter(s.tasks[id]))
  }

  /** A step changes one task, and may wake the others. */
  lemma OtherTasks(s: State, id: TaskId, k: TaskId)
    requires CanAdvance(s, id) && k in s.tasks && k != id
    ensures var t := Advanced(s, id);
      k in t.tasks && (t.tasks[k] == s.tasks[k] || (t.tasks[k] == Woken(s.tasks[k]) && t.announced))
  {
  }

  lemma AdvanceKeepsKeys(s: State, id: TaskId)
    requires CanAdvance(s, id)
    ensures Advanced(s, id).tasks.Keys == s.tasks.Keys
  {
  }

  lemma OwnLock(s: State, id: TaskId)
    requires CanAdvance(s, id) && (HoldsLock(s.tasks[id]) <==> s.holder == Some(id))
    ensures HoldsLock(Advanced(s, id).tasks[id]) <==> Advanced(s, id).holder == Some(id)
  {
  }

  lemma AdvanceKeepsOwn(s: State, id: TaskId)
    requires CanAdvance(s, id) && TaskOk(s, id, s.tasks[id]) && (s.announced ==> s.window.Some?)
    ensures TaskOk(Advanced(s, id), id, Advanced(s, id).tasks[id])
  {
    OwnLock(s, id);
    // Callers of begin, of wait_started, and phases move by different steps.
    match s.tasks[id]
    case BeginLock | BeginHeld | BeginWrote(_) | BeginDropped(_) =>
    case WaitTop(_) | WaitLock(_, _) | WaitHeld(_, _) | WaitBlocked(_, _) =>
    case _ =>
  }

  lemma AdvanceKeepsOther(s: State, id: TaskId, k: TaskId)
    requires CanAdvance(s, id) && TaskOk(s, id, s.tasks[id]) && k in s.tasks && k != id && TaskOk(s, k, s.tasks[k])
    ensures k in Advanced(s, id).tasks && TaskOk(Advanced(s, id), k, Advanced(s, id).tasks[k])
  {
  }

  lemma AdvanceKeepsSetter(s: State, id: TaskId)
    requires Inv(s) && CanAdvance(s, id)
    ensures var t := Advanced(s, id);
      t.window.Some? && !t.announced ==> exists k :: k in t.tasks && IsSetter(t.tasks[k])
  {
    var t := Advanced(s, id);
    if t.window.Some? && !t.announced {
      if s.window.None? || IsSetter(s.tasks[id]) {
        assert IsSetter(t.tasks[id]);
      } else {
        var k :| k in s.tasks && IsSetter(s.tasks[k]);
        assert k != id && t.tasks[k] == s.tasks[k];
      }
    }
  }

  lemma AdvanceKeepsShared(s: State, id: TaskId)
    requires Inv(s) && CanAdvance(s, id)
    ensures var t := Advanced(s, id);
      && (t.holder.Some? ==> t.holder.value in t.tasks) && WindowOk(t)
  {
    assert TaskOk(s, id, s.tasks[id]);
  }

  lemma AdvanceKeepsInv(s: State, id: TaskId)
    requires Inv(s) && CanAdvance(s, id)
    ensures Inv(Advanced(s, id))
  {
    var t := Advanced(s, id);
    AdvanceKeepsKeys(s, id);
    forall k | k in t.tasks ensures TaskOk(t, k, t.tasks[k]) {
      if k == id {
        AdvanceKeepsOwn(s, id);
      } else {
        AdvanceKeepsOther(s, id, k);
      }
    }
    AdvanceKeepsShared(s, id);
    AdvanceKeepsSetter(s, id);
  }

  lemma StepKeepsInv(s: State, a: Action)
    requires Inv(s) && Enabled(s, a)
    ensures Inv(Apply(s, a))
  {
    var t := Apply(s, a);
    match a
    case Advance(id) =>
      AdvanceKeepsInv(s, id);
    case Cancel(id) =>
      assert TaskOk(s, id, s.tasks[id]);
      OthersKeepSetter(s, t, id);
    case Spawn(id, _) =>
      OthersKeepSetter(s, t, id);
    case Tick(_) =>
      forall k | k in t.tasks ensures TaskOk(t, k, t.tasks[k]) {
        assert TaskOk(s, k, s.tasks[k]);
      }
  }

  /** The task that owes the notification is still there. */
  lemma OthersKeepSetter(s: State, t: State, id: TaskId)
    requires Inv(s) && t.window == s.window && t.announced == s.announced
    requires forall k :: k in s.tasks && k != id ==> k in t.tasks && t.tasks[k] == s.tasks[k]
    requires id in s.tasks ==> !IsSetter(s.tasks[id])
    ensures t.window.Some? && !t.announced ==> exists k :: k in t.tasks && IsSetter(t.tasks[k])
  {
    if s.window.Some? && !s.announced {
      var k :| k in s.tasks && IsSetter(s.tasks[k]);
      assert k in t.tasks && IsSetter(t.tasks[k]);
    }
  }

  // ---------- runs ----------

  /** States visited by a run of the machine, from an initial one. */
  ghost predicate IsRun(run: seq<State>) {
    && |run| > 0 && Init(run[0])
    && forall i :: 0 <= i < |run| - 1 ==> Next(run[i], run[i + 1])
  }

  ghost predicate Next(s: State, t: State) {
    exists a :: Enabled(s, a) && t == Apply(s, a)
  }

  lemma {:induction false} RunKeepsInv(run: seq<State>, i: nat)
    requires IsRun(run) && i < |run|
    ensures Inv(run[i])
  {
    if i > 0 {
      RunKeepsInv(run, i - 1);
      assert Next(run[i - 1], run[i]);
      var a :| Enabled(run[i - 1], a) && run[i] == Apply(run[i - 1], a);
      StepKeepsInv(run[i - 1], a);
    }
  }

  lemma StepKeepsWindow(s: State, t: State)
    requires Next(s, t)
    ensures t.total == s.total && s.now <= t.now
    ensures s.window.Some? ==> t.window == s.window
    ensures s.announced ==> t.announced
  {
  }

  /** The window is written once: later states have the same one, the same budget and a later clock. */
  lemma {:induction false} WindowWrittenOnce(run: seq<State>, i: nat, j: nat)
    requires IsRun(run) && i <= j < |run|
    ensures run[j].total == run[i].total && run[i].now <= run[j].now
    ensures run[i].window.Some? ==> run[j].window == run[i].window
    ensures run[i].announced ==> run[j].announced
    decreases j
  {
    if i < j {
      WindowWrittenOnce(run, i, j - 1);
      var k := j - 1;
      assert Next(run[k], run[k + 1]);
      StepKeepsWindow(run[k], run[k + 1]);
    }
  }

  /** Every caller, whenever it returns, gets the same deadline: the start plus the whole budget. */
  lemma OneDeadlineForAll(run: seq<State>, i: nat, j: nat, a: TaskId, b: TaskId)
    requires IsRun(run) && i < |run| && j < |run|
    requires a in run[i].tasks && run[i].tasks[a].Returned?
    requires b in run[j].tasks && run[j].tasks[b].Returned?
    ensures run[i].tasks[a].deadline == run[j].tasks[b].deadline
    ensures run[i].window.Some? && run[i].tasks[a].deadline == run[i].window.value.startedAt + run[0].total
  {
    RunKeepsInv(run, i);
    RunKeepsInv(run, j);
    assert TaskOk(run[i], a, run[i].tasks[a]) && TaskOk(run[j], b, run[j].tasks[b]);
    if i <= j {
      WindowWrittenOnce(run, i, j);
    } else {
      WindowWrittenOnce(run, j, i);
    }
    WindowWrittenOnce(run, 0, i);
  }

  /** A phase runs to the shared deadline minus its reserve, never before the start nor past the deadline. */
  lemma PhaseDeadline(run: seq<State>, i: nat, id: TaskId)
    requires IsRun(run) && i < |run| && id in run[i].tasks && run[i].tasks[id].PhaseRunning?
    ensures run[i].window.Some?
    ensures var w, t := run[i].window.value, run[i].tasks[id];
      && t.effective == (if t.reserve <= run[0].total then w.deadline - t.reserve else w.startedAt)
      && w.startedAt <= t.effective <= w.deadline
  {
    RunKeepsInv(run, i);
    assert TaskOk(run[i], id, run[i].tasks[id]);
    WindowWrittenOnce(run, 0, i);
  }

  // ---------- nobody waits forever ----------

  /** Once the start has been announced, no task waits for a notification. */
  lemma NoLostWakeup(run: seq<State>, i: nat, id: TaskId)
    requires IsRun(run) && i < |run| && run[i].announced
    requires id in run[i].tasks && run[i].tasks[id].WaitBlocked?
    ensures CanAdvance(run[i], id)
  {
    RunKeepsInv(run, i);
    assert TaskOk(run[i], id, run[i].tasks[id]);
  }

  /** How many steps of its own a task can still take once the window is set. */
  function Remaining(t: Task): nat {
    match t
    case BeginLock => 2
    case BeginHeld => 1
    case BeginWrote(_) => 2
    case BeginDropped(_) => 1
    case WaitTop(c) => if c.Plain? then 3 else 6
    case WaitLock(c, _) => if c.Plain? then 2 else 5
    case WaitHeld(c, _) => if c.Plain? then 1 else 4
    case WaitBlocked(c, _) => if c.Plain? then 4 else 7
    case PhaseLock(_) => 3
    case PhaseHeld(_) => 2
    case PhaseReady(_, _) => 1
    case _ => 0
  }

  /** While the shutdown has begun and a task is unfinished, some task can take a step. */
  lemma NoDeadlock(run: seq<State>, i: nat, id: TaskId)
    requires IsRun(run) && i < |run| && run[i].window.Some?
    requires id in run[i].tasks && !Finished(run[i].tasks[id])
    ensures exists k :: CanAdvance(run[i], k)
  {
    var s := run[i];
    RunKeepsInv(run, i);
    if s.holder.Some? {
      assert TaskOk(s, s.holder.value, s.tasks[s.holder.value]);
      assert CanAdvance(s, s.holder.value);
    } else if CanAdvance(s, id) {
    } else {
      assert TaskOk(s, id, s.tasks[id]);
      var k :| k in s.tasks && IsSetter(s.tasks[k]);
      assert CanAdvance(s, k);
    }
  }

  lemma OwnStepNearer(s: State, id: TaskId)
    requires CanAdvance(s, id) && s.window.Some? && TaskOk(s, id, s.tasks[id])
    ensures id in Advanced(s, id).tasks && Remaining(Advanced(s, id).tasks[id]) < Remaining(s.tasks[id])
  {
    // Callers of begin, of wait_started, and phases move by different steps.
    match s.tasks[id]
    case BeginLock | BeginHeld | BeginWrote(_) | BeginDropped(_) =>
    case WaitTop(_) | WaitLock(_, _) | WaitHeld(_, _) | WaitBlocked(_, _) =>
    case _ =>
  }

  /** So when no task can take a step, every task has finished. */
  lemma QuietMeansFinished(run: seq<State>, i: nat)
    requires IsRun(run) && i < |run| && run[i].window.Some?
    requires forall k :: !CanAdvance(run[i], k)
    ensures forall id :: id in run[i].tasks ==> Finished(run[i].tasks[id])
  {
    forall id | id in run[i].tasks ensures Finished(run[i].tasks[id]) {
      if !Finished(run[i].tasks[id]) {
        NoDeadlock(run, i, id);
      }
    }
  }

  /** Every step of a task brings it nearer its end, and no other step takes it further away. */
  lemma StepsRunOut(s: State, a: Action, id: TaskId)
    requires Inv(s) && s.window.Some? && Enabled(s, a) && id in s.tasks
    ensures var t := Apply(s, a);
      id in t.tasks && Remaining(t.tasks[id]) <= Remaining(s.tasks[id])
      && (a == Advance(id) ==> Remaining(t.tasks[id]) < Remaining(s.tasks[id]))
    ensures Finished(s.tasks[id]) <==> Remaining(s.tasks[id]) == 0
  {
    if a == Advance(id) {
      OwnStepNearer(s, id);
    } else if a.Advance? {
      OtherTasks(s, a.id, id);
    }
  }

  /** A run together with the action of each step. */
  ghost predicate IsTrace(run: seq<State>, actions: seq<Action>) {
    && |run| == |actions| + 1 && Init(run[0])
    && forall i :: 0 <= i < |actions| ==> Enabled(run[i], actions[i]) && run[i + 1] == Apply(run[i], actions[i])
  }

  function OwnSteps(actions: seq<Action>, id: TaskId): nat {
    if actions == [] then 0
    else OwnSteps(actions[..|actions| - 1], id) + if actions[|actions| - 1] == Advance(id) then 1 else 0
  }

  lemma OwnStepsExtended(actions: seq<Action>, i: nat, j: nat, id: TaskId)
    requires i < j <= |actions|
    ensures OwnSteps(actions[i..j], id)
         == OwnSteps(actions[i..j - 1], id) + if actions[j - 1] == Advance(id) then 1 else 0
  {
    assert actions[i..j][..j - i - 1] == actions[i..j - 1];
  }

  lemma TraceIsRun(run: seq<State>, actions: seq<Action>)
    requires IsTrace(run, actions)
    ensures IsRun(run)
  {
    forall i | 0 <= i < |run| - 1 ensures Next(run[i], run[i + 1]) {
      assert Enabled(run[i], actions[i]) && run[i + 1] == Apply(run[i], actions[i]);
    }
  }

  /** After the start, a task takes at most seven more steps of its own, however the tasks interleave. */
  lemma {:induction false} StepsBounded(run: seq<State>, actions: seq<Action>, i: nat, j: nat, id: TaskId)
    requires IsTrace(run, actions) && i <= j <= |actions|
    requires run[i].window.Some? && id in run[i].tasks
    ensures id in run[j].tasks
    ensures OwnSteps(actions[i..j], id) + Remaining(run[j].tasks[id]) <= Remaining(run[i].tasks[id]) <= 7
    decreases j
  {
    if i < j {
      StepsBounded(run, actions, i, j - 1, id);
      TraceIsRun(run, actions);
      RunKeepsInv(run, j - 1);
      WindowWrittenOnce(run, i, j - 1);
      OwnStepsExtended(actions, i, j, id);
      StepsRunOut(run[j - 1], actions[j - 1], id);
    }
  }

  /** The steps that belong to one of these tasks. */
  function StepsOf(actions: seq<Action>, ids: set<TaskId>): nat {
    if actions == [] then 0
    else
      var last := actions[|actions| - 1];
      StepsOf(actions[..|actions| - 1], ids) + if last.Advance? && last.id in ids then 1 else 0
  }

  lemma {:induction false} StepsOfOneMore(actions: seq<Action>, ids: set<TaskId>, id: TaskId)
    requires id in ids
    ensures StepsOf(actions, ids) == StepsOf(actions, ids - {id}) + OwnSteps(actions, id)
  {
    if actions != [] {
      StepsOfOneMore(actions[..|actions| - 1], ids, id);
    }
  }

  lemma {:induction false} StepsOfNone(actions: seq<Action>)
    ensures StepsOf(actions, {}) == 0
  {
    if actions != [] {
      StepsOfNone(actions[..|actions| - 1]);
    }
  }

  lemma {:induction false} StepsOfAll(actions: seq<Action>, ids: set<TaskId>)
    requires forall k :: 0 <= k < |actions| ==> actions[k].Advance? && actions[k].id in ids
    ensures StepsOf(actions, ids) == |actions|
  {
    if actions != [] {
      StepsOfAll(actions[..|actions| - 1], ids);
    }
  }

  /** After the start, any of the tasks there are together take at most seven steps for each of them. */
  lemma {:induction false} StepsOfBounded(run: seq<State>, actions: seq<Action>, i: nat, j: nat, ids: set<TaskId>)
    requires IsTrace(run, actions) && i <= j <= |actions|
    requires run[i].window.Some? && ids <= run[i].tasks.Keys
    ensures StepsOf(actions[i..j], ids) <= 7 * |ids|
    decreases |ids|
  {
    if ids == {} {
      StepsOfNone(actions[i..j]);
    } else {
      var id :| id in ids;
      StepsBounded(run, actions, i, j, id);
      StepsOfOneMore(actions[i..j], ids, id);
      StepsOfBounded(run, actions, i, j, ids - {id});
    }
  }

  lemma {:induction false} AdvancingKeepsTasks(run: seq<State>, actions: seq<Action>, i: nat, j: nat)
    requires IsTrace(run, actions) && i <= j <= |actions|
    requires forall k :: i <= k < j ==> actions[k].Advance?
    ensures run[j].tasks.Keys == run[i].tasks.Keys
    decreases j
  {
    if i < j {
      var k := j - 1;
      AdvancingKeepsTasks(run, actions, i, k);
      assert Enabled(run[k], actions[k]) && run[k + 1] == Apply(run[k], actions[k]);
      AdvanceKeepsKeys(run[k], actions[k].id);
    }
  }

  /** If after the start the tasks do nothing but step, all is over after seven steps for each of them. */
  lemma AdvancesBounded(run: seq<State>, actions: seq<Action>, i: nat, j: nat)
    requires IsTrace(run, actions) && i <= j <= |actions| && run[i].window.Some?
    requires forall k :: i <= k < j ==> actions[k].Advance?
    ensures j - i <= 7 * |run[i].tasks|
  {
    var ids := run[i].tasks.Keys;
    forall k | 0 <= k < j - i ensures actions[i..j][k].Advance? && actions[i..j][k].id in ids {
      AdvancingKeepsTasks(run, actions, i, i + k);
      assert Enabled(run[i + k], actions[i + k]);
    }
    StepsOfAll(actions[i..j], ids);
    StepsOfBounded(run, actions, i, j, ids);
  }
}
