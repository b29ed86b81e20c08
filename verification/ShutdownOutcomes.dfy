/**
 When the shutdown budget starts, and how each call ends: the instant the deadline counts from, what the
 callers of `begin`, `wait_started` and of a phase end with, and that a `begin` cannot fail to start it.
 */
module ShutdownOutcomes {
  import opened Wrappers
  import opened Shutdown

  // ---------- the instant the budget starts ----------

  /** In this step the task, inside `begin`, starts the budget at what the clock shows. */
  ghost predicate Starts(run: seq<State>, i: nat, id: TaskId) {
    && i + 1 < |run|
    && id in run[i].tasks && run[i].tasks[id].BeginHeld?
    && run[i].window.None? && run[i + 1].window.Some?
    && run[i + 1].window.value.startedAt == run[i].now == run[i + 1].now
    && run[i + 1].window.value.deadline == run[i].now + run[0].total
  }

  /** The task came by calling `begin` in this step. */
  ghost predicate Comes(run: seq<State>, i: nat, id: TaskId, call: Call) {
    && i + 1 < |run| && id !in run[i].tasks
    && id in run[i + 1].tasks && run[i + 1].tasks[id] == Entry(call)
  }

  lemma StartStep(s: State, t: State)
    requires Next(s, t) && s.window.None? && t.window.Some?
    ensures t.window.value == Window(s.now, s.now + s.total) && t.now == s.now
    ensures exists id :: id in s.tasks && s.tasks[id].BeginHeld?
  {
  }

  /** The window is never set but by a task inside `begin`, at the clock of that step. */
  lemma StartIsNow(run: seq<State>, i: nat)
    requires IsRun(run) && i + 1 < |run| && run[i].window.None? && run[i + 1].window.Some?
    ensures exists id :: Starts(run, i, id)
  {
    assert Next(run[i], run[i + 1]);
    StartStep(run[i], run[i + 1]);
    WindowWrittenOnce(run, 0, i);
    var id :| id in run[i].tasks && run[i].tasks[id].BeginHeld?;
    assert Starts(run, i, id);
  }

  lemma {:induction false} BudgetStarts(run: seq<State>, j: nat) returns (i: nat, id: TaskId)
    requires IsRun(run) && j < |run| && run[j].window.Some?
    ensures i < j && Starts(run, i, id) && run[j].window == run[i + 1].window
  {
    if run[j - 1].window.Some? {
      i, id := BudgetStarts(run, j - 1);
      WindowWrittenOnce(run, i + 1, j);
    } else {
      i := j - 1;
      StartIsNow(run, i);
      id :| Starts(run, i, id);
    }
  }

  lemma {:induction false} CameToBegin(run: seq<State>, i: nat, id: TaskId) returns (k: nat)
    requires IsRun(run) && i < |run| && id in run[i].tasks
    requires run[i].tasks[id].BeginLock? || run[i].tasks[id].BeginHeld?
    ensures k < i && Comes(run, k, id, Begin)
  {
    k := i - 1;
    assert Next(run[k], run[k + 1]);
    if id in run[k].tasks {
      BeginStep(run[k], run[k + 1], id);
      k := CameToBegin(run, k, id);
    }
  }

  lemma BeginStep(s: State, t: State, id: TaskId)
    requires Next(s, t) && id in s.tasks && id in t.tasks && (t.tasks[id].BeginLock? || t.tasks[id].BeginHeld?)
    ensures s.tasks[id].BeginLock? || s.tasks[id].BeginHeld?
  {
    var a :| Enabled(s, a) && t == Apply(s, a);
    if a.Advance? && a.id != id {
      OtherTasks(s, a.id, id);
    }
  }

  /** The call has its answer. */
  predicate Answered(t: Task) {
    t.Returned? || t.PhaseReady? || t.PhaseRunning?
  }

  /**
   Every deadline that is returned is what the clock showed at one step of a call of `begin`, plus the
   budget. The call had come before that step, and no call had been answered by then.
   */
  lemma DeadlineCountsFromBegin(run: seq<State>, j: nat, a: TaskId)
    returns (came: nat, start: nat, id: TaskId)
    requires IsRun(run) && j < |run| && a in run[j].tasks && run[j].tasks[a].Returned?
    ensures came < start < j && Comes(run, came, id, Begin) && Starts(run, start, id)
    ensures run[j].tasks[a].deadline == run[start].now + run[0].total
    ensures forall k, b :: 0 <= k <= start && b in run[k].tasks ==> !Answered(run[k].tasks[b])
  {
    RunKeepsInv(run, j);
    assert TaskOk(run[j], a, run[j].tasks[a]);
    start, id := BudgetStarts(run, j);
    came := CameToBegin(run, start, id);
    forall k, b | 0 <= k <= start && b in run[k].tasks ensures !Answered(run[k].tasks[b]) {
      WindowWrittenOnce(run, k, start);
      RunKeepsInv(run, k);
      assert TaskOk(run[k], b, run[k].tasks[b]);
    }
  }

  /** The budget starts once. */
  lemma StartsOnce(run: seq<State>, i: nat, a: TaskId, k: nat, b: TaskId)
    requires IsRun(run) && Starts(run, i, a) && Starts(run, k, b)
    ensures i == k
  {
    if i < k {
      WindowWrittenOnce(run, i + 1, k);
    } else if k < i {
      WindowWrittenOnce(run, k + 1, i);
    }
  }

  // ---------- how a call ends ----------

  datatype Call = Begin | Wait | Phase(reserve: nat)

  function Entry(c: Call): Task {
    match c
    case Begin => BeginLock
    case Wait => WaitTop(Plain)
    case Phase(r) => PhaseLock(r)
  }

  predicate Waiting(w: Caller, c: Call) {
    if w.Plain? then c.Wait? else c == Phase(w.reserve)
  }

  /** The task is somewhere in this call, at its end, or dropped. */
  predicate Doing(t: Task, c: Call) {
    match t
    case BeginLock => c.Begin?
    case BeginHeld => c.Begin?
    case BeginWrote(_) => c.Begin?
    case BeginDropped(_) => c.Begin?
    case WaitTop(w) => Waiting(w, c)
    case WaitLock(w, _) => Waiting(w, c)
    case WaitHeld(w, _) => Waiting(w, c)
    case WaitBlocked(w, _) => Waiting(w, c)
    case PhaseLock(r) => c == Phase(r)
    case PhaseHeld(r) => c == Phase(r)
    case PhaseReady(r, _) => c == Phase(r)
    case PhaseRunning(r, _) => c == Phase(r)
    case Returned(_) => !c.Phase?
    case Cancelled => true
  }

  lemma StepStaysInCall(s: State, a: Action, id: TaskId, c: Call)
    requires Enabled(s, a) && id in s.tasks && Doing(s.tasks[id], c)
    ensures id in Apply(s, a).tasks && Doing(Apply(s, a).tasks[id], c)
    ensures a != Cancel(id) && !s.tasks[id].Cancelled? ==> !Apply(s, a).tasks[id].Cancelled?
  {
    if a.Advance? && a.id != id {
      OtherTasks(s, a.id, id);
    } else if a.Advance? {
      OwnStepStaysInCall(s, id, c);
    }
  }

  lemma OwnStepStaysInCall(s: State, id: TaskId, c: Call)
    requires CanAdvance(s, id) && Doing(s.tasks[id], c)
    ensures var t := Advanced(s, id);
      id in t.tasks && Doing(t.tasks[id], c) && !t.tasks[id].Cancelled?
  {
    match s.tasks[id]
    case BeginLock | BeginHeld | BeginWrote(_) | BeginDropped(_) =>
    case WaitTop(_) | WaitLock(_, _) | WaitHeld(_, _) | WaitBlocked(_, _) =>
    case _ =>
  }

  lemma {:induction false} StaysInCall(run: seq<State>, actions: seq<Action>, i: nat, j: nat, id: TaskId, c: Call)
    requires IsTrace(run, actions) && i <= j <= |actions|
    requires id in run[i].tasks && run[i].tasks[id] == Entry(c)
    requires forall k :: i <= k < j ==> actions[k] != Cancel(id)
    ensures id in run[j].tasks && Doing(run[j].tasks[id], c) && !run[j].tasks[id].Cancelled?
    decreases j
  {
    if i < j {
      StaysInCall(run, actions, i, j - 1, id, c);
      StepStaysInCall(run[j - 1], actions[j - 1], id, c);
    }
  }

  /** What a call ends with, for the instant the budget started. */
  function EndOf(c: Call, startedAt: nat, total: nat): Task {
    match c
    case Begin => Returned(startedAt + total)
    case Wait => Returned(startedAt + total)
    case Phase(r) => PhaseRunning(r, if r <= total then startedAt + total - r else startedAt)
  }

  /**
   A call that is not dropped and has ended was answered after the start: callers of `begin` and of
   `wait_started` hold the deadline, a phase runs until its reserve is left of the budget.
   */
  lemma CallEnds(run: seq<State>, actions: seq<Action>, i: nat, j: nat, id: TaskId, c: Call)
    returns (start: nat, starter: TaskId)
    requires IsTrace(run, actions) && i <= j <= |actions|
    requires id in run[i].tasks && run[i].tasks[id] == Entry(c)
    requires forall k :: i <= k < j ==> actions[k] != Cancel(id)
    requires id in run[j].tasks && Finished(run[j].tasks[id])
    ensures start < j && Starts(run, start, starter)
    ensures run[j].tasks[id] == EndOf(c, run[start].now, run[0].total)
  {
    StaysInCall(run, actions, i, j, id, c);
    TraceIsRun(run, actions);
    RunKeepsInv(run, j);
    assert TaskOk(run[j], id, run[j].tasks[id]);
    start, starter := BudgetStarts(run, j);
    WindowWrittenOnce(run, 0, j);
  }

  // ---------- a begin starts the budget ----------

  /** Nobody is woken before the start. */
  predicate Unwoken(t: Task) {
    t.WaitLock? || t.WaitHeld? || t.WaitBlocked? ==> !t.notified
  }

  lemma StepLeavesUnwoken(s: State, t: State, id: TaskId)
    requires Next(s, t) && Inv(s) && s.window.None? && t.window.None?
    requires id in t.tasks && (id in s.tasks ==> Unwoken(s.tasks[id]))
    ensures Unwoken(t.tasks[id])
  {
    var a :| Enabled(s, a) && t == Apply(s, a);
    if a.Advance? {
      assert TaskOk(s, a.id, s.tasks[a.id]);
      if a.id != id {
        OtherTasks(s, a.id, id);
        assert !t.announced;
      }
    }
  }

  lemma {:induction false} NobodyWoken(run: seq<State>, i: nat, id: TaskId)
    requires IsRun(run) && i < |run| && run[i].window.None? && id in run[i].tasks
    ensures Unwoken(run[i].tasks[id])
  {
    if i > 0 {
      var k := i - 1;
      assert Next(run[k], run[k + 1]);
      WindowWrittenOnce(run, k, i);
      RunKeepsInv(run, k);
      if id in run[k].tasks {
        NobodyWoken(run, k, id);
      }
      StepLeavesUnwoken(run[k], run[i], id);
    }
  }

  /** How many steps of its own a task can still take while the window is not set. */
  function Ahead(t: Task): (r: nat)
    ensures r <= 5
  {
    match t
    case BeginLock => 2
    case BeginHeld => 1
    case WaitTop(_) => 3
    case WaitLock(_, _) => 2
    case WaitHeld(_, _) => 1
    case PhaseLock(_) => 5
    case PhaseHeld(_) => 4
    case _ => 0
  }

  lemma StepBeforeStart(s: State, a: Action, id: TaskId)
    requires Inv(s) && Enabled(s, a) && s.window.None? && Apply(s, a).window.None?
    requires id in s.tasks && Unwoken(s.tasks[id])
    ensures var t := Apply(s, a);
      id in t.tasks && Ahead(t.tasks[id]) + (if a == Advance(id) then 1 else 0) <= Ahead(s.tasks[id]) <= 5
  {
    assert TaskOk(s, id, s.tasks[id]);
    if a == Advance(id) {
      OwnStepBeforeStart(s, id);
    } else if a.Advance? {
      OtherTasks(s, a.id, id);
    }
  }

  lemma OwnStepBeforeStart(s: State, id: TaskId)
    requires CanAdvance(s, id) && TaskOk(s, id, s.tasks[id]) && Unwoken(s.tasks[id])
    requires s.window.None? && Advanced(s, id).window.None?
    ensures id in Advanced(s, id).tasks && Ahead(Advanced(s, id).tasks[id]) < Ahead(s.tasks[id])
  {
    match s.tasks[id]
    case BeginLock | BeginHeld | BeginWrote(_) | BeginDropped(_) =>
    case WaitTop(_) | WaitLock(_, _) | WaitHeld(_, _) | WaitBlocked(_, _) =>
    case _ =>
  }

  lemma NoStartYet(run: seq<State>, actions: seq<Action>, k: nat)
    requires IsTrace(run, actions) && k < |actions| && run[k + 1].window.None?
    ensures run[k].window.None?
  {
    TraceIsRun(run, actions);
    WindowWrittenOnce(run, k, k + 1);
  }

  lemma CountBeforeStart(run: seq<State>, actions: seq<Action>, i: nat, k: nat, id: TaskId)
    requires IsTrace(run, actions) && i <= k < |actions| && run[k + 1].window.None? && id in run[i].tasks
    requires Lasts(run, actions, i, k, id)
    ensures Lasts(run, actions, i, k + 1, id)
  {
    TraceIsRun(run, actions);
    NoStartYet(run, actions, k);
    RunKeepsInv(run, k);
    NobodyWoken(run, k, id);
    OwnStepsExtended(actions, i, k + 1, id);
    StepBeforeStart(run[k], actions[k], id);
  }

  /** The steps the task has taken and those it can still take are within what it had at first. */
  ghost predicate Lasts(run: seq<State>, actions: seq<Action>, i: nat, j: nat, id: TaskId)
    requires IsTrace(run, actions) && i <= j <= |actions| && id in run[i].tasks
  {
    id in run[j].tasks && OwnSteps(actions[i..j], id) + Ahead(run[j].tasks[id]) <= Ahead(run[i].tasks[id])
  }

  lemma LastsAtFirst(run: seq<State>, actions: seq<Action>, i: nat, id: TaskId)
    requires IsTrace(run, actions) && i <= |actions| && id in run[i].tasks
    ensures Lasts(run, actions, i, i, id)
  {
    assert OwnSteps(actions[i..i], id) == 0;
  }

  /** Before the start, a task takes at most five steps of its own, however the tasks interleave. */
  lemma {:induction false} StepsBeforeStart(run: seq<State>, actions: seq<Action>, i: nat, j: nat, id: TaskId)
    requires IsTrace(run, actions) && i <= j <= |actions| && run[j].window.None? && id in run[i].tasks
    ensures Lasts(run, actions, i, j, id)
    decreases j
  {
    if i == j {
      LastsAtFirst(run, actions, i, id);
    } else {
      NoStartYet(run, actions, j - 1);
      StepsBeforeStart(run, actions, i, j - 1, id);
      CountBeforeStart(run, actions, i, j - 1, id);
    }
  }

  lemma {:induction false} AllBeforeStart(run: seq<State>, actions: seq<Action>, i: nat, j: nat, ids: set<TaskId>)
    requires IsTrace(run, actions) && i <= j <= |actions| && run[j].window.None? && ids <= run[i].tasks.Keys
    ensures StepsOf(actions[i..j], ids) <= 5 * |ids|
    decreases |ids|
  {
    if ids == {} {
      StepsOfNone(actions[i..j]);
    } else {
      var id :| id in ids;
      StepsBeforeStart(run, actions, i, j, id);
      StepsOfOneMore(actions[i..j], ids, id);
      AllBeforeStart(run, actions, i, j, ids - {id});
    }
  }

  /** While a call of `begin` is not through, some task can take a step. */
  lemma BeginIsNotStuck(run: seq<State>, i: nat, id: TaskId)
    requires IsRun(run) && i < |run| && id in run[i].tasks
    requires Doing(run[i].tasks[id], Begin) && !Finished(run[i].tasks[id])
    ensures exists k :: CanAdvance(run[i], k)
  {
    var s := run[i];
    RunKeepsInv(run, i);
    if s.holder.Some? {
      assert TaskOk(s, s.holder.value, s.tasks[s.holder.value]);
      assert CanAdvance(s, s.holder.value);
    } else {
      assert TaskOk(s, id, s.tasks[id]);
      assert CanAdvance(s, id);
    }
  }

  /** More than five steps for each of the tasks, with nothing but steps, and the budget has started. */
  lemma StartComes(run: seq<State>, actions: seq<Action>, i: nat, j: nat)
    requires IsTrace(run, actions) && i <= j <= |actions|
    requires forall k :: i <= k < j ==> actions[k].Advance?
    requires j - i > 5 * |run[i].tasks|
    ensures run[j].window.Some?
  {
    if run[j].window.None? {
      var ids := run[i].tasks.Keys;
      forall k | 0 <= k < j - i ensures actions[i..j][k].Advance? && actions[i..j][k].id in ids {
        AdvancingKeepsTasks(run, actions, i, i + k);
        assert Enabled(run[i + k], actions[i + k]);
      }
      StepsOfAll(actions[i..j], ids);
      AllBeforeStart(run, actions, i, j, ids);
    }
  }

  lemma OneMore(run: seq<State>, a: Action)
    requires IsRun(run) && Enabled(run[|run| - 1], a)
    ensures IsRun(run + [Apply(run[|run| - 1], a)])
  {
    var last, next := run[|run| - 1], Apply(run[|run| - 1], a);
    assert Next(last, next);
    var longer := run + [next];
    forall i | 0 <= i < |longer| - 1 ensures Next(longer[i], longer[i + 1]) {
      assert longer[i] == run[i] && (i + 1 < |run| ==> longer[i + 1] == run[i + 1]);
    }
  }

  /** Whatever has happened so far, a new call of `begin` can come, and the budget can start at any later instant. */
  lemma BeginCanStart(run: seq<State>, id: TaskId, elapsed: nat) returns (longer: seq<State>)
    requires IsRun(run) && id !in run[|run| - 1].tasks
    ensures IsRun(longer) && run <= longer
    ensures var s, t := run[|run| - 1], longer[|longer| - 1];
      t.window.Some? && (s.window.None? ==> t.window.value.startedAt == s.now + elapsed)
  {
    OneMore(run, Tick(elapsed));
    longer := run + [Apply(run[|run| - 1], Tick(elapsed))];
    longer := WithBegin(longer, id);
    longer := WithFreeLock(longer, id);
    if longer[|longer| - 1].window.None? {
      OneMore(longer, Advance(id));
      longer := longer + [Apply(longer[|longer| - 1], Advance(id))];
      OneMore(longer, Advance(id));
      longer := longer + [Apply(longer[|longer| - 1], Advance(id))];
    }
  }

  lemma WithBegin(run: seq<State>, id: TaskId) returns (longer: seq<State>)
    requires IsRun(run) && id !in run[|run| - 1].tasks
    ensures IsRun(longer) && run <= longer && id in longer[|longer| - 1].tasks
    ensures longer[|longer| - 1] == Put(run[|run| - 1], id, BeginLock)
  {
    OneMore(run, Spawn(id, BeginLock));
    longer := run + [Apply(run[|run| - 1], Spawn(id, BeginLock))];
  }

  /** One step of its holder frees the lock, unless that step starts the budget. */
  lemma WithFreeLock(run: seq<State>, id: TaskId) returns (longer: seq<State>)
    requires IsRun(run) && id in run[|run| - 1].tasks && run[|run| - 1].tasks[id] == BeginLock
    ensures IsRun(longer) && run <= longer
    ensures var s, t := run[|run| - 1], longer[|longer| - 1];
      && (t.window.None? ==> t.now == s.now && id in t.tasks && t.tasks[id] == BeginLock && t.holder == None)
      && (t.window.Some? && s.window.None? ==> t.window.value.startedAt == s.now)
  {
    var s := run[|run| - 1];
    longer := run;
    if s.window.None? && s.holder.Some? {
      RunKeepsInv(run, |run| - 1);
      var k := s.holder.value;
      assert TaskOk(s, k, s.tasks[k]) && TaskOk(s, id, s.tasks[id]);
      OneMore(run, Advance(k));
      OtherTasks(s, k, id);
      longer := run + [Apply(s, Advance(k))];
    }
  }
}
