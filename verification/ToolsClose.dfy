/**
 Closing the application's resources as a state machine: any number of concurrent `close` calls, each
 of which can be cancelled wherever it awaits, interleaved step by step.
 */
module ToolsClose {
  import opened Wrappers

  type CallId = nat

  datatype ToolsState = Running | Closing | Closed

  /** Where a call is. From Checking to Storing it holds the close lock. */
  datatype Call =
    | Locking
    | Checking
    | AtCache
    | InCache
    | AtMysql
    | InMysql
    | Storing
    | Returned
    | Cancelled

  /** A resource has been closed by a call. */
  datatype Event = CacheClosed(call: CallId) | MysqlClosed(call: CallId)

  datatype Tools = Tools(
    hasCache: bool,
    hasMysql: bool,
    state: ToolsState,
    holder: Option<CallId>,
    calls: map<CallId, Call>,
    log: seq<Event>,
    interrupted: nat
  )

  datatype Action = Start(id: CallId) | Advance(id: CallId) | Cancel(id: CallId)

  predicate Init(t: Tools) {
    t.state == Running && t.holder == None && t.calls == map[] && t.log == [] && t.interrupted == 0
  }

  /** `ensure_running` */
  predicate IsRunning(t: Tools) {
    t.state == Running
  }

  // ---------- steps ----------

  predicate HoldsLock(c: Call) {
    c.Checking? || c.AtCache? || c.InCache? || c.AtMysql? || c.InMysql? || c.Storing?
  }

  predicate CanAdvance(t: Tools, id: CallId) {
    && id in t.calls && !t.calls[id].Returned? && !t.calls[id].Cancelled?
    && (t.calls[id].Locking? ==> t.holder == None)
  }

  predicate AtAwait(c: Call) {
    c.Locking? || c.InCache? || c.InMysql?
  }

  function Put(t: Tools, id: CallId, c: Call): Tools {
    t.(calls := t.calls[id := c])
  }

  /** The next step of a call. */
  function Advanced(t: Tools, id: CallId): Tools
    requires CanAdvance(t, id)
  {
    match t.calls[id]
    case Locking => Put(t, id, Checking).(holder := Some(id))
    case Checking =>
      if t.state == Closed then Put(t, id, Returned).(holder := None)
      else Put(t, id, AtCache).(state := Closing)
    case AtCache => Put(t, id, if t.hasCache then InCache else AtMysql)
    case InCache => Put(t, id, AtMysql).(log := t.log + [CacheClosed(id)])
    case AtMysql => Put(t, id, if t.hasMysql then InMysql else Storing)
    case InMysql => Put(t, id, Storing).(log := t.log + [MysqlClosed(id)])
    case Storing => Put(t, id, Returned).(state := Closed, holder := None)
    case _ => t
  }

  predicate Enabled(t: Tools, a: Action) {
    match a
    case Start(id) => id !in t.calls
    case Advance(id) => CanAdvance(t, id)
    case Cancel(id) => id in t.calls && AtAwait(t.calls[id])
  }

  /** A cancelled call drops the lock if it has it; a resource it was closing counts as not closed. */
  function Apply(t: Tools, a: Action): Tools
    requires Enabled(t, a)
  {
    match a
    case Start(id) => Put(t, id, Locking)
    case Advance(id) => Advanced(t, id)
    case Cancel(id) =>
      if t.calls[id].Locking? then Put(t, id, Cancelled)
      else Put(t, id, Cancelled).(holder := None, interrupted := t.interrupted + 1)
  }

  // ---------- the invariant ----------

  function Caches(log: seq<Event>): nat {
    if log == [] then 0 else Caches(log[..|log| - 1]) + if log[|log| - 1].CacheClosed? then 1 else 0
  }

  function Mysqls(log: seq<Event>): nat {
    if log == [] then 0 else Mysqls(log[..|log| - 1]) + if log[|log| - 1].MysqlClosed? then 1 else 0
  }

  /** The call that holds the lock, if any. */
  function Current(t: Tools): Option<Call> {
    if t.holder.Some? && t.holder.value in t.calls then Some(t.calls[t.holder.value]) else None
  }

  predicate PastCache(c: Call) {
    c.AtMysql? || c.InMysql? || c.Storing?
  }

  /** MySQL is closed by a call right after that call closed the cache. */
  ghost predicate CacheFirst(t: Tools) {
    forall i :: 0 <= i < |t.log| && t.log[i].MysqlClosed? && t.hasCache ==>
      i > 0 && t.log[i - 1] == CacheClosed(t.log[i].call)
  }

  /** How far the current attempt has come: 1 if its cache (its MySQL) is closed, or an earlier one finished. */
  function CacheDone(t: Tools): nat {
    if t.state == Closed || (Current(t).Some? && PastCache(Current(t).value)) then 1 else 0
  }

  function MysqlDone(t: Tools): nat {
    if t.state == Closed || (Current(t).Some? && Current(t).value.Storing?) then 1 else 0
  }

  ghost predicate Counted(t: Tools) {
    && (t.hasCache ==> CacheDone(t) <= Caches(t.log) <= CacheDone(t) + t.interrupted)
    && (!t.hasCache ==> Caches(t.log) == 0)
    && Mysqls(t.log) == (if t.hasMysql then MysqlDone(t) else 0)
  }

  predicate CallOk(t: Tools, id: CallId, c: Call) {
    && (HoldsLock(c) <==> t.holder == Some(id))
    && (HoldsLock(c) && !c.Checking? ==> t.state == Closing)
    && (c.InCache? ==> t.hasCache) && (c.InMysql? ==> t.hasMysql)
    && (c.Returned? ==> t.state == Closed)
    && (t.hasCache && (c.AtMysql? || c.InMysql?) ==> |t.log| > 0 && t.log[|t.log| - 1] == CacheClosed(id))
  }

  ghost predicate Inv(t: Tools) {
    && (forall id :: id in t.calls ==> CallOk(t, id, t.calls[id]))
    && (t.holder.Some? ==> t.holder.value in t.calls)
    && Counted(t)
    && CacheFirst(t)
  }

  lemma AdvanceKeepsCalls(t: Tools, id: CallId, k: CallId)
    requires Inv(t) && CanAdvance(t, id) && k in Advanced(t, id).calls
    ensures CallOk(Advanced(t, id), k, Advanced(t, id).calls[k])
  {
    assert CallOk(t, id, t.calls[id]);
    assert CallOk(t, k, t.calls[k]);
  }

  /** How a step moves the two marks of the current attempt. */
  lemma MarksMove(t: Tools, id: CallId)
    requires Inv(t) && CanAdvance(t, id)
    ensures var u, c := Advanced(t, id), t.calls[id];
      && CacheDone(u) == CacheDone(t) + (if c.InCache? || (c.AtCache? && !t.hasCache) then 1 else 0)
      && MysqlDone(u) == MysqlDone(t) + (if c.InMysql? || (c.AtMysql? && !t.hasMysql) then 1 else 0)
  {
    assert CallOk(t, id, t.calls[id]);
  }

  lemma LogGrows(log: seq<Event>, e: Event)
    ensures Caches(log + [e]) == Caches(log) + (if e.CacheClosed? then 1 else 0)
    ensures Mysqls(log + [e]) == Mysqls(log) + (if e.MysqlClosed? then 1 else 0)
  {
    assert (log + [e])[..|log|] == log;
  }

  lemma LogMoves(t: Tools, id: CallId)
    requires CanAdvance(t, id)
    ensures var u, c := Advanced(t, id), t.calls[id];
      && Caches(u.log) == Caches(t.log) + (if c.InCache? then 1 else 0)
      && Mysqls(u.log) == Mysqls(t.log) + (if c.InMysql? then 1 else 0)
      && u.hasCache == t.hasCache && u.hasMysql == t.hasMysql && u.interrupted == t.interrupted
  {
    LogGrows(t.log, CacheClosed(id));
    LogGrows(t.log, MysqlClosed(id));
  }

  lemma AdvanceKeepsCounts(t: Tools, id: CallId)
    requires Inv(t) && CanAdvance(t, id)
    ensures Counted(Advanced(t, id))
  {
    assert CallOk(t, id, t.calls[id]);
    MarksMove(t, id);
    LogMoves(t, id);
  }

  lemma AdvanceKeepsOrder(t: Tools, id: CallId)
    requires Inv(t) && CanAdvance(t, id)
    ensures CacheFirst(Advanced(t, id))
  {
    assert CallOk(t, id, t.calls[id]);
    var u := Advanced(t, id);
    assert t.log <= u.log && |u.log| <= |t.log| + 1;
    assert |u.log| > |t.log| && u.log[|t.log|].MysqlClosed? ==> t.calls[id].InMysql?;
  }

  lemma StartKeepsInv(t: Tools, id: CallId)
    requires Inv(t) && id !in t.calls
    ensures Inv(Put(t, id, Locking))
  {
    var u := Put(t, id, Locking);
    forall k | k in u.calls ensures CallOk(u, k, u.calls[k]) {
      assert k != id ==> CallOk(t, k, t.calls[k]);
    }
  }

  lemma AdvanceKeepsInv(t: Tools, id: CallId)
    requires Inv(t) && CanAdvance(t, id)
    ensures Inv(Advanced(t, id))
  {
    var u := Advanced(t, id);
    forall k | k in u.calls ensures CallOk(u, k, u.calls[k]) {
      AdvanceKeepsCalls(t, id, k);
    }
    AdvanceKeepsCounts(t, id);
    AdvanceKeepsOrder(t, id);
    assert CallOk(t, id, t.calls[id]);
  }

  lemma CancelKeepsInv(t: Tools, id: CallId)
    requires Inv(t) && id in t.calls && AtAwait(t.calls[id])
    ensures Inv(Apply(t, Cancel(id)))
  {
    var u := Apply(t, Cancel(id));
    assert CallOk(t, id, t.calls[id]);
    forall k | k in u.calls ensures CallOk(u, k, u.calls[k]) {
      assert CallOk(t, k, t.calls[k]);
    }
  }

  lemma StepKeepsInv(t: Tools, a: Action)
    requires Inv(t) && Enabled(t, a)
    ensures Inv(Apply(t, a))
  {
    match a
    case Start(id) => StartKeepsInv(t, id);
    case Advance(id) => AdvanceKeepsInv(t, id);
    case Cancel(id) => CancelKeepsInv(t, id);
  }

  // ---------- runs ----------

  ghost predicate Next(t: Tools, u: Tools) {
    exists a :: Enabled(t, a) && u == Apply(t, a)
  }

  ghost predicate IsRun(run: seq<Tools>) {
    |run| > 0 && Init(run[0]) && forall i :: 0 <= i < |run| - 1 ==> Next(run[i], run[i + 1])
  }

  lemma {:induction false} RunKeepsInv(run: seq<Tools>, i: nat)
    requires IsRun(run) && i < |run|
    ensures Inv(run[i])
  {
    if i > 0 {
      RunKeepsInv(run, i - 1);
      assert Next(run[i - 1], run[i]);
      var a :| Enabled(run[i - 1], a) && run[i] == Apply(run[i - 1], a);
      StepKeepsInv(run[i - 1], a);
    }
  }

  function Phase(s: ToolsState): nat {
    match s
    case Running => 0
    case Closing => 1
    case Closed => 2
  }

  /** What can be said of a later state of the same tools. */
  predicate Later(t: Tools, u: Tools) {
    && Phase(t.state) <= Phase(u.state)
    && t.log <= u.log && t.interrupted <= u.interrupted
    && (t.state == Closed ==> u.log == t.log)
    && u.hasCache == t.hasCache && u.hasMysql == t.hasMysql
  }

  lemma AdvanceMovesForward(t: Tools, id: CallId)
    requires CanAdvance(t, id) && CallOk(t, id, t.calls[id])
    ensures Later(t, Advanced(t, id)) && Phase(Advanced(t, id).state) <= Phase(t.state) + 1
  {
  }

  lemma StepMovesForward(t: Tools, a: Action)
    requires Inv(t) && Enabled(t, a)
    ensures Later(t, Apply(t, a)) && Phase(Apply(t, a).state) <= Phase(t.state) + 1
  {
    if a.Advance? {
      AdvanceMovesForward(t, a.id);
    }
  }

  /** From one state of a run to the next the lifecycle moves by at most one phase: none is skipped. */
  lemma RunStep(run: seq<Tools>, i: nat)
    requires IsRun(run) && i + 1 < |run|
    ensures Later(run[i], run[i + 1])
    ensures Phase(run[i].state) <= Phase(run[i + 1].state) <= Phase(run[i].state) + 1
  {
    RunKeepsInv(run, i);
    assert Next(run[i], run[i + 1]);
    var a :| Enabled(run[i], a) && run[i + 1] == Apply(run[i], a);
    StepMovesForward(run[i], a);
  }

  lemma LaterStill(t: Tools, u: Tools, v: Tools)
    requires Later(t, u) && Later(u, v)
    ensures Later(t, v)
  {
  }

  /** The state only moves forward, and after Closed nothing is closed again. */
  lemma {:induction false} StateMovesForward(run: seq<Tools>, i: nat, j: nat)
    requires IsRun(run) && i <= j < |run|
    ensures Later(run[i], run[j])
    decreases j
  {
    if i < j {
      StateMovesForward(run, i, j - 1);
      RunStep(run, j - 1);
      LaterStill(run[i], run[j - 1], run[j]);
    }
  }

  /** When any call has returned, the tools are closed, and so is every configured resource. */
  lemma ReturnedMeansClosed(run: seq<Tools>, i: nat, id: CallId)
    requires IsRun(run) && i < |run| && id in run[i].calls && run[i].calls[id].Returned?
    ensures run[i].state == Closed && !IsRunning(run[i])
    ensures run[i].hasCache ==> Caches(run[i].log) >= 1
    ensures run[i].hasMysql ==> Mysqls(run[i].log) == 1
  {
    RunKeepsInv(run, i);
    assert CallOk(run[i], id, run[i].calls[id]);
  }

  /**
   Whatever is cancelled, MySQL is closed at most once, and the cache at most once more than calls were
   interrupted.
   */
  lemma ClosedAtMostOnce(run: seq<Tools>, i: nat)
    requires IsRun(run) && i < |run|
    ensures Mysqls(run[i].log) <= 1 && Caches(run[i].log) <= 1 + run[i].interrupted
    ensures CacheFirst(run[i])
  {
    RunKeepsInv(run, i);
  }

  /** Without interruptions the log of a closed system is the cache, then MySQL, each once, by one call. */
  lemma ClosedExactlyOnce(run: seq<Tools>, i: nat)
    requires IsRun(run) && i < |run| && run[i].interrupted == 0 && run[i].state == Closed
    ensures Caches(run[i].log) == (if run[i].hasCache then 1 else 0)
    ensures Mysqls(run[i].log) == (if run[i].hasMysql then 1 else 0)
    ensures run[i].hasCache && run[i].hasMysql ==>
      exists id :: run[i].log == [CacheClosed(id), MysqlClosed(id)]
  {
    RunKeepsInv(run, i);
    var log := run[i].log;
    LogLength(log);
    if run[i].hasCache && run[i].hasMysql {
      assert |log| == 2;
      TwoEvents(log);
      assert log[1].MysqlClosed?;
      assert log == [CacheClosed(log[1].call), MysqlClosed(log[1].call)];
    }
  }

  lemma {:induction false} LogLength(log: seq<Event>)
    ensures |log| == Caches(log) + Mysqls(log)
  {
    if log != [] {
      LogLength(log[..|log| - 1]);
    }
  }

  lemma TwoEvents(log: seq<Event>)
    requires |log| == 2
    ensures Mysqls(log) == (if log[0].MysqlClosed? then 1 else 0) + (if log[1].MysqlClosed? then 1 else 0)
  {
    assert log[..1][..0] == [];
    assert Mysqls(log[..1]) == Mysqls([]) + if log[0].MysqlClosed? then 1 else 0;
  }

  /** While a call is unfinished, some call can take a step: the lock is never lost. */
  lemma NoDeadlock(run: seq<Tools>, i: nat, id: CallId)
    requires IsRun(run) && i < |run| && id in run[i].calls
    requires !run[i].calls[id].Returned? && !run[i].calls[id].Cancelled?
    ensures exists k :: CanAdvance(run[i], k)
  {
    var t := run[i];
    RunKeepsInv(run, i);
    if t.holder.Some? {
      assert CallOk(t, t.holder.value, t.calls[t.holder.value]);
      assert CanAdvance(t, t.holder.value);
    } else {
      assert CanAdvance(t, id);
    }
  }

  // ---------- every call comes to an end ----------

  /** How many steps of its own a call can still take. */
  function Remaining(c: Call): nat {
    match c
    case Locking => 7
    case Checking => 6
    case AtCache => 5
    case InCache => 4
    case AtMysql => 3
    case InMysql => 2
    case Storing => 1
    case Returned => 0
    case Cancelled => 0
  }

  lemma OwnStepMovesOn(t: Tools, id: CallId)
    requires CanAdvance(t, id)
    ensures var u := Advanced(t, id);
      id in u.calls && Remaining(u.calls[id]) < Remaining(t.calls[id]) && !u.calls[id].Cancelled?
  {
  }

  lemma OthersStay(t: Tools, id: CallId, k: CallId)
    requires CanAdvance(t, id) && k in t.calls && k != id
    ensures k in Advanced(t, id).calls && Advanced(t, id).calls[k] == t.calls[k]
  {
  }

  /** Steps of others leave a call where it is; its own take it on, and it is dropped only where it awaits. */
  lemma StepMovesOn(t: Tools, a: Action, id: CallId)
    requires Enabled(t, a) && id in t.calls
    ensures var u := Apply(t, a);
      && id in u.calls
      && (a == Advance(id) ==> Remaining(u.calls[id]) < Remaining(t.calls[id]) && !u.calls[id].Cancelled?)
      && (a == Cancel(id) ==> u.calls[id].Cancelled? && AtAwait(t.calls[id]))
      && (a != Advance(id) && a != Cancel(id) ==> u.calls[id] == t.calls[id])
  {
    if a.Advance? {
      if a.id == id {
        OwnStepMovesOn(t, id);
      } else {
        OthersStay(t, a.id, id);
      }
    }
  }

  /**
   A call takes at most seven steps, and never comes back to where it was: whenever it is found somewhere
   else, it has fewer steps left.
   */
  lemma {:induction false} CallMovesOn(run: seq<Tools>, i: nat, j: nat, id: CallId)
    requires IsRun(run) && i <= j < |run| && id in run[i].calls
    ensures id in run[j].calls && Remaining(run[j].calls[id]) <= Remaining(run[i].calls[id]) <= 7
    ensures run[j].calls[id] == run[i].calls[id] || Remaining(run[j].calls[id]) < Remaining(run[i].calls[id])
    decreases j
  {
    if i < j {
      CallMovesOn(run, i, j - 1, id);
      assert Next(run[j - 1], run[j]);
      var a :| Enabled(run[j - 1], a) && run[j] == Apply(run[j - 1], a);
      StepMovesOn(run[j - 1], a, id);
    }
  }

  /** When no call can take a step, each has returned, with everything closed, or was dropped. */
  lemma QuietMeansReturned(run: seq<Tools>, i: nat)
    requires IsRun(run) && i < |run| && forall k :: !CanAdvance(run[i], k)
    ensures forall id :: id in run[i].calls ==> run[i].calls[id].Returned? || run[i].calls[id].Cancelled?
    ensures (exists id :: id in run[i].calls && run[i].calls[id].Returned?) ==> run[i].state == Closed
  {
    forall id | id in run[i].calls ensures run[i].calls[id].Returned? || run[i].calls[id].Cancelled? {
      if !run[i].calls[id].Returned? && !run[i].calls[id].Cancelled? {
        NoDeadlock(run, i, id);
      }
    }
    if exists id :: id in run[i].calls && run[i].calls[id].Returned? {
      var id :| id in run[i].calls && run[i].calls[id].Returned?;
      ReturnedMeansClosed(run, i, id);
    }
  }

  // ---------- closing is always possible ----------

  function LastOf(run: seq<Tools>): Tools
    requires run != []
  {
    run[|run| - 1]
  }

  lemma OneMore(run: seq<Tools>, a: Action) returns (longer: seq<Tools>)
    requires IsRun(run) && Enabled(LastOf(run), a)
    ensures IsRun(longer) && run <= longer && LastOf(longer) == Apply(LastOf(run), a)
  {
    var next := Apply(LastOf(run), a);
    assert Next(LastOf(run), next);
    longer := run + [next];
    forall i | 0 <= i < |longer| - 1 ensures Next(longer[i], longer[i + 1]) {
      assert longer[i] == run[i] && (i + 1 < |run| ==> longer[i + 1] == run[i + 1]);
    }
  }

  /** The call that has the lock, or finds it free, runs to its end. */
  lemma {:induction false} RunToEnd(run: seq<Tools>, id: CallId) returns (longer: seq<Tools>)
    requires IsRun(run) && id in LastOf(run).calls && !LastOf(run).calls[id].Cancelled?
    requires LastOf(run).calls[id].Locking? ==> LastOf(run).holder == None
    ensures IsRun(longer) && run <= longer && id in LastOf(longer).calls && LastOf(longer).calls[id].Returned?
    decreases Remaining(LastOf(run).calls[id])
  {
    if LastOf(run).calls[id].Returned? {
      longer := run;
    } else {
      var next := OneMore(run, Advance(id));
      StepMovesOn(LastOf(run), Advance(id), id);
      longer := RunToEnd(next, id);
    }
  }

  /** Whatever has happened so far, a new call of `close` can come, return and leave everything closed. */
  lemma CloseCanFinish(run: seq<Tools>, id: CallId) returns (longer: seq<Tools>)
    requires IsRun(run) && id !in LastOf(run).calls
    ensures IsRun(longer) && run <= longer && LastOf(longer).state == Closed
  {
    longer := run;
    RunKeepsInv(run, |run| - 1);
    if LastOf(run).holder.Some? {
      var other := LastOf(run).holder.value;
      assert CallOk(LastOf(run), other, LastOf(run).calls[other]);
      longer := RunToEnd(run, other);
      ReturnedMeansClosed(longer, |longer| - 1, other);
    } else {
      longer := OneMore(run, Start(id));
      longer := RunToEnd(longer, id);
      ReturnedMeansClosed(longer, |longer| - 1, id);
    }
  }
}
