/** The launch protocol of scripts/seged-hivo.py: any number of callers share one append-only log and one kernel lock,
    their steps interleave, and any of them may be killed between two steps.

    A process is one call: its number is the id its rows carry. The daily limits are checked under the lock against the
    log; the row is stamped under the lock just before. Time is a day that never goes back. */
module HelperQuota {
  import opened HelperLog
  import opened Options

  /** How far a process has come. From Holding to Running it holds the lock; Leaving it may. */
  datatype Phase =
    | Asking | Waiting | Holding | Stamped | Admitted | Cleared | Numbered(ab: bool) | Running(ab: bool)
    | Leaving(held: bool) | Gone

  /** `stamp` is the day of the row, `checked` the day the quota check read. */
  datatype Proc = Proc(caller: string, engine: string, phase: Phase, begun: int, stamp: Option<int>,
                       checked: Option<int>)

  datatype World = World(day: int, log: seq<Row>, lock: Option<nat>, procs: map<nat, Proc>)

  datatype Action =
    | Begin(p: nat, caller: string, engine: string)
    | StopSeen(p: nat)                      // the STOP flag is up: a blocked row, nothing sent
    | NoStop(p: nat)
    | Acquire(p: nat)
    | GiveUp(p: nat)                        // the lock stayed taken until the deadline: a blocked row
    | Stamp(p: nat)
    | CheckQuota(p: nat)
    | Gate(p: nat, clean: bool)
    | Number(p: nat)
    | Launch(p: nat)                        // the started row, then the helper runs
    | Finish(p: nat, status: Status)        // the helper is over (or crashed): the final row
    | Exit(p: nat)
    | Kill(p: nat)
    | Rate(score: int, call: nat)
    | NextDay

  predicate Holds(f: Phase) {
    f.Holding? || f.Stamped? || f.Admitted? || f.Cleared? || f.Numbered? || f.Running? || f == Leaving(true)
  }

  /** The process has written no row yet. */
  predicate Unlogged(f: Phase) {
    f.Asking? || f.Waiting? || f.Holding? || f.Stamped? || f.Admitted? || f.Cleared? || f.Numbered?
  }

  predicate In(w: World, p: nat, f: Phase) { p in w.procs && w.procs[p].phase == f }

  predicate Enabled(w: World, a: Action) {
    match a
    case Begin(p, _, _) => p !in w.procs
    case StopSeen(p) => In(w, p, Asking)
    case NoStop(p) => In(w, p, Asking)
    case Acquire(p) => In(w, p, Waiting) && w.lock == None
    case GiveUp(p) => In(w, p, Waiting) && w.lock != None
    case Stamp(p) => In(w, p, Holding)
    case CheckQuota(p) => In(w, p, Stamped)
    case Gate(p, _) => In(w, p, Admitted)
    case Number(p) => In(w, p, Cleared)
    case Launch(p) => p in w.procs && w.procs[p].phase.Numbered?
    case Finish(p, status) =>
      p in w.procs && w.procs[p].phase.Running? && (status == Ok || status == Error || status == Timeout)
    case Exit(p) => p in w.procs && w.procs[p].phase.Leaving?
    case Kill(p) => p in w.procs && w.procs[p].phase != Gone
    case Rate(_, _) => true
    case NextDay => true
  }

  function To(w: World, p: nat, f: Phase): World
    requires p in w.procs
  {
    w.(procs := w.procs[p := w.procs[p].(phase := f)])
  }

  function RowOf(w: World, p: nat, status: Status, ab: bool): Row
    requires p in w.procs
  {
    var q := w.procs[p];
    Call(p, if q.stamp.Some? then q.stamp.value else q.begun, q.caller, q.engine, status, ab)
  }

  /** A blocked row is written and the process is on its way out. */
  function Block(w: World, p: nat): World
    requires p in w.procs
  {
    To(w.(log := w.log + [RowOf(w, p, Blocked, false)]), p, Leaving(Holds(w.procs[p].phase)))
  }

  /** The kernel drops the lock with the process. */
  function Drop(w: World, p: nat): World
    requires p in w.procs
  {
    To(w, p, Gone).(lock := if w.lock == Some(p) then None else w.lock)
  }

  function Do(w: World, a: Action, lim: Limits): World
    requires Enabled(w, a)
  {
    match a
    case Begin(p, caller, engine) => w.(procs := w.procs[p := Proc(caller, engine, Asking, w.day, None, None)])
    case StopSeen(p) => Block(w, p)
    case NoStop(p) => To(w, p, Waiting)
    case Acquire(p) => To(w, p, Holding).(lock := Some(p))
    case GiveUp(p) => Block(w, p)
    case Stamp(p) => w.(procs := w.procs[p := w.procs[p].(phase := Stamped, stamp := Some(w.day))])
    case CheckQuota(p) =>
      if QuotaProblem(w.log, w.day, w.procs[p].caller, w.procs[p].engine, lim).Some? then Block(w, p)
      else w.(procs := w.procs[p := w.procs[p].(phase := Admitted, checked := Some(w.day))])
    case Gate(p, clean) => if clean then To(w, p, Cleared) else Block(w, p)
    case Number(p) => To(w, p, Numbered(Fifth(|SentCalls(w.log)| + 1)))
    case Launch(p) =>
      var ab := w.procs[p].phase.ab;
      To(w.(log := w.log + [RowOf(w, p, Started, ab)]), p, Running(ab))
    case Finish(p, status) =>
      To(w.(log := w.log + [RowOf(w, p, status, w.procs[p].phase.ab)]), p, Leaving(true))
    case Exit(p) => Drop(w, p)
    case Kill(p) => Drop(w, p)
    case Rate(score, call) => w.(log := w.log + [Rating(call, score)])
    case NextDay => w.(day := w.day + 1)
  }

  function Init(day: int): World { World(day, [], None, map[]) }

  /** The world after a run, if every step of it was enabled. */
  function After(day: int, run: seq<Action>, lim: Limits): Option<World> {
    if run == [] then Some(Init(day))
    else
      var w, a := After(day, run[..|run| - 1], lim), run[|run| - 1];
      if w.Some? && Enabled(w.value, a) then Some(Do(w.value, a, lim)) else None
  }

  // ---- the invariant ----

  ghost predicate LockInv(w: World) {
    && (forall p :: p in w.procs && Holds(w.procs[p].phase) ==> w.lock == Some(p))
    && (w.lock.Some? ==> w.lock.value in w.procs && Holds(w.procs[w.lock.value].phase))
  }

  /** The row of a logged call says what its process says; a call that went out has been stamped and checked. */
  ghost predicate RowAgrees(w: World, r: Row) {
    && r.Call? && r.id in w.procs && !Unlogged(w.procs[r.id].phase)
    && r.caller == w.procs[r.id].caller && r.engine == w.procs[r.id].engine
    && (r.status != Blocked ==> Some(r.day) == w.procs[r.id].stamp && w.procs[r.id].checked.Some?)
  }

  ghost predicate LogInv(w: World) {
    && (forall p :: p in LastRows(w.log) ==> RowAgrees(w, LastRows(w.log)[p]))
    && (forall p :: p in w.procs && w.procs[p].phase.Running? ==> p in SentCalls(w.log))
  }

  ghost predicate DaysAgree(q: Proc, day: int) {
    && (q.stamp.Some? ==> q.stamp.value <= day)
    && (q.checked.Some? ==> q.stamp.Some? && q.stamp.value <= q.checked.value <= day)
    && (q.phase.Stamped? ==> q.stamp.Some? && q.checked == None)
    && (q.phase.Admitted? || q.phase.Cleared? || q.phase.Numbered? || q.phase.Running? ==> q.checked.Some?)
    && (q.phase.Asking? || q.phase.Waiting? || q.phase.Holding? ==> q.stamp == None && q.checked == None)
  }

  ghost predicate DayInv(w: World) {
    forall p :: p in w.procs ==> DaysAgree(w.procs[p], w.day)
  }

  /** The quota check of this call read another day than its row is stamped with: midnight came in between. */
  predicate Late(w: World, p: nat) {
    p in w.procs && w.procs[p].checked.Some? && w.procs[p].checked != w.procs[p].stamp
  }

  /** Two calls of the same day, stamped. */
  ghost predicate SameDay(w: World, p: nat, q: nat) {
    p in w.procs && q in w.procs && w.procs[p].stamp.Some? && w.procs[p].stamp == w.procs[q].stamp
  }

  /** Of the calls of one day at most one is late: it held the lock over midnight. */
  ghost predicate LateInv(w: World) {
    && (forall p, q :: Late(w, p) && Late(w, q) && SameDay(w, p, q) ==> p == q)
    && (forall p, q :: In(w, p, Stamped) && Late(w, q) ==> !SameDay(w, p, q))
  }

  function OnTime(w: World, s: set<nat>): set<nat> { set p | p in s && !Late(w, p) }

  predicate Allowed(f: Phase) { f.Admitted? || f.Cleared? || f.Numbered? }

  ghost predicate HasRoom(w: World, q: Proc, lim: Limits) {
    && q.checked.Some?
    && |SentBy(w.log, q.caller, q.checked.value)| < lim.perCaller
    && |SentTo(w.log, q.engine, q.checked.value)| < EngineLimit(lim, q.engine)
  }

  /** Leaving out the late one, no day is over a limit; a call let through still has room on the day checked. */
  ghost predicate QuotaInv(w: World, lim: Limits) {
    && (forall c, d :: |OnTime(w, SentBy(w.log, c, d))| <= lim.perCaller)
    && (forall e, d :: |OnTime(w, SentTo(w.log, e, d))| <= EngineLimit(lim, e))
    && (forall p :: p in w.procs && Allowed(w.procs[p].phase) ==> HasRoom(w, w.procs[p], lim))
  }

  predicate Fifth(n: nat) { n % AB_EVERY == 0 }

  /** The launches are numbered without gap or repeat, and exactly each fifth is marked. */
  ghost predicate EachFifthMarked(log: seq<Row>) {
    && |Launches(log)| == |SentCalls(log)|
    && (forall k :: 0 <= k < |Launches(log)| ==> Launches(log)[k].Call? && Launches(log)[k].ab == Fifth(k + 1))
  }

  ghost predicate NumberInv(w: World) {
    && EachFifthMarked(w.log)
    && (forall p :: p in w.procs && w.procs[p].phase.Numbered? ==>
         w.procs[p].phase.ab == Fifth(|Launches(w.log)| + 1))
  }

  ghost predicate Inv(w: World, lim: Limits) {
    LockInv(w) && LogInv(w) && DayInv(w) && LateInv(w) && QuotaInv(w, lim) && NumberInv(w)
  }

  // ---- every step keeps it ----

  /** Nothing but a launch changes what the log counts. */
  lemma StepCounts(w: World, a: Action, lim: Limits)
    requires Enabled(w, a) && LogInv(w) && !a.Launch?
    ensures SameCounts(w.log, Do(w, a, lim).log)
  {
    hide LastRows, Launches, SentCalls, SentBy, SentTo, QuotaProblem;
    var w' := Do(w, a, lim);
    if w'.log != w.log {
      if a.Finish? {
        assert RowAgrees(w, LastRows(w.log)[a.p]) by { InSent(w.log, a.p); }
        InSent(w.log, a.p);
        IdleRow(w.log, RowOf(w, a.p, a.status, w.procs[a.p].phase.ab));
      } else if a.Rate? {
        IdleRow(w.log, Rating(a.call, a.score));
      } else {
        assert a.p !in LastRows(w.log);
        IdleRow(w.log, RowOf(w, a.p, Blocked, false));
      }
    }
  }

  lemma InSent(log: seq<Row>, p: nat)
    requires p in SentCalls(log)
    ensures p in LastRows(log) && LastRows(log)[p].status != Blocked
  {}

  lemma LockStep(w: World, a: Action, lim: Limits)
    requires Enabled(w, a) && LockInv(w)
    ensures LockInv(Do(w, a, lim))
  {
    hide Fifth, QuotaProblem, SentCalls, RowOf;
  }

  lemma DayStep(w: World, a: Action, lim: Limits)
    requires Enabled(w, a) && DayInv(w)
    ensures DayInv(Do(w, a, lim))
  {
    hide Fifth, QuotaProblem, SentCalls, RowOf;
  }

  /** A call becomes late only by its quota check; only the lock's holder is stamped and not yet checked. */
  lemma LateFacts(w: World, a: Action, lim: Limits)
    requires Enabled(w, a) && LockInv(w) && DayInv(w)
    ensures forall p :: Late(Do(w, a, lim), p) ==> Late(w, p) || (In(w, p, Stamped) && a == CheckQuota(p))
    ensures forall p :: In(Do(w, a, lim), p, Stamped) ==> a != CheckQuota(p) && (In(w, p, Stamped) || a == Stamp(p))
    ensures forall p :: Late(w, p) ==> a != Stamp(p)
    ensures forall p, q :: In(w, p, Stamped) && In(w, q, Stamped) ==> p == q
  {
    hide Fifth, QuotaProblem, SentCalls, RowOf;
    assert forall p :: In(w, p, Stamped) ==> Holds(w.procs[p].phase);
  }

  /** Only its own stamping gives a call a stamp, and it is the day it happens on. */
  lemma StampFacts(w: World, a: Action, lim: Limits)
    requires Enabled(w, a)
    ensures forall p :: p in Do(w, a, lim).procs && Do(w, a, lim).procs[p].stamp.Some? && a != Stamp(p)
              ==> p in w.procs && w.procs[p].stamp == Do(w, a, lim).procs[p].stamp
    ensures a.Stamp? ==> Do(w, a, lim).procs[a.p].stamp == Some(w.day)
  {
    hide Fifth, QuotaProblem, SentCalls, RowOf;
  }

  /** A late call was stamped on a day before this one. */
  lemma LateBefore(w: World, q: nat)
    requires DayInv(w) && Late(w, q)
    ensures w.procs[q].stamp.Some? && w.procs[q].stamp.value < w.day
  {
    assert DaysAgree(w.procs[q], w.day);
  }

  /** A call stamped now shares its day with no late call. */
  lemma SameDayFacts(w: World, a: Action, lim: Limits)
    requires Enabled(w, a) && DayInv(w)
    ensures forall p, q :: SameDay(Do(w, a, lim), p, q) && a != Stamp(p) && a != Stamp(q)
              ==> SameDay(w, p, q) && SameDay(w, q, p)
    ensures forall p, q :: a == Stamp(p) && Late(w, q) ==> !SameDay(Do(w, a, lim), p, q)
  {
    StampFacts(w, a, lim);
    forall p, q | a == Stamp(p) && Late(w, q) ensures !SameDay(Do(w, a, lim), p, q) {
      LateBefore(w, q);
      hide DayInv;
    }
    hide Do, Enabled, DayInv, Late;
  }

  lemma LateStep(w: World, a: Action, lim: Limits)
    requires Enabled(w, a) && LockInv(w) && DayInv(w) && LateInv(w)
    ensures LateInv(Do(w, a, lim))
  {
    LateFacts(w, a, lim);
    SameDayFacts(w, a, lim);
    hide Do, Enabled, LockInv, DayInv, Late, In, SameDay;
  }

  /** What a step does to a process that has written its row: nothing that the row records. */
  ghost predicate Kept(w: World, w': World, p: nat) {
    p in w.procs && p in w'.procs
    && w'.procs[p].caller == w.procs[p].caller && w'.procs[p].engine == w.procs[p].engine
    && w'.procs[p].stamp == w.procs[p].stamp && w'.procs[p].checked == w.procs[p].checked
  }

  lemma StepKeeps(w: World, a: Action, lim: Limits)
    requires Enabled(w, a) && DayInv(w)
    ensures forall p :: p in w.procs && !Unlogged(w.procs[p].phase)
              ==> Kept(w, Do(w, a, lim), p) && !Unlogged(Do(w, a, lim).procs[p].phase)
  {
    hide Fifth, QuotaProblem, SentCalls, RowOf;
  }

  /** A step writes at most one row, and the row says what its process says. */
  lemma RowWritten(w: World, a: Action, lim: Limits) returns (r: Row)
    requires Enabled(w, a) && LogInv(w) && DayInv(w)
    ensures Do(w, a, lim).log == w.log || Do(w, a, lim).log == w.log + [r]
    ensures Do(w, a, lim).log != w.log && r.Call? ==> RowAgrees(Do(w, a, lim), r)
    ensures a.Launch? ==> Do(w, a, lim).log == w.log + [r] && r.Call? && r.id == a.p && r.status == Started
  {
    hide Fifth, QuotaProblem, Launches, SentBy, SentTo, LastRows, SentCalls;
    r := Rating(0, 0);
    if Do(w, a, lim).log != w.log {
      r := Do(w, a, lim).log[|w.log|];
      if !a.Rate? {
        assert DaysAgree(w.procs[a.p], w.day);
      }
    }
  }

  lemma RunningFacts(w: World, a: Action, lim: Limits)
    requires Enabled(w, a)
    ensures forall p :: p in Do(w, a, lim).procs && Do(w, a, lim).procs[p].phase.Running?
              ==> a == Launch(p) || (p in w.procs && w.procs[p].phase.Running?)
    ensures a.Launch? ==> a.p in w.procs && Unlogged(w.procs[a.p].phase)
  {
    hide Fifth, QuotaProblem, SentCalls, RowOf;
  }

  lemma RowStillAgrees(w: World, a: Action, lim: Limits, r: Row)
    requires Enabled(w, a) && DayInv(w) && RowAgrees(w, r)
    ensures RowAgrees(Do(w, a, lim), r)
  {
    StepKeeps(w, a, lim);
    hide Do, Enabled, DayInv, Unlogged;
    assert Kept(w, Do(w, a, lim), r.id);
  }

  lemma RowsStep(w: World, a: Action, lim: Limits)
    requires Enabled(w, a) && LogInv(w) && DayInv(w)
    ensures forall p :: p in LastRows(Do(w, a, lim).log) ==> RowAgrees(Do(w, a, lim), LastRows(Do(w, a, lim).log)[p])
  {
    var w' := Do(w, a, lim);
    var r := RowWritten(w, a, lim);
    hide Do, Enabled, DayInv, Launches, SentCalls, RowAgrees, LastRows;
    LastRowsAppend(w.log, r);
    forall p | p in LastRows(w'.log) ensures RowAgrees(w', LastRows(w'.log)[p]) {
      if w'.log == w.log || LastRows(w'.log)[p] != r {
        RowStillAgrees(w, a, lim, LastRows(w.log)[p]);
      }
    }
  }

  lemma RunningStep(w: World, a: Action, lim: Limits)
    requires Enabled(w, a) && LogInv(w) && DayInv(w)
    ensures forall p :: p in Do(w, a, lim).procs && Do(w, a, lim).procs[p].phase.Running?
              ==> p in SentCalls(Do(w, a, lim).log)
  {
    RunningFacts(w, a, lim);
    if a.Launch? {
      var r := RowWritten(w, a, lim);
      NotLogged(w, a.p);
      hide Do, Enabled, DayInv, Launches, SentBy, SentTo, LastRows, SentCalls, Unlogged, RowAgrees;
      LaunchRow(w.log, r, "", 0);
    } else {
      StepCounts(w, a, lim);
      hide Do, Enabled, DayInv, SentCalls, RowAgrees;
    }
  }

  lemma LogStep(w: World, a: Action, lim: Limits)
    requires Enabled(w, a) && LogInv(w) && DayInv(w)
    ensures LogInv(Do(w, a, lim))
  {
    RowsStep(w, a, lim);
    RunningStep(w, a, lim);
    hide Do, Enabled, DayInv, SentCalls, LastRows, RowAgrees;
  }

  lemma NotLogged(w: World, p: nat)
    requires LogInv(w) && p in w.procs && Unlogged(w.procs[p].phase)
    ensures p !in LastRows(w.log)
  {}

  /** A logged call is late after a step exactly if it was before. */
  lemma OnTimeKept(w: World, a: Action, lim: Limits, s: set<nat>)
    requires Enabled(w, a) && LogInv(w) && DayInv(w) && s <= SentCalls(w.log)
    ensures OnTime(Do(w, a, lim), s) == OnTime(w, s)
  {
    StepKeeps(w, a, lim);
    hide Do, Enabled, DayInv, SentBy, SentTo, Launches;
    forall p | p in s ensures Late(Do(w, a, lim), p) == Late(w, p) {
      InSent(w.log, p);
      assert RowAgrees(w, LastRows(w.log)[p]);
    }
  }

  lemma AllowedFacts(w: World, a: Action, lim: Limits, p: nat)
    requires Enabled(w, a) && LockInv(w) && DayInv(w)
    requires p in Do(w, a, lim).procs && Allowed(Do(w, a, lim).procs[p].phase)
    ensures p in w.procs && !a.Launch?
    ensures var q, q' := w.procs[p], Do(w, a, lim).procs[p];
            q'.caller == q.caller && q'.engine == q.engine
            && if a == CheckQuota(p)
               then QuotaProblem(w.log, w.day, q.caller, q.engine, lim) == None && q'.checked == Some(w.day)
               else Allowed(q.phase) && q'.checked == q.checked
  {
    hide Fifth, QuotaProblem, SentCalls, RowOf;
    assert a.Launch? ==> Holds(w.procs[a.p].phase);
    assert p in w.procs && Allowed(w.procs[p].phase) ==> Holds(w.procs[p].phase);
  }

  lemma QuotaStep(w: World, a: Action, lim: Limits)
    requires Enabled(w, a) && Inv(w, lim) && !a.Launch?
    ensures QuotaInv(Do(w, a, lim), lim)
  {
    hide Do, Enabled, OnTime, SentBy, SentTo, LockInv, LogInv, DayInv, LateInv, NumberInv;
    var w' := Do(w, a, lim);
    StepCounts(w, a, lim);
    forall x, d
      ensures |OnTime(w', SentBy(w'.log, x, d))| <= lim.perCaller
      ensures |OnTime(w', SentTo(w'.log, x, d))| <= EngineLimit(lim, x)
    {
      SentIn(w.log, x, d);
      OnTimeKept(w, a, lim, SentBy(w.log, x, d));
      OnTimeKept(w, a, lim, SentTo(w.log, x, d));
    }
    forall p | p in w'.procs && Allowed(w'.procs[p].phase) ensures HasRoom(w', w'.procs[p], lim) {
      AllowedFacts(w, a, lim, p);
      assert a != CheckQuota(p) ==> HasRoom(w, w.procs[p], lim);
    }
  }

  lemma SentIn(log: seq<Row>, x: string, d: int)
    ensures SentBy(log, x, d) <= SentCalls(log) && SentTo(log, x, d) <= SentCalls(log)
  {}

  /** What a launch finds: it is the only call under way, its row is new, and it was checked against this log. */
  lemma LaunchFacts(w: World, a: Action, lim: Limits)
    requires Enabled(w, a) && Inv(w, lim) && a.Launch?
    ensures var q, r, w' := w.procs[a.p], RowOf(w, a.p, Started, w.procs[a.p].phase.ab), Do(w, a, lim);
            w'.log == w.log + [r] && r.id == a.p && r.status == Started && r.id !in LastRows(w.log)
            && q.stamp == Some(r.day) && HasRoom(w, q, lim) && r.caller == q.caller && r.engine == q.engine
            && (Late(w', a.p) <==> q.checked != q.stamp)
            && (forall p :: p in w'.procs ==> !Allowed(w'.procs[p].phase))
            && r.ab == Fifth(|Launches(w.log)| + 1)
  {
    hide Fifth, QuotaProblem, SentCalls, SentBy, SentTo, LastRows, Launches, LateInv, OnTime;
    assert DaysAgree(w.procs[a.p], w.day);
    forall p | p in Do(w, a, lim).procs ensures !Allowed(Do(w, a, lim).procs[p].phase) {
      assert Holds(w.procs[a.p].phase) && (Holds(w.procs[p].phase) ==> p == a.p);
    }
  }

  lemma OnTimeLaunch(w: World, a: Action, lim: Limits, s: set<nat>, b: bool, limit: nat)
    requires Enabled(w, a) && Inv(w, lim) && a.Launch? && s <= SentCalls(w.log) && |OnTime(w, s)| <= limit
    requires b && !Late(Do(w, a, lim), a.p) ==> |s| < limit
    ensures |OnTime(Do(w, a, lim), s + If(b, a.p))| <= limit
  {
    hide Do, Enabled, LockInv, LateInv, NumberInv, QuotaInv, SentCalls, SentBy, SentTo, Launches, LastRows;
    var w' := Do(w, a, lim);
    OnTimeKept(w, a, lim, s);
    if b && !Late(w', a.p) {
      SubsetCount(OnTime(w', s + If(b, a.p)), s + {a.p});
      SubsetCount(s, s);
      assert |s + {a.p}| <= |s| + 1;
    } else {
      assert OnTime(w', s + If(b, a.p)) == OnTime(w', s);
    }
  }

  lemma {:induction false} SubsetCount(a: set<nat>, b: set<nat>)
    requires a <= b
    ensures |a| <= |b|
  {
    if a != {} {
      var x :| x in a;
      SubsetCount(a - {x}, b - {x});
    }
  }

  lemma QuotaLaunch(w: World, a: Action, lim: Limits)
    requires Enabled(w, a) && Inv(w, lim) && a.Launch?
    ensures QuotaInv(Do(w, a, lim), lim)
  {
    LaunchFacts(w, a, lim);
    hide Do, Enabled, OnTime, Late, SentBy, SentTo, SentCalls, LockInv, LogInv, DayInv, LateInv, NumberInv, LastRows;
    var w', r := Do(w, a, lim), RowOf(w, a.p, Started, w.procs[a.p].phase.ab);
    forall x, d
      ensures |OnTime(w', SentBy(w'.log, x, d))| <= lim.perCaller
      ensures |OnTime(w', SentTo(w'.log, x, d))| <= EngineLimit(lim, x)
    {
      SentIn(w.log, x, d);
      LaunchRow(w.log, r, x, d);
      OnTimeLaunch(w, a, lim, SentBy(w.log, x, d), x == r.caller && d == r.day, lim.perCaller);
      OnTimeLaunch(w, a, lim, SentTo(w.log, x, d), x == r.engine && d == r.day, EngineLimit(lim, x));
    }
  }

  lemma NumberedFacts(w: World, a: Action, lim: Limits)
    requires Enabled(w, a) && !a.Launch?
    ensures forall p :: p in Do(w, a, lim).procs && Do(w, a, lim).procs[p].phase.Numbered?
              ==> (p in w.procs && w.procs[p].phase == Do(w, a, lim).procs[p].phase)
                  || Do(w, a, lim).procs[p].phase.ab == Fifth(|SentCalls(w.log)| + 1)
  {
    hide Fifth, QuotaProblem, RowOf, SentCalls;
  }

  lemma NumberQuiet(w: World, a: Action, lim: Limits)
    requires Enabled(w, a) && LogInv(w) && NumberInv(w) && !a.Launch?
    ensures NumberInv(Do(w, a, lim))
  {
    StepCounts(w, a, lim);
    NumberedFacts(w, a, lim);
    MarkedSame(w.log, Do(w, a, lim).log);
    hide Do, Enabled, SentCalls, SentBy, SentTo, Launches, LogInv, Fifth;
    assert |Launches(w.log)| == |SentCalls(w.log)| && Launches(Do(w, a, lim).log) == Launches(w.log);
    hide EachFifthMarked, SameCounts;
  }

  lemma MarkedSame(l: seq<Row>, l': seq<Row>)
    requires SameCounts(l, l')
    ensures EachFifthMarked(l) <==> EachFifthMarked(l')
  {
    hide SentCalls, SentBy, SentTo, Launches, Fifth;
  }

  lemma MarkNext(log: seq<Row>, r: Row)
    requires EachFifthMarked(log) && r.Call? && r.status == Started && r.id !in LastRows(log)
    requires r.ab == Fifth(|Launches(log)| + 1)
    ensures EachFifthMarked(log + [r])
  {
    hide LastRows, SentCalls, Launches, Fifth;
    LaunchRow(log, r, "", 0);
    LastRowsAppend(log, r);
    NotSent(log, r.id);
  }

  lemma NumberLaunch(w: World, a: Action, lim: Limits)
    requires Enabled(w, a) && Inv(w, lim) && a.Launch?
    ensures NumberInv(Do(w, a, lim))
  {
    LaunchFacts(w, a, lim);
    hide Do, Enabled, LockInv, LogInv, DayInv, LateInv, QuotaInv, EachFifthMarked;
    MarkNext(w.log, RowOf(w, a.p, Started, w.procs[a.p].phase.ab));
  }

  lemma NotSent(log: seq<Row>, p: nat)
    requires p !in LastRows(log)
    ensures p !in SentCalls(log)
  {}

  /** Every step of every caller keeps the invariant. */
  lemma {:induction false} StepKeepsInv(w: World, a: Action, lim: Limits)
    requires Enabled(w, a) && Inv(w, lim)
    ensures Inv(Do(w, a, lim), lim)
  {
    hide Do, Enabled, LockInv, LogInv, DayInv, LateInv, NumberInv, QuotaInv;
    LockStep(w, a, lim);
    LogStep(w, a, lim);
    DayStep(w, a, lim);
    LateStep(w, a, lim);
    if a.Launch? {
      QuotaLaunch(w, a, lim);
      NumberLaunch(w, a, lim);
    } else {
      QuotaStep(w, a, lim);
      NumberQuiet(w, a, lim);
    }
  }

  lemma {:induction false} Reachable(day: int, run: seq<Action>, lim: Limits)
    requires After(day, run, lim).Some?
    ensures Inv(After(day, run, lim).value, lim)
  {
    hide Do, Enabled;
    if run != [] {
      hide Inv;
      Reachable(day, run[..|run| - 1], lim);
      StepKeepsInv(After(day, run[..|run| - 1], lim).value, run[|run| - 1], lim);
    } else {
      forall c: string, d: int ensures SentBy([], c, d) == {} && SentTo([], c, d) == {} {}
      assert OnTime(Init(day), {}) == {};
    }
  }

  // ---- what holds in every reachable world ----

  /** At most one helper runs at a time, and whoever runs it holds the lock. */
  lemma {:induction false} OneHelperAtATime(day: int, run: seq<Action>, lim: Limits, p: nat, q: nat)
    requires After(day, run, lim).Some?
    requires var w := After(day, run, lim).value;
             p in w.procs && q in w.procs && w.procs[p].phase.Running? && w.procs[q].phase.Running?
    ensures p == q && After(day, run, lim).value.lock == Some(p)
  {
    Reachable(day, run, lim);
    assert Holds(After(day, run, lim).value.procs[p].phase);
    assert Holds(After(day, run, lim).value.procs[q].phase);
  }

  /** The launches of every run are numbered 1, 2, 3, ... across kills, and exactly each fifth is A/B marked. */
  lemma {:induction false} LaunchesNumbered(day: int, run: seq<Action>, lim: Limits)
    requires After(day, run, lim).Some?
    ensures var log := After(day, run, lim).value.log;
            && |Launches(log)| == |SentCalls(log)|
            && (forall k :: 0 <= k < |Launches(log)| ==>
                  Launches(log)[k].Call? && (Launches(log)[k].ab <==> (k + 1) % 5 == 0))
  {
    Reachable(day, run, lim);
  }

  lemma LateAlone(w: World, s: set<nat>, d: int)
    requires LogInv(w) && LateInv(w) && s <= SentCalls(w.log)
    requires forall p :: p in s ==> LastRows(w.log)[p].day == d
    ensures |s| <= |OnTime(w, s)| + 1
    ensures (forall p :: p in s ==> !Late(w, p)) ==> OnTime(w, s) == s
  {
    forall p | p in s ensures StampedOn(w, p, d) {
      InSent(w.log, p);
      assert RowAgrees(w, LastRows(w.log)[p]);
    }
    hide LogInv, LastRows, SentCalls;
    if x :| x in s && Late(w, x) {
      assert forall p :: p in s && Late(w, p) ==> SameDay(w, x, p);
      assert s == OnTime(w, s) + {x};
    } else {
      assert OnTime(w, s) == s;
    }
  }

  predicate StampedOn(w: World, p: nat, day: int) { p in w.procs && w.procs[p].stamp == Some(day) }

  /** The daily limits, in every reachable world and whatever was killed: a caller or an engine has more calls on a day
      than its limit only if one of them was checked after midnight, and then exactly one more. */
  lemma {:induction false} DailyLimits(day: int, run: seq<Action>, lim: Limits, x: string, d: int)
    requires After(day, run, lim).Some?
    ensures var w := After(day, run, lim).value;
            && |SentBy(w.log, x, d)| <= lim.perCaller + 1
            && |SentTo(w.log, x, d)| <= EngineLimit(lim, x) + 1
            && (|SentBy(w.log, x, d)| > lim.perCaller ==> exists p :: p in SentBy(w.log, x, d) && Late(w, p))
            && (|SentTo(w.log, x, d)| > EngineLimit(lim, x) ==> exists p :: p in SentTo(w.log, x, d) && Late(w, p))
  {
    Reachable(day, run, lim);
    var w := After(day, run, lim).value;
    hide After, LogInv, LateInv, DayInv, LockInv, NumberInv, Late, OnTime;
    LateAlone(w, SentBy(w.log, x, d), d);
    LateAlone(w, SentTo(w.log, x, d), d);
  }

  lemma LaunchAddsOne(log: seq<Row>, r: Row)
    requires r.Call? && r.status == Started && r.id !in LastRows(log)
    ensures |SentBy(log + [r], r.caller, r.day)| == |SentBy(log, r.caller, r.day)| + 1
    ensures |SentTo(log + [r], r.engine, r.day)| == |SentTo(log, r.engine, r.day)| + 1
  {
    LaunchRow(log, r, r.caller, r.day);
    LaunchRow(log, r, r.engine, r.day);
    NotSent(log, r.id);
    SentIn(log, r.caller, r.day);
    SentIn(log, r.engine, r.day);
    hide SentCalls, SentBy, SentTo, LastRows;
  }

  /** The launch keeps this day within its limits. */
  ghost predicate Within(log: seq<Row>, q: Proc, d: int, lim: Limits) {
    |SentBy(log, q.caller, d)| <= lim.perCaller && |SentTo(log, q.engine, d)| <= EngineLimit(lim, q.engine)
  }

  ghost predicate RoomOn(log: seq<Row>, q: Proc, d: int, lim: Limits) {
    |SentBy(log, q.caller, d)| < lim.perCaller && |SentTo(log, q.engine, d)| < EngineLimit(lim, q.engine)
  }

  /** What the check is for: a launch that was checked on the day it is stamped with finds room on that day. */
  lemma {:induction false} CheckedDayHasRoom(day: int, run: seq<Action>, lim: Limits, p: nat)
    requires After(day, run, lim).Some? && Enabled(After(day, run, lim).value, Launch(p))
    requires After(day, run, lim).value.procs[p].checked == After(day, run, lim).value.procs[p].stamp
    ensures var w := After(day, run, lim).value;
            w.procs[p].stamp.Some? && RoomOn(w.log, w.procs[p], w.procs[p].stamp.value, lim)
  {
    Reachable(day, run, lim);
    LaunchFacts(After(day, run, lim).value, Launch(p), lim);
  }

  /** A launch leaves the day it is stamped with inside the limits exactly if the day still had room. */
  lemma {:induction false} LaunchWithinLimits(day: int, run: seq<Action>, lim: Limits, p: nat)
    requires After(day, run, lim).Some? && Enabled(After(day, run, lim).value, Launch(p))
    ensures var w := After(day, run, lim).value;
            var q := w.procs[p];
            q.stamp.Some?
            && (Within(Do(w, Launch(p), lim).log, q, q.stamp.value, lim) <==> RoomOn(w.log, q, q.stamp.value, lim))
            && (q.checked == q.stamp ==> RoomOn(w.log, q, q.stamp.value, lim))
  {
    Reachable(day, run, lim);
    var w := After(day, run, lim).value;
    LaunchFacts(w, Launch(p), lim);
    hide After, Do, Enabled, LogInv, LateInv, DayInv, LockInv, NumberInv, QuotaInv, Late, LastRows, SentCalls, SentBy,
      SentTo;
    LaunchAddsOne(w.log, RowOf(w, p, Started, w.procs[p].phase.ab));
  }

  // ---- how a day goes over its limit ----

  /** The two limits: on what a caller sends and on what an engine gets. */
  datatype Side = OfCaller | OfEngine

  function Sent(side: Side, log: seq<Row>, x: string, d: int): set<nat> {
    if side == OfCaller then SentBy(log, x, d) else SentTo(log, x, d)
  }

  function Limit(side: Side, lim: Limits, x: string): nat {
    if side == OfCaller then lim.perCaller else EngineLimit(lim, x)
  }

  /** A call is launched onto a day that is full. */
  predicate Overfills(w: World, a: Action, lim: Limits, side: Side, x: string, d: int) {
    a.Launch? && a.p in w.procs && w.procs[a.p].stamp == Some(d)
    && x == (if side == OfCaller then w.procs[a.p].caller else w.procs[a.p].engine)
    && |Sent(side, w.log, x, d)| >= Limit(side, lim, x)
  }

  lemma StepOver(w: World, a: Action, lim: Limits, side: Side, x: string, d: int)
    requires Enabled(w, a) && Inv(w, lim)
    ensures |Sent(side, Do(w, a, lim).log, x, d)| > Limit(side, lim, x)
       <==> |Sent(side, w.log, x, d)| > Limit(side, lim, x) || Overfills(w, a, lim, side, x, d)
    ensures Overfills(w, a, lim, side, x, d) ==> w.procs[a.p].checked != w.procs[a.p].stamp
  {
    if a.Launch? {
      LaunchFacts(w, a, lim);
      var r := RowOf(w, a.p, Started, w.procs[a.p].phase.ab);
      hide Do, Enabled, Inv, LastRows, SentCalls, Launches, Late, Sent;
      CountAfterLaunch(side, w.log, r, x, d);
      RoomOnSide(side, w, w.procs[a.p], lim);
    } else {
      StepCounts(w, a, lim);
    }
  }

  lemma RoomOnSide(side: Side, w: World, q: Proc, lim: Limits)
    requires HasRoom(w, q, lim)
    ensures var x := if side == OfCaller then q.caller else q.engine;
            |Sent(side, w.log, x, q.checked.value)| < Limit(side, lim, x)
  {}

  lemma CountAfterLaunch(side: Side, log: seq<Row>, r: Row, x: string, d: int)
    requires r.Call? && r.status == Started && r.id !in LastRows(log)
    ensures var mine := x == (if side == OfCaller then r.caller else r.engine) && d == r.day;
            |Sent(side, log + [r], x, d)| == |Sent(side, log, x, d)| + if mine then 1 else 0
  {
    LaunchRow(log, r, x, d);
    SentIn(log, x, d);
    NotSent(log, r.id);
    hide LastRows, SentCalls, SentBy, SentTo;
  }

  predicate OverfilledAt(day: int, run: seq<Action>, lim: Limits, side: Side, x: string, d: int, n: nat)
    requires n < |run|
  {
    After(day, run[..n], lim).Some? && Overfills(After(day, run[..n], lim).value, run[n], lim, side, x, d)
  }

  /** Over every run, exactly: a day is over a caller's or an engine's limit if and only if some call was launched onto
      it when it was full. */
  lemma {:induction false} OverExactlyWhenOverfilled(day: int, run: seq<Action>, lim: Limits, side: Side, x: string,
                                                     d: int)
    requires After(day, run, lim).Some?
    ensures |Sent(side, After(day, run, lim).value.log, x, d)| > Limit(side, lim, x)
       <==> exists n :: 0 <= n < |run| && OverfilledAt(day, run, lim, side, x, d, n)
  {
    if run == [] {
      assert SentBy([], x, d) == {} && SentTo([], x, d) == {};
    } else {
      var m := |run| - 1;
      var before := run[..m];
      AfterLast(day, run, lim);
      hide *;
      OverExactlyWhenOverfilled(day, before, lim, side, x, d);
      Reachable(day, before, lim);
      StepOver(After(day, before, lim).value, run[m], lim, side, x, d);
      OverfilledBefore(day, run, lim, side, x, d);
    }
  }

  lemma AfterLast(day: int, run: seq<Action>, lim: Limits)
    requires run != [] && After(day, run, lim).Some?
    ensures var before, a := After(day, run[..|run| - 1], lim), run[|run| - 1];
            before.Some? && Enabled(before.value, a) && After(day, run, lim) == Some(Do(before.value, a, lim))
  {
    hide Enabled, Do;
  }

  lemma OverfilledBefore(day: int, run: seq<Action>, lim: Limits, side: Side, x: string, d: int)
    requires run != [] && After(day, run[..|run| - 1], lim).Some?
    ensures var m := |run| - 1;
            (exists n :: 0 <= n < |run| && OverfilledAt(day, run, lim, side, x, d, n))
            <==> (exists n :: 0 <= n < m && OverfilledAt(day, run[..m], lim, side, x, d, n))
                 || Overfills(After(day, run[..m], lim).value, run[m], lim, side, x, d)
  {
    hide After, Overfills;
    var m := |run| - 1;
    var before := run[..m];
    forall n | 0 <= n < m
      ensures OverfilledAt(day, run, lim, side, x, d, n) <==> OverfilledAt(day, before, lim, side, x, d, n)
    {
      assert run[..n] == before[..n] && run[n] == before[n];
    }
    assert OverfilledAt(day, run, lim, side, x, d, m)
      <==> Overfills(After(day, before, lim).value, run[m], lim, side, x, d);
  }

  /** And such a call was checked on another day than the one it is stamped with. */
  lemma {:induction false} OverfillingIsLate(day: int, run: seq<Action>, lim: Limits, side: Side, x: string, d: int,
                                             n: nat)
    requires After(day, run, lim).Some? && n < |run| && OverfilledAt(day, run, lim, side, x, d, n)
    ensures var w := After(day, run[..n], lim).value;
            run[n].p in w.procs && w.procs[run[n].p].checked != w.procs[run[n].p].stamp
  {
    EnabledAt(day, run, lim, n);
    Reachable(day, run[..n], lim);
    StepOver(After(day, run[..n], lim).value, run[n], lim, side, x, d);
  }

  lemma {:induction false} EnabledAt(day: int, run: seq<Action>, lim: Limits, n: nat)
    requires After(day, run, lim).Some? && n < |run|
    ensures After(day, run[..n], lim).Some? && Enabled(After(day, run[..n], lim).value, run[n])
  {
    hide Enabled, Do;
    var m := |run| - 1;
    if n < m {
      EnabledAt(day, run[..m], lim, n);
      assert run[..m][..n] == run[..n];
    }
  }

  // ---- a run over midnight ----

  lemma Extend(day: int, run: seq<Action>, lim: Limits, w: World, a: Action) returns (run': seq<Action>, w': World)
    requires After(day, run, lim) == Some(w) && Enabled(w, a)
    ensures After(day, run', lim) == Some(w') && w' == Do(w, a, lim) && run' == run + [a]
  {
    run', w' := run + [a], Do(w, a, lim);
    assert run'[..|run|] == run;
  }

  /** A caller alone comes as far as its stamp; then midnight may pass. */
  lemma StampCall(day: int, run: seq<Action>, lim: Limits, w: World, p: nat, c: string, e: string, midnight: bool)
    returns (run': seq<Action>, w': World)
    requires After(day, run, lim) == Some(w) && w.lock == None && p !in w.procs
    ensures After(day, run', lim) == Some(w') && w'.log == w.log && w'.lock == Some(p)
    ensures w'.day == (if midnight then w.day + 1 else w.day)
    ensures w'.procs == w.procs[p := Proc(c, e, Stamped, w.day, Some(w.day), None)]
  {
    hide After;
    run', w' := Extend(day, run, lim, w, Begin(p, c, e));
    run', w' := Extend(day, run', lim, w', NoStop(p));
    run', w' := Extend(day, run', lim, w', Acquire(p));
    run', w' := Extend(day, run', lim, w', Stamp(p));
    if midnight {
      run', w' := Extend(day, run', lim, w', NextDay);
    }
  }

  /** Stamped, it goes through the checks, launches its helper and is killed. */
  lemma LaunchCall(day: int, run: seq<Action>, lim: Limits, w: World, p: nat) returns (run': seq<Action>, w': World)
    requires After(day, run, lim) == Some(w) && w.lock == Some(p) && In(w, p, Stamped)
    requires QuotaProblem(w.log, w.day, w.procs[p].caller, w.procs[p].engine, lim) == None
    ensures After(day, run', lim) == Some(w') && w'.day == w.day && w'.lock == None && w'.procs.Keys == w.procs.Keys
    ensures w'.log == w.log + [RowOf(w, p, Started, Fifth(|SentCalls(w.log)| + 1))]
  {
    hide After, QuotaProblem, SentCalls, Fifth;
    run', w' := Extend(day, run, lim, w, CheckQuota(p));
    run', w' := Extend(day, run', lim, w', Gate(p, true));
    run', w' := Extend(day, run', lim, w', Number(p));
    run', w' := Extend(day, run', lim, w', Launch(p));
    run', w' := Extend(day, run', lim, w', Kill(p));
  }

  /** The first call of a day, alone. */
  lemma OneRow(r: Row, x: string, d: int)
    requires r.Call? && r.status == Started
    ensures SentBy([r], x, d) == If(x == r.caller && d == r.day, r.id)
    ensures SentTo([r], x, d) == If(x == r.engine && d == r.day, r.id)
    ensures LastRows([r]).Keys == {r.id}
  {
    assert [] + [r] == [r];
    assert SentBy([], x, d) == {} && SentTo([], x, d) == {};
    LastRowsAppend([], r);
    LaunchRow([], r, x, d);
  }

  lemma FirstCall(lim: Limits) returns (run: seq<Action>, w: World, r: Row)
    requires lim == Limits(1, map["codex" := 9])
    ensures After(0, run, lim) == Some(w) && w.day == 0 && w.lock == None && w.procs.Keys == {1} && w.log == [r]
    ensures r.Call? && r.id == 1 && r.day == 0 && r.caller == "agent" && r.engine == "codex" && r.status == Started
  {
    run, w := StampCall(0, [], lim, Init(0), 1, "agent", "codex", false);
    assert SentBy([], "agent", 0) == {} && SentTo([], "codex", 0) == {};
    hide After, SentBy, SentTo, SentCalls, LastRows, Fifth;
    r := RowOf(w, 1, Started, Fifth(|SentCalls(w.log)| + 1));
    run, w := LaunchCall(0, run, lim, w, 1);
    assert [] + [r] == [r];
  }

  /** The bound is met: with a limit of one call a day, a call stamped just before midnight and checked just after is
      the second one of its day. */
  lemma {:induction false} OverTheLimit() returns (run: seq<Action>, lim: Limits)
    ensures lim.perCaller == 1 && After(0, run, lim).Some?
    ensures |SentBy(After(0, run, lim).value.log, "agent", 0)| == 2
  {
    lim := Limits(1, map["codex" := 9]);
    var w: World, one: Row;
    run, w, one := FirstCall(lim);
    OneRow(one, "agent", 0);
    OneRow(one, "agent", 1);
    OneRow(one, "codex", 1);
    run, w := StampCall(0, run, lim, w, 2, "agent", "codex", true);
    hide After, SentBy, SentTo, SentCalls, LastRows, Fifth;
    var two := RowOf(w, 2, Started, Fifth(|SentCalls(w.log)| + 1));
    run, w := LaunchCall(0, run, lim, w, 2);
    LaunchRow([one], two, "agent", 0);
    assert SentBy(w.log, "agent", 0) == {1, 2};
  }
}
