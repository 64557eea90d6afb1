/** What a run of the launch protocol says of one call: the steps it takes on its way to its helper, and what becomes of
    it when a check refuses it or lets it through. */
module HelperRuns {
  import opened HelperLog
  import opened HelperQuota
  import opened Options

  /** The call a step belongs to. */
  function CallOf(a: Action): Option<nat> {
    match a
    case Begin(p, _, _) => Some(p)
    case StopSeen(p) => Some(p)
    case NoStop(p) => Some(p)
    case Acquire(p) => Some(p)
    case GiveUp(p) => Some(p)
    case Stamp(p) => Some(p)
    case CheckQuota(p) => Some(p)
    case Gate(p, _) => Some(p)
    case Number(p) => Some(p)
    case Launch(p) => Some(p)
    case Finish(p, _) => Some(p)
    case Exit(p) => Some(p)
    case Kill(p) => Some(p)
    case Rate(_, _) => None
    case NextDay => None
  }

  /** The steps of one call, in their order. */
  function Own(run: seq<Action>, p: nat): seq<Action> {
    if run == [] then []
    else Own(run[..|run| - 1], p) + if CallOf(run[|run| - 1]) == Some(p) then [run[|run| - 1]] else []
  }

  /** The one way to a helper: no STOP flag, the lock, the stamp, the quota check, a clean gate, the number. */
  function Way(p: nat, caller: string, engine: string): seq<Action> {
    [Begin(p, caller, engine), NoStop(p), Acquire(p), Stamp(p), CheckQuota(p), Gate(p, true), Number(p), Launch(p)]
  }

  predicate StartedRow(r: Row, p: nat) { r.Call? && r.status == Started && r.id == p }

  predicate Launched(log: seq<Row>, p: nat) { exists k :: 0 <= k < |log| && StartedRow(log[k], p) }

  /** How many steps of its way a call has taken; past the last one it is off it. */
  function Place(f: Phase): nat {
    match f
    case Asking => 1
    case Waiting => 2
    case Holding => 3
    case Stamped => 4
    case Admitted => 5
    case Cleared => 6
    case Numbered(_) => 7
    case Running(_) => 8
    case _ => 9
  }

  ghost predicate OnWay(own: seq<Action>, w: World, p: nat) {
    if p !in w.procs then own == [] && !Launched(w.log, p)
    else
      var way, place := Way(p, w.procs[p].caller, w.procs[p].engine), Place(w.procs[p].phase);
      && own != [] && own[0] == way[0]
      && (place <= 8 ==> own == way[..place])
      && (Launched(w.log, p) <==> way <= own)
  }

  lemma LaunchedNext(log: seq<Row>, r: Row, p: nat)
    ensures Launched(log + [r], p) <==> Launched(log, p) || StartedRow(r, p)
  {
    assert (log + [r])[|log|] == r && forall k :: 0 <= k < |log| ==> (log + [r])[k] == log[k];
  }

  /** A step changes no other call, and writes a started row only when it launches. */
  lemma StepFacts(w: World, a: Action, lim: Limits, p: nat)
    requires Enabled(w, a)
    ensures var w' := Do(w, a, lim);
            && (CallOf(a) != Some(p) ==> (p in w'.procs <==> p in w.procs)
                                         && (p in w.procs ==> w'.procs[p] == w.procs[p]))
            && (Launched(w'.log, p) <==> Launched(w.log, p) || a == Launch(p))
  {
    hide Launched, Fifth, QuotaProblem, SentCalls;
    var w' := Do(w, a, lim);
    if w'.log != w.log {
      LaunchedNext(w.log, w'.log[|w.log|], p);
    }
  }

  /** A call's own step is the next one of its way, or takes it off; only the way's last one launches. */
  lemma PlaceNext(w: World, a: Action, lim: Limits, p: nat)
    requires Enabled(w, a) && CallOf(a) == Some(p) && !a.Begin?
    ensures p in w.procs && p in Do(w, a, lim).procs
    ensures var q, q' := w.procs[p], Do(w, a, lim).procs[p];
            var place, place' := Place(q.phase), Place(q'.phase);
            && q'.caller == q.caller && q'.engine == q.engine && place > 0
            && (place' <= 8 ==> place' == place + 1 && a == Way(p, q.caller, q.engine)[place])
            && (a == Launch(p) ==> place' == 8)
  {
    hide Fifth, QuotaProblem, SentCalls, RowOf;
  }

  lemma WayNext(own: seq<Action>, way: seq<Action>, a: Action)
    requires |way| == 8
    ensures |own| < 8 && own == way[..|own|] && a == way[|own|] ==> own + [a] == way[..|own| + 1]
    ensures way <= own + [a] <==> way <= own || (|own| == 7 && own + [a] == way)
  {}

  /** One more step takes a call along its way, or off it. */
  lemma OwnStep(own: seq<Action>, w: World, a: Action, lim: Limits, p: nat)
    requires Enabled(w, a) && OnWay(own, w, p) && CallOf(a) == Some(p)
    ensures OnWay(own + [a], Do(w, a, lim), p)
  {
    StepFacts(w, a, lim, p);
    if a.Begin? {
      hide Launched;
    } else {
      PlaceNext(w, a, lim, p);
      hide Launched, Do, Enabled, Place;
      WayNext(own, Way(p, w.procs[p].caller, w.procs[p].engine), a);
    }
  }

  lemma {:induction false} RunOnWay(day: int, run: seq<Action>, lim: Limits, p: nat)
    requires After(day, run, lim).Some?
    ensures OnWay(Own(run, p), After(day, run, lim).value, p)
  {
    if run != [] {
      var before, a := run[..|run| - 1], run[|run| - 1];
      AfterLast(day, run, lim);
      RunOnWay(day, before, lim, p);
      var w := After(day, before, lim).value;
      if CallOf(a) == Some(p) {
        OwnStep(Own(before, p), w, a, lim, p);
      } else {
        StepFacts(w, a, lim, p);
        hide After, Do, Enabled, Launched;
        assert Own(before, p) + [] == Own(before, p);
      }
    }
  }

  /** Every row of the log names the caller and the engine of its call. */
  ghost predicate Named(w: World) {
    forall k :: 0 <= k < |w.log| && w.log[k].Call? ==>
      var r := w.log[k]; r.id in w.procs && r.caller == w.procs[r.id].caller && r.engine == w.procs[r.id].engine
  }

  lemma NamedStep(w: World, a: Action, lim: Limits)
    requires Enabled(w, a) && Named(w)
    ensures Named(Do(w, a, lim))
  {
    hide Fifth, QuotaProblem, SentCalls;
  }

  lemma {:induction false} RunNamed(day: int, run: seq<Action>, lim: Limits)
    requires After(day, run, lim).Some?
    ensures Named(After(day, run, lim).value)
  {
    if run != [] {
      AfterLast(day, run, lim);
      hide Do, Enabled, Named;
      RunNamed(day, run[..|run| - 1], lim);
      NamedStep(After(day, run[..|run| - 1], lim).value, run[|run| - 1], lim);
    }
  }

  // ---- launched means let through ----

  /** Over every run: a call has a started row if and only if its own steps began with all eight of the way, in that
      order; and the row names the caller and the engine that the call began with. */
  lemma LaunchedExactly(day: int, run: seq<Action>, lim: Limits, p: nat)
    requires After(day, run, lim).Some?
    ensures var log := After(day, run, lim).value.log;
            && (Launched(log, p) <==> exists c, e :: Way(p, c, e) <= Own(run, p))
            && (forall k :: 0 <= k < |log| && StartedRow(log[k], p) ==>
                  Way(p, log[k].caller, log[k].engine) <= Own(run, p))
  {
    RunOnWay(day, run, lim, p);
    RunNamed(day, run, lim);
    hide After, Own;
    forall c, e | Way(p, c, e) <= Own(run, p) ensures Launched(After(day, run, lim).value.log, p) {
      assert Own(run, p)[0] == Way(p, c, e)[0];
    }
  }

  /** Where the k-th step of a call stands in the run. */
  lemma {:induction false} OwnAt(run: seq<Action>, p: nat, k: nat) returns (n: nat)
    requires k < |Own(run, p)|
    ensures n < |run| && run[n] == Own(run, p)[k] && Own(run[..n], p) == Own(run, p)[..k]
  {
    var m := |run| - 1;
    if k < |Own(run[..m], p)| {
      n := OwnAt(run[..m], p, k);
      assert run[..m][..n] == run[..n];
    } else {
      n := m;
    }
  }

  /** So before each launch the call found no STOP flag, and after that its gate was clean. */
  lemma LaunchIsCleared(day: int, run: seq<Action>, lim: Limits, n: nat)
    requires After(day, run, lim).Some? && n < |run| && run[n].Launch?
    ensures exists i, j :: 0 <= i < j < n && run[i] == NoStop(run[n].p) && run[j] == Gate(run[n].p, true)
  {
    var p := run[n].p;
    EnabledAt(day, run, lim, n);
    RunOnWay(day, run[..n], lim, p);
    hide After, Own, Launched;
    var j := OwnAt(run[..n], p, 5);
    var i := OwnAt(run[..n][..j], p, 1);
    assert run[i] == NoStop(p) && run[j] == Gate(p, true);
  }

  /** In every reachable world a waiting call can take the lock exactly when no call is under way with it, and gives up
      exactly when one is. */
  lemma WaitingExactly(day: int, run: seq<Action>, lim: Limits, p: nat)
    requires After(day, run, lim).Some? && In(After(day, run, lim).value, p, Waiting)
    ensures var w := After(day, run, lim).value;
            && (Enabled(w, Acquire(p)) <==> forall q :: q in w.procs ==> !Holds(w.procs[q].phase))
            && (Enabled(w, GiveUp(p)) <==> exists q :: q in w.procs && Holds(w.procs[q].phase))
  {
    Reachable(day, run, lim);
  }

  // ---- refused means out ----

  predicate LastStatus(log: seq<Row>, p: nat, status: Status) {
    p in LastRows(log) && LastRows(log)[p].status == status
  }

  /** A row of another call changes nothing of this one's last row; its own is its last. */
  lemma LastStatusNext(log: seq<Row>, r: Row, p: nat, status: Status)
    ensures LastStatus(log + [r], p, status)
       <==> if r.Call? && r.id == p then r.status == status else LastStatus(log, p, status)
  {
    LastRowsAppend(log, r);
    hide LastRows;
  }

  /** The call is on its way out, its last row a blocked one. */
  ghost predicate Refused(w: World, p: nat) {
    && p in w.procs && (w.procs[p].phase.Leaving? || w.procs[p].phase.Gone?) && !Launched(w.log, p)
    && LastStatus(w.log, p, Blocked)
  }

  predicate Refuses(a: Action, p: nat) { a == StopSeen(p) || a == GiveUp(p) || a == Gate(p, false) }

  lemma BlockRefuses(w: World, p: nat)
    requires p in w.procs && !Launched(w.log, p)
    ensures Refused(Block(w, p), p)
  {
    hide LastStatus, Launched;
    LastStatusNext(w.log, RowOf(w, p, Blocked, false), p, Blocked);
    LaunchedNext(w.log, RowOf(w, p, Blocked, false), p);
  }

  /** A call on its way out writes nothing more, and stays out. */
  lemma OutStep(w: World, a: Action, lim: Limits, p: nat)
    requires Enabled(w, a) && p in w.procs && (w.procs[p].phase.Leaving? || w.procs[p].phase.Gone?)
    ensures var w' := Do(w, a, lim);
            && p in w'.procs && (w'.procs[p].phase.Leaving? || w'.procs[p].phase.Gone?) && a != Launch(p)
            && (w'.log == w.log || (w'.log == w.log + [w'.log[|w.log|]]
                                    && (w'.log[|w.log|].Call? ==> w'.log[|w.log|].id != p)))
  {
    hide Fifth, QuotaProblem, SentCalls;
  }

  lemma RefusedStep(w: World, a: Action, lim: Limits, p: nat)
    requires Enabled(w, a) && (Refused(w, p) || (Refuses(a, p) && !Launched(w.log, p)))
    ensures Refused(Do(w, a, lim), p)
  {
    if Refuses(a, p) && !Launched(w.log, p) {
      BlockRefuses(w, p);
      hide Refused, Launched, Block;
    } else {
      StaysOut(w, a, lim, p);
      hide *;
    }
  }

  lemma StaysOut(w: World, a: Action, lim: Limits, p: nat)
    requires Enabled(w, a) && Refused(w, p)
    ensures Refused(Do(w, a, lim), p)
  {
    OutStep(w, a, lim, p);
    StepFacts(w, a, lim, p);
    var log := Do(w, a, lim).log;
    if log != w.log {
      LastStatusNext(w.log, log[|w.log|], p, Blocked);
    }
    hide Do, Enabled, LastStatus, Launched;
  }

  /** What checks a call finds it short of its launch. */
  lemma NotYetLaunched(day: int, run: seq<Action>, lim: Limits, p: nat, a: Action)
    requires After(day, run, lim).Some? && Enabled(After(day, run, lim).value, a)
    requires Refuses(a, p) || a == CheckQuota(p)
    ensures !Launched(After(day, run, lim).value.log, p)
  {
    RunOnWay(day, run, lim, p);
    hide After, Own, Launched;
  }

  lemma {:induction false} StaysRefused(day: int, run: seq<Action>, lim: Limits, p: nat, n: nat)
    requires After(day, run, lim).Some? && n < |run| && Refuses(run[n], p)
    ensures Refused(After(day, run, lim).value, p)
  {
    var last := |run| - 1;
    AfterLast(day, run, lim);
    hide After, Do, Enabled, Refused, Refuses;
    if n < last {
      StaysRefused(day, run[..last], lim, p, n);
    } else {
      NotYetLaunched(day, run[..last], lim, p, run[last]);
    }
    RefusedStep(After(day, run[..last], lim).value, run[last], lim, p);
  }

  /** A launch leaves a started row for good. */
  lemma {:induction false} LaunchLeavesRow(day: int, run: seq<Action>, lim: Limits, p: nat, n: nat)
    requires After(day, run, lim).Some? && n < |run| && run[n] == Launch(p)
    ensures Launched(After(day, run, lim).value.log, p)
  {
    var last := |run| - 1;
    AfterLast(day, run, lim);
    hide After, Do, Enabled, Launched;
    if n < last {
      LaunchLeavesRow(day, run[..last], lim, p, n);
    }
    StepFacts(After(day, run[..last], lim).value, run[last], lim, p);
  }

  /** Over every run: a call that saw the STOP flag, gave up on the lock or was refused by the gate is never launched,
      has no started row, and its last row is a blocked one, whatever comes later. */
  lemma RefusedForGood(day: int, run: seq<Action>, lim: Limits, p: nat, n: nat)
    requires After(day, run, lim).Some? && n < |run|
    requires run[n] == StopSeen(p) || run[n] == GiveUp(p) || run[n] == Gate(p, false)
    ensures var log := After(day, run, lim).value.log;
            !Launched(log, p) && LastStatus(log, p, Blocked)
    ensures Launch(p) !in run
  {
    StaysRefused(day, run, lim, p, n);
    if Launch(p) in run {
      var m :| 0 <= m < |run| && run[m] == Launch(p);
      LaunchLeavesRow(day, run, lim, p, m);
    }
  }

  // ---- the final row ----

  /** The call is over, its last row says how. */
  ghost predicate Over(w: World, p: nat, status: Status) {
    p in w.procs && (w.procs[p].phase.Leaving? || w.procs[p].phase.Gone?) && LastStatus(w.log, p, status)
  }

  lemma OverStep(w: World, a: Action, lim: Limits, p: nat, status: Status)
    requires Enabled(w, a) && (Over(w, p, status) || a == Finish(p, status))
    ensures Over(Do(w, a, lim), p, status)
  {
    if a == Finish(p, status) {
      LastStatusNext(w.log, RowOf(w, p, status, w.procs[p].phase.ab), p, status);
      hide LastStatus;
    } else {
      OutStep(w, a, lim, p);
      var log := Do(w, a, lim).log;
      if log != w.log { LastStatusNext(w.log, log[|w.log|], p, status); }
      hide Do, Enabled, LastStatus;
    }
  }

  /** Over every run: when a helper has finished, its call's last row says how, whatever comes later. */
  lemma {:induction false} FinishedForGood(day: int, run: seq<Action>, lim: Limits, p: nat, status: Status, n: nat)
    requires After(day, run, lim).Some? && n < |run| && run[n] == Finish(p, status)
    ensures Over(After(day, run, lim).value, p, status)
  {
    var last := |run| - 1;
    AfterLast(day, run, lim);
    hide After, Do, Enabled, Over;
    if n < last {
      FinishedForGood(day, run[..last], lim, p, status, n);
    }
    OverStep(After(day, run[..last], lim).value, run[last], lim, p, status);
  }

  predicate Finishes(a: Action, p: nat) { a.Finish? && a.p == p }

  /** Launched and not finished: it runs or was killed, and its last row is its started one. */
  ghost predicate Unfinished(w: World, p: nat) {
    && p in w.procs && (w.procs[p].phase.Running? || w.procs[p].phase.Gone?) && LastStatus(w.log, p, Started)
  }

  lemma UnfinishedStep(w: World, a: Action, lim: Limits, p: nat)
    requires Enabled(w, a) && (Unfinished(w, p) || a == Launch(p)) && !Finishes(a, p)
    ensures Unfinished(Do(w, a, lim), p)
  {
    var log := Do(w, a, lim).log;
    RunningStays(w, a, lim, p);
    if log != w.log { LastStatusNext(w.log, log[|w.log|], p, Started); }
    hide Do, Enabled, LastStatus;
  }

  lemma RunningStays(w: World, a: Action, lim: Limits, p: nat)
    requires Enabled(w, a) && !Finishes(a, p)
    requires (p in w.procs && (w.procs[p].phase.Running? || w.procs[p].phase.Gone?)) || a == Launch(p)
    ensures var w' := Do(w, a, lim);
            && p in w'.procs && (w'.procs[p].phase.Running? || w'.procs[p].phase.Gone?)
            && (w'.log == w.log || (w'.log == w.log + [w'.log[|w.log|]]
                                    && (w'.log[|w.log|].Call? && w'.log[|w.log|].id == p ==> a == Launch(p))))
            && (a == Launch(p) ==> w'.log != w.log && StartedRow(w'.log[|w.log|], p))
  {
    hide Fifth, QuotaProblem, SentCalls;
  }

  /** And a call whose helper was launched and never finished, killed or still running, keeps its started row. */
  lemma {:induction false} KilledStaysStarted(day: int, run: seq<Action>, lim: Limits, p: nat, n: nat)
    requires After(day, run, lim).Some? && n < |run| && run[n] == Launch(p)
    requires forall m :: n <= m < |run| ==> !Finishes(run[m], p)
    ensures Unfinished(After(day, run, lim).value, p)
  {
    var last := |run| - 1;
    AfterLast(day, run, lim);
    hide After, Do, Enabled, Unfinished, Finishes;
    if n < last {
      KilledStaysStarted(day, run[..last], lim, p, n);
    }
    UnfinishedStep(After(day, run[..last], lim).value, run[last], lim, p);
  }

  // ---- cleared means free to go ----

  /** The call is past its gate: its number or its launch is the next step, or it has been launched. */
  ghost predicate FreeToGo(w: World, p: nat) {
    Enabled(w, Number(p)) || Enabled(w, Launch(p)) || Launched(w.log, p)
  }

  lemma FreeStep(w: World, a: Action, lim: Limits, p: nat)
    requires Enabled(w, a) && (FreeToGo(w, p) || a == Gate(p, true)) && a != Kill(p)
    ensures FreeToGo(Do(w, a, lim), p)
  {
    StepFacts(w, a, lim, p);
    hide Launched, Fifth, QuotaProblem, SentCalls, RowOf;
  }

  /** Over every run: a call whose gate was clean stays free to go until it is launched or killed, whatever the others
      do; and its number and its launch are all it takes. */
  lemma {:induction false} ClearedStaysFree(day: int, run: seq<Action>, lim: Limits, p: nat, n: nat)
    requires After(day, run, lim).Some? && n < |run| && run[n] == Gate(p, true) && Kill(p) !in run[n..]
    ensures var w := After(day, run, lim).value;
            && FreeToGo(w, p)
            && (Enabled(w, Number(p)) ==> Enabled(Do(w, Number(p), lim), Launch(p)))
            && (Enabled(w, Launch(p)) ==> Launched(Do(w, Launch(p), lim).log, p))
  {
    var last := |run| - 1;
    AfterLast(day, run, lim);
    var w := After(day, run[..last], lim).value;
    assert run[last] in run[n..];
    if n < last {
      assert run[n..] == run[..last][n..] + [run[last]];
      ClearedStaysFree(day, run[..last], lim, p, n);
    }
    FreeStep(w, run[last], lim, p);
    FreeGoes(After(day, run, lim).value, lim, p);
    hide After, Do, Enabled, FreeToGo, Launched;
  }

  lemma FreeGoes(w: World, lim: Limits, p: nat)
    ensures Enabled(w, Number(p)) ==> Enabled(Do(w, Number(p), lim), Launch(p))
    ensures Enabled(w, Launch(p)) ==> Launched(Do(w, Launch(p), lim).log, p)
  {
    hide Launched, Fifth, SentCalls, RowOf;
    if Enabled(w, Launch(p)) {
      StepFacts(w, Launch(p), lim, p);
    }
  }

  // ---- admitted means under the limits ----

  /** How many started rows of a day bear this name. */
  function StartedOn(side: Side, log: seq<Row>, x: string, d: int): nat {
    if log == [] then 0
    else
      var r := log[|log| - 1];
      StartedOn(side, log[..|log| - 1], x, d)
      + if r.Call? && r.status == Started && r.day == d && x == (if side == OfCaller then r.caller else r.engine) then 1
        else 0
  }

  lemma StartedNext(side: Side, log: seq<Row>, r: Row, x: string, d: int)
    ensures StartedOn(side, log + [r], x, d)
         == StartedOn(side, log, x, d)
            + if r.Call? && r.status == Started && r.day == d && x == (if side == OfCaller then r.caller else r.engine)
              then 1 else 0
  {
    assert (log + [r])[..|log|] == log;
  }

  lemma CountStep(w: World, a: Action, lim: Limits, side: Side, x: string, d: int)
    requires Enabled(w, a) && Inv(w, lim) && |Sent(side, w.log, x, d)| == StartedOn(side, w.log, x, d)
    ensures |Sent(side, Do(w, a, lim).log, x, d)| == StartedOn(side, Do(w, a, lim).log, x, d)
  {
    if a.Launch? {
      LaunchFacts(w, a, lim);
      var r := RowOf(w, a.p, Started, w.procs[a.p].phase.ab);
      hide Do, Enabled, Inv, LastRows, SentCalls, Launches, Late, Sent;
      CountAfterLaunch(side, w.log, r, x, d);
      StartedNext(side, w.log, r, x, d);
    } else {
      StepCounts(w, a, lim);
      QuietRow(w, a, lim, side, x, d);
      hide Do, Enabled, Inv, SentBy, SentTo, SentCalls, StartedOn;
    }
  }

  lemma QuietRow(w: World, a: Action, lim: Limits, side: Side, x: string, d: int)
    requires Enabled(w, a) && !a.Launch?
    ensures StartedOn(side, Do(w, a, lim).log, x, d) == StartedOn(side, w.log, x, d)
  {
    hide StartedOn, Fifth, QuotaProblem, SentCalls;
    if Do(w, a, lim).log != w.log {
      StartedNext(side, w.log, Do(w, a, lim).log[|w.log|], x, d);
    }
  }

  /** In every reachable log the calls counted against a limit are the started rows themselves. */
  lemma {:induction false} CountedAreStarted(day: int, run: seq<Action>, lim: Limits, side: Side, x: string, d: int)
    requires After(day, run, lim).Some?
    ensures |Sent(side, After(day, run, lim).value.log, x, d)|
         == StartedOn(side, After(day, run, lim).value.log, x, d)
  {
    if run == [] {
      assert SentBy([], x, d) == {} && SentTo([], x, d) == {};
    } else {
      AfterLast(day, run, lim);
      hide *;
      CountedAreStarted(day, run[..|run| - 1], lim, side, x, d);
      Reachable(day, run[..|run| - 1], lim);
      CountStep(After(day, run[..|run| - 1], lim).value, run[|run| - 1], lim, side, x, d);
    }
  }

  /** The quota check, exactly: a call is let through if and only if the day's started rows of its caller and of its
      engine are below their limits, an engine without a limit having none; otherwise a blocked row is all it leaves. */
  lemma AdmittedExactly(day: int, run: seq<Action>, lim: Limits, p: nat)
    requires After(day, run, lim).Some? && Enabled(After(day, run, lim).value, CheckQuota(p))
    ensures var w := After(day, run, lim).value;
            var q, w' := w.procs[p], Do(w, CheckQuota(p), lim);
            && (w'.log == w.log && Enabled(w', Gate(p, true)) && Enabled(w', Gate(p, false))
                <==> StartedOn(OfCaller, w.log, q.caller, w.day) < lim.perCaller && q.engine in lim.perEngine
                     && StartedOn(OfEngine, w.log, q.engine, w.day) < lim.perEngine[q.engine])
            && (w'.log == w.log || Refused(w', p))
  {
    var w := After(day, run, lim).value;
    var q := w.procs[p];
    CountedAreStarted(day, run, lim, OfCaller, q.caller, w.day);
    CountedAreStarted(day, run, lim, OfEngine, q.engine, w.day);
    CheckFacts(w, lim, p);
    NotYetLaunched(day, run, lim, p, CheckQuota(p));
    hide After, Do, Enabled, SentBy, SentTo, StartedOn, Refused, Block, Launched;
    if QuotaProblem(w.log, w.day, q.caller, q.engine, lim).Some? {
      BlockRefuses(w, p);
    }
  }

  lemma CheckFacts(w: World, lim: Limits, p: nat)
    requires Enabled(w, CheckQuota(p))
    ensures var q, w' := w.procs[p], Do(w, CheckQuota(p), lim);
            p in w.procs
            && if QuotaProblem(w.log, w.day, q.caller, q.engine, lim).Some? then w' == Block(w, p) && w'.log != w.log
            else w'.log == w.log && Enabled(w', Gate(p, true)) && Enabled(w', Gate(p, false))
  {
    hide QuotaProblem;
  }

}
