/** The pace arithmetic and the alert gate of scripts/usage-collect.py, over exact real numbers. */
module UsageAlerts {
  import opened Options

  // ---- pace ----

  datatype Pace = Pace(elapsedFraction: real, usedFraction: real, ratio: Option<real>, remaining: real, resetsAt: real,
                       exhaustion: Option<real>)

  const TINY: real := 0.000001

  function Clamp(x: real): real { if x < 0.0 then 0.0 else if x > 1.0 then 1.0 else x }

  /** The pace of one window; a missing percentage, reset time or length gives none. */
  function ComputePace(usedPercent: Option<real>, resetsAt: Option<real>, length: real, now: real): Option<Pace> {
    if usedPercent.None? || resetsAt.None? || length == 0.0 then None
    else
      var remaining := resetsAt.value - now;
      var fraction := Clamp((length - remaining) / length);
      var elapsed := fraction * length;
      var used := if usedPercent.value < 0.0 then 0.0 else usedPercent.value / 100.0;
      var ratio := if fraction > TINY then Some(used / fraction) else None;
      var exhaustion :=
        if elapsed > TINY && used > 0.0 && used / elapsed > 0.0 then Some(now + (1.0 - used) / (used / elapsed))
        else None;
      Some(Pace(fraction, used, ratio, remaining, resetsAt.value, exhaustion))
  }

  // ---- the gate ----

  datatype Entry = Entry(active: bool, lastFired: Option<real>)

  const FRESH: Entry := Entry(false, None)

  datatype Kind = Cross | CrossRefire | Throttle

  predicate Due(last: Option<real>, now: real, refire: real) { last.Some? && now - last.value >= refire }

  function Fires(e: Entry, kind: Kind, now: real, refire: real): bool {
    match kind
    case Cross => !e.active
    case CrossRefire => !e.active || Due(e.lastFired, now, refire)
    case Throttle => e.lastFired.None? || Due(e.lastFired, now, refire)
  }

  function Step(e: Entry, condition: bool, kind: Kind, now: real, refire: real): (Entry, bool) {
    if !condition then (FRESH, false)
    else
      var fire := Fires(e, kind, now, refire);
      (Entry(true, if fire then Some(now) else e.lastFired), fire)
  }

  // ---- the alerts ----

  datatype Alarm = Near | Over | Under

  datatype Key = Key(scope: string, alarm: Alarm)

  datatype Window = Window(scope: string, usedPercent: Option<real>, resetsAt: Option<real>, length: real)

  type Entries = map<Key, Entry>

  const OVER_RATIO: real := 1.5
  const UNDER_RATIO: real := 0.5
  const MIN_ELAPSED: real := 0.15
  const NEAR: real := 0.92
  const NEAR_REFIRE: real := 2700.0
  const OVER_REFIRE: real := 2700.0
  const UNDER_REFIRE: real := 43200.0
  const UNDER_MIN_LENGTH: real := 86400.0

  function EntryOf(entries: Entries, key: Key): Entry { if key in entries then entries[key] else FRESH }

  predicate Early(p: Pace) { p.ratio.None? || p.elapsedFraction < MIN_ELAPSED }

  predicate RunsOut(p: Pace) { p.exhaustion.Some? && p.exhaustion.value < p.resetsAt }

  /** What a window's condition for an alarm is, or that it is not evaluated. */
  function Condition(w: Window, p: Pace, alarm: Alarm): Option<bool> {
    match alarm
    case Near => Some(p.usedFraction >= NEAR)
    case Over => Some(!Early(p) && p.ratio.value >= OVER_RATIO && RunsOut(p))
    case Under =>
      if w.length < UNDER_MIN_LENGTH then None else Some(!Early(p) && p.ratio.value <= UNDER_RATIO)
  }

  function KindOf(alarm: Alarm): Kind { if alarm == Under then Throttle else CrossRefire }

  function Refire(alarm: Alarm): real {
    match alarm case Near => NEAR_REFIRE case Over => OVER_REFIRE case Under => UNDER_REFIRE
  }

  /** One alarm of one window: its entry moves on and the alert is appended if it fires. */
  function AlarmTurn(at: (Entries, seq<Key>), w: Window, p: Pace, alarm: Alarm, now: real): (Entries, seq<Key>) {
    var condition, key := Condition(w, p, alarm), Key(w.scope, alarm);
    if condition.None? then at
    else
      var (e, fire) := Step(EntryOf(at.0, key), condition.value, KindOf(alarm), now, Refire(alarm));
      (at.0[key := e], if fire then at.1 + [key] else at.1)
  }

  function WindowTurn(at: (Entries, seq<Key>), w: Window, now: real): (Entries, seq<Key>) {
    var pace := ComputePace(w.usedPercent, w.resetsAt, w.length, now);
    if pace.None? then at
    else
      var p := pace.value;
      AlarmTurn(AlarmTurn(AlarmTurn(at, w, p, Near, now), w, p, Over, now), w, p, Under, now)
  }

  function Evaluate(entries: Entries, windows: seq<Window>, now: real): (Entries, seq<Key>) {
    if windows == [] then (entries, [])
    else WindowTurn(Evaluate(entries, windows[..|windows| - 1], now), windows[|windows| - 1], now)
  }

  class AlertState {
    var entries: Entries

    method ShouldFire(key: Key, condition: bool, kind: Kind, now: real, refire: real) returns (fire: bool)
      modifies this
      ensures (EntryOf(entries, key), fire) == Step(EntryOf(old(entries), key), condition, kind, now, refire)
      ensures entries == old(entries)[key := EntryOf(entries, key)]
    {
      var entry := EntryOf(entries, key);
      fire := false;
      if condition {
        if kind == Cross {
          fire := !entry.active;
        } else if kind == CrossRefire {
          if !entry.active {
            fire := true;
          } else if entry.lastFired.Some? && now - entry.lastFired.value >= refire {
            fire := true;
          }
        } else {
          fire := entry.lastFired.None? || now - entry.lastFired.value >= refire;
        }
        entry := entry.(active := true);
        if fire { entry := entry.(lastFired := Some(now)); }
      } else {
        entry := entry.(active := false);
        entry := entry.(lastFired := None);
      }
      entries := entries[key := entry];
    }

    /** One run over all windows; an alert is named by its window and alarm. */
    method ComputeAlerts(windows: seq<Window>, now: real) returns (alerts: seq<Key>)
      modifies this
      ensures (entries, alerts) == Evaluate(old(entries), windows, now)
    {
      hide WindowTurn;
      alerts := [];
      for k := 0 to |windows|
        invariant (entries, alerts) == Evaluate(old(entries), windows[..k], now)
      {
        assert windows[..k + 1][..k] == windows[..k];
        alerts := OneWindow(windows[k], now, alerts);
      }
      assert windows[..|windows|] == windows;
    }

    method OneWindow(w: Window, now: real, before: seq<Key>) returns (alerts: seq<Key>)
      modifies this
      ensures (entries, alerts) == WindowTurn((old(entries), before), w, now)
    {
      hide ComputePace, Step;
      alerts := before;
      var pace := ComputePace(w.usedPercent, w.resetsAt, w.length, now);
      if pace.None? { return; }
      var p := pace.value;
      var fire := ShouldFire(Key(w.scope, Near), p.usedFraction >= NEAR, CrossRefire, now, NEAR_REFIRE);
      if fire { alerts := alerts + [Key(w.scope, Near)]; }
      assert (entries, alerts) == AlarmTurn((old(entries), before), w, p, Near, now);
      if p.ratio.None? || p.elapsedFraction < MIN_ELAPSED {
        NeverOnFalse(EntryOf(entries, Key(w.scope, Over)), CrossRefire, now, OVER_REFIRE);
        fire := ShouldFire(Key(w.scope, Over), false, CrossRefire, now, OVER_REFIRE);
        if w.length >= UNDER_MIN_LENGTH {
          NeverOnFalse(EntryOf(entries, Key(w.scope, Under)), Throttle, now, UNDER_REFIRE);
          fire := ShouldFire(Key(w.scope, Under), false, Throttle, now, UNDER_REFIRE);
        }
        return;
      }
      var over := p.ratio.value >= OVER_RATIO && p.exhaustion.Some? && p.exhaustion.value < p.resetsAt;
      fire := ShouldFire(Key(w.scope, Over), over, CrossRefire, now, OVER_REFIRE);
      if fire { alerts := alerts + [Key(w.scope, Over)]; }
      if w.length >= UNDER_MIN_LENGTH {
        fire := ShouldFire(Key(w.scope, Under), p.ratio.value <= UNDER_RATIO, Throttle, now, UNDER_REFIRE);
        if fire { alerts := alerts + [Key(w.scope, Under)]; }
      }
    }
  }

  lemma NeverOnFalse(e: Entry, kind: Kind, now: real, refire: real)
    ensures Step(e, false, kind, now, refire) == (FRESH, false)
  {}

  // ---- the gate over runs ----

  predicate Sound(e: Entry) { e.active <==> e.lastFired.Some? }

  /** The two refiring kinds decide alike at every time exactly on an entry that is active when it has fired. */
  lemma {:induction false} KindsAgreeExactly(e: Entry)
    ensures Sound(e)
       <==> forall now: real, refire: real :: Fires(e, CrossRefire, now, refire) == Fires(e, Throttle, now, refire)
  {
    if !Sound(e) && e.lastFired.Some? {
      assert Fires(e, CrossRefire, e.lastFired.value, 1.0) && !Fires(e, Throttle, e.lastFired.value, 1.0);
    } else if !Sound(e) {
      assert !Fires(e, CrossRefire, 0.0, 1.0) && Fires(e, Throttle, 0.0, 1.0);
    }
  }

  /** One evaluation of a key. */
  datatype Obs = Obs(now: real, condition: bool)

  predicate InOrder(obs: seq<Obs>) { forall i, j :: 0 <= i < j < |obs| ==> obs[i].now <= obs[j].now }

  /** The entry after a run of evaluations, and the times at which it fired. */
  function Gate(obs: seq<Obs>, kind: Kind, refire: real): (Entry, seq<real>) {
    if obs == [] then (FRESH, [])
    else
      var (e, fired), o := Gate(obs[..|obs| - 1], kind, refire), obs[|obs| - 1];
      var (e', fire) := Step(e, o.condition, kind, o.now, refire);
      (e', if fire then fired + [o.now] else fired)
  }

  /** In every state a run reaches, a key is active exactly if it has a last-fired time, and that is its last alert. */
  lemma {:induction false} ActiveExactlyWhenFired(obs: seq<Obs>, kind: Kind, refire: real)
    ensures var (e, fired) := Gate(obs, kind, refire);
            Sound(e) && (e.active <==> obs != [] && obs[|obs| - 1].condition)
            && (e.active ==> fired != [] && e.lastFired == Some(fired[|fired| - 1]))
  {
    if obs != [] { ActiveExactlyWhenFired(obs[..|obs| - 1], kind, refire); }
  }

  /** So the two refiring kinds behave alike over every run. */
  lemma {:induction false} KindsAgree(obs: seq<Obs>, refire: real)
    ensures Gate(obs, CrossRefire, refire) == Gate(obs, Throttle, refire)
  {
    if obs != [] {
      KindsAgree(obs[..|obs| - 1], refire);
      ActiveExactlyWhenFired(obs[..|obs| - 1], Throttle, refire);
      KindsAgreeExactly(Gate(obs[..|obs| - 1], Throttle, refire).0);
    }
  }

  /** How many unbroken true stretches a run has. */
  function Stretches(obs: seq<Obs>): nat {
    if obs == [] then 0
    else
      var n := |obs| - 1;
      Stretches(obs[..n]) + if obs[n].condition && (n == 0 || !obs[n - 1].condition) then 1 else 0
  }

  function Worth(n: int, refire: real): real { n as real * refire }

  lemma OneMore(n: int, refire: real)
    ensures Worth(n + 1, refire) == Worth(n, refire) + refire && Worth(0, refire) == 0.0
  {}

  /** The last alert of a stretch that goes on, or else the time of the last evaluation. */
  function End(e: Entry, last: real): real { if e.lastFired.Some? then e.lastFired.value else last }

  /** A fire that opens no stretch comes a refire time after the one before. */
  lemma BudgetStep(e: Entry, condition: bool, kind: Kind, now: real, refire: real, extra: int, start: real, last: real)
    requires Sound(e) && refire >= 0.0 && End(e, last) <= last <= now
    requires Worth(extra, refire) <= End(e, last) - start
    ensures var (e', fire) := Step(e, condition, kind, now, refire);
            var extra' := extra + (if fire then 1 else 0) - if condition && !e.active then 1 else 0;
            Worth(extra', refire) <= End(e', now) - start && End(e', now) <= now
  {
    OneMore(extra, refire);
    hide Worth;
  }

  lemma GateOn(obs: seq<Obs>, kind: Kind, refire: real)
    requires obs != []
    ensures var n := |obs| - 1;
            var (e, fired) := Gate(obs[..n], kind, refire);
            var (e', fire) := Step(e, obs[n].condition, kind, obs[n].now, refire);
            Gate(obs, kind, refire) == (e', if fire then fired + [obs[n].now] else fired)
            && Stretches(obs) == Stretches(obs[..n]) + (if obs[n].condition && !e.active then 1 else 0)
            && Sound(e)
  {
    ActiveExactlyWhenFired(obs[..|obs| - 1], kind, refire);
  }

  lemma {:induction false} FiresWithinBudget(obs: seq<Obs>, kind: Kind, refire: real)
    requires obs != [] && InOrder(obs) && refire >= 0.0
    ensures var (e, fired) := Gate(obs, kind, refire);
            End(e, obs[|obs| - 1].now) <= obs[|obs| - 1].now
            && Worth(|fired| - Stretches(obs), refire) <= End(e, obs[|obs| - 1].now) - obs[0].now
  {
    var n := |obs| - 1;
    var last := if n == 0 then obs[0].now else obs[n - 1].now;
    if n == 0 {
      assert obs[..0] == [] && Gate([], kind, refire) == (FRESH, []) && Stretches([]) == 0;
    } else {
      FiresWithinBudget(obs[..n], kind, refire);
    }
    GateOn(obs, kind, refire);
    OneMore(0, refire);
    hide Gate, Stretches, Step, Sound, Worth;
    var (e, fired) := Gate(obs[..n], kind, refire);
    BudgetStep(e, obs[n].condition, kind, obs[n].now, refire, |fired| - Stretches(obs[..n]), obs[0].now, last);
  }

  /** A key fires at most once for each unbroken true stretch and once more for each whole refire time that passes; so
      one stretch of length T fires at most 1 + T / refire times. */
  lemma {:induction false} AlertBudget(obs: seq<Obs>, kind: Kind, refire: real)
    requires obs != [] && InOrder(obs) && refire > 0.0
    ensures |Gate(obs, kind, refire).1| as real
         <= Stretches(obs) as real + (obs[|obs| - 1].now - obs[0].now) / refire
  {
    FiresWithinBudget(obs, kind, refire);
    Divided((|Gate(obs, kind, refire).1| - Stretches(obs)) as real, obs[|obs| - 1].now - obs[0].now, refire);
  }

  lemma Divided(n: real, t: real, refire: real)
    requires refire > 0.0 && n * refire <= t
    ensures n <= t / refire
  {
    assert t / refire * refire == t;
    if n > t / refire { Product(n, t / refire, refire); }
  }

  lemma Product(a: real, b: real, c: real)
    requires a > b && c > 0.0
    ensures a * c > b * c
  {}

  /** In an unbroken stretch alerts are at least the refire time apart, and never longer than that from the last. */
  lemma {:induction false} StretchIsCovered(obs: seq<Obs>, kind: Kind, refire: real)
    requires obs != [] && kind != Cross && refire > 0.0 && forall k :: 0 <= k < |obs| ==> obs[k].condition
    ensures var fired := Gate(obs, kind, refire).1;
            fired != [] && fired[0] == obs[0].now && obs[|obs| - 1].now - fired[|fired| - 1] < refire
            && forall k :: 0 < k < |fired| ==> fired[k] - fired[k - 1] >= refire
  {
    var n := |obs| - 1;
    assert Gate([], kind, refire) == (FRESH, []);
    if n > 0 {
      StretchIsCovered(obs[..n], kind, refire);
      ActiveExactlyWhenFired(obs[..n], kind, refire);
    } else {
      assert obs[..n] == [];
    }
  }

  lemma {:induction false} GateRestarts(a: seq<Obs>, b: seq<Obs>, kind: Kind, refire: real)
    requires Gate(a, kind, refire).0 == FRESH
    ensures Gate(a + b, kind, refire) == (Gate(b, kind, refire).0, Gate(a, kind, refire).1 + Gate(b, kind, refire).1)
  {
    var fired := Gate(a, kind, refire).1;
    if b == [] {
      assert a + b == a && fired + [] == fired;
    } else {
      var before, o := b[..|b| - 1], b[|b| - 1];
      GateRestarts(a, before, kind, refire);
      assert a + b == (a + before) + [o] && b == before + [o];
      GateAppends(a + before, o, kind, refire);
      GateAppends(before, o, kind, refire);
      hide Gate, Step;
      assert fired + Gate(before, kind, refire).1 + [o.now] == fired + (Gate(before, kind, refire).1 + [o.now]);
    }
  }

  lemma GateAppends(obs: seq<Obs>, o: Obs, kind: Kind, refire: real)
    ensures var (e, fired) := Gate(obs, kind, refire);
            var (e', fire) := Step(e, o.condition, kind, o.now, refire);
            Gate(obs + [o], kind, refire) == (e', if fire then fired + [o.now] else fired)
  {
    assert (obs + [o])[..|obs|] == obs;
  }

  /** A false evaluation between two parts of a run parts their alerts too. */
  lemma {:induction false} GateRestartsAfterFalse(a: seq<Obs>, now: real, b: seq<Obs>, kind: Kind, refire: real)
    ensures Gate(a + [Obs(now, false)] + b, kind, refire)
         == (Gate(b, kind, refire).0, Gate(a, kind, refire).1 + Gate(b, kind, refire).1)
  {
    GateAppends(a, Obs(now, false), kind, refire);
    GateRestarts(a + [Obs(now, false)], b, kind, refire);
  }

  lemma {:induction false} AlertsOnlyAdded(a: seq<Obs>, b: seq<Obs>, kind: Kind, refire: real)
    ensures Gate(a, kind, refire).1 <= Gate(a + b, kind, refire).1
  {
    if b == [] {
      assert a + b == a;
    } else {
      var before := b[..|b| - 1];
      AlertsOnlyAdded(a, before, kind, refire);
      assert a + b == (a + before) + [b[|b| - 1]];
      GateAppends(a + before, b[|b| - 1], kind, refire);
    }
  }

  /** The evaluations from `i` to `j` are an unbroken true stretch that starts at `i`. */
  predicate StretchAt(obs: seq<Obs>, i: nat, j: nat) {
    i < j <= |obs| && (i > 0 ==> !obs[i - 1].condition) && forall k :: i <= k < j ==> obs[k].condition
  }

  lemma {:induction false} OneStretch(obs: seq<Obs>)
    requires obs != [] && forall k :: 0 <= k < |obs| ==> obs[k].condition
    ensures Stretches(obs) == 1
  {
    if |obs| == 1 {
      assert obs[..0] == [];
    } else {
      OneStretch(obs[..|obs| - 1]);
    }
  }

  lemma StretchIsAdded(obs: seq<Obs>, i: nat, j: nat, kind: Kind, refire: real)
    requires StretchAt(obs, i, j)
    ensures Gate(obs[..j], kind, refire).1 == Gate(obs[..i], kind, refire).1 + Gate(obs[i..j], kind, refire).1
    ensures Gate(obs[..j], kind, refire).1 <= Gate(obs, kind, refire).1
  {
    assert Gate([], kind, refire) == (FRESH, []);
    if i > 0 {
      assert obs[..i] == obs[..i - 1] + [obs[i - 1]];
      GateAppends(obs[..i - 1], obs[i - 1], kind, refire);
    } else {
      assert obs[..i] == [];
    }
    assert obs[..j] == obs[..i] + obs[i..j] && obs == obs[..j] + obs[j..];
    GateRestarts(obs[..i], obs[i..j], kind, refire);
    AlertsOnlyAdded(obs[..j], obs[j..], kind, refire);
  }

  /** An unbroken true stretch anywhere in a run: its alerts follow those before it, the first comes at once, they are
      at least the refire time apart, the last is never older than that, and over a stretch of length T there are at
      most 1 + T / refire of them. */
  lemma {:induction false} StretchAnywhere(obs: seq<Obs>, i: nat, j: nat, kind: Kind, refire: real)
    returns (fired: seq<real>)
    requires InOrder(obs) && StretchAt(obs, i, j) && kind != Cross && refire > 0.0
    ensures Gate(obs[..j], kind, refire).1 == Gate(obs[..i], kind, refire).1 + fired
    ensures Gate(obs[..j], kind, refire).1 <= Gate(obs, kind, refire).1
    ensures fired != [] && fired[0] == obs[i].now && obs[j - 1].now - fired[|fired| - 1] < refire
    ensures forall k :: 0 < k < |fired| ==> fired[k] - fired[k - 1] >= refire
    ensures |fired| as real <= 1.0 + (obs[j - 1].now - obs[i].now) / refire
  {
    var part := obs[i..j];
    fired := Gate(part, kind, refire).1;
    PartOf(obs, i, j);
    hide *;
    StretchIsAdded(obs, i, j, kind, refire);
    StretchIsCovered(part, kind, refire);
    StretchBudget(part, kind, refire);
  }

  lemma PartOf(obs: seq<Obs>, i: nat, j: nat)
    requires InOrder(obs) && StretchAt(obs, i, j)
    ensures i < j <= |obs|
    ensures var part := obs[i..j];
            && |part| == j - i && part[0] == obs[i] && part[|part| - 1] == obs[j - 1]
            && InOrder(part) && forall k :: 0 <= k < |part| ==> part[k].condition
  {}

  lemma StretchBudget(obs: seq<Obs>, kind: Kind, refire: real)
    requires obs != [] && InOrder(obs) && refire > 0.0 && forall k :: 0 <= k < |obs| ==> obs[k].condition
    ensures |Gate(obs, kind, refire).1| as real <= 1.0 + (obs[|obs| - 1].now - obs[0].now) / refire
  {
    OneStretch(obs);
    hide *;
    AlertBudget(obs, kind, refire);
  }

  // ---- the gate inside the alert run ----

  /** The condition a poll of these windows evaluates a key with, if it evaluates it. */
  function Polled(windows: seq<Window>, now: real, key: Key): Option<bool> {
    if windows == [] then None
    else
      var w := windows[|windows| - 1];
      var pace := ComputePace(w.usedPercent, w.resetsAt, w.length, now);
      if w.scope != key.scope || pace.None? then Polled(windows[..|windows| - 1], now, key)
      else Condition(w, pace.value, key.alarm)
  }

  predicate OwnScopes(windows: seq<Window>) {
    forall i, j :: 0 <= i < j < |windows| ==> windows[i].scope != windows[j].scope
  }

  /** What a poll does to a key, given the condition it evaluates. */
  predicate KeyMoves(before: Entries, after: (Entries, seq<Key>), key: Key, condition: Option<bool>, now: real) {
    if condition.None? then EntryOf(after.0, key) == EntryOf(before, key) && key !in after.1
    else
      var (e, fire) := Step(EntryOf(before, key), condition.value, KindOf(key.alarm), now, Refire(key.alarm));
      EntryOf(after.0, key) == e && (key in after.1 <==> fire)
  }

  lemma TurnMovesKey(at: (Entries, seq<Key>), w: Window, now: real, key: Key)
    ensures var pace, after := ComputePace(w.usedPercent, w.resetsAt, w.length, now), WindowTurn(at, w, now);
            if w.scope != key.scope || pace.None? then
              EntryOf(after.0, key) == EntryOf(at.0, key) && (key in after.1 <==> key in at.1)
            else key !in at.1 ==> KeyMoves(at.0, after, key, Condition(w, pace.value, key.alarm), now)
  {
    hide ComputePace, AlarmTurn, Step, Condition;
    var pace := ComputePace(w.usedPercent, w.resetsAt, w.length, now);
    if pace.Some? {
      var a := AlarmTurn(at, w, pace.value, Near, now);
      var b := AlarmTurn(a, w, pace.value, Over, now);
      AlarmMovesKey(at, w, pace.value, Near, now, key);
      AlarmMovesKey(a, w, pace.value, Over, now, key);
      AlarmMovesKey(b, w, pace.value, Under, now, key);
    }
  }

  lemma AlarmMovesKey(at: (Entries, seq<Key>), w: Window, p: Pace, alarm: Alarm, now: real, key: Key)
    ensures var after := AlarmTurn(at, w, p, alarm, now);
            if key != Key(w.scope, alarm) then
              EntryOf(after.0, key) == EntryOf(at.0, key) && (key in after.1 <==> key in at.1)
            else key !in at.1 ==> KeyMoves(at.0, after, key, Condition(w, p, alarm), now)
  {
    hide Step, Condition;
  }

  lemma {:induction false} NotPolled(windows: seq<Window>, now: real, key: Key)
    requires forall k :: 0 <= k < |windows| ==> windows[k].scope != key.scope
    ensures Polled(windows, now, key) == None
  {
    if windows != [] { NotPolled(windows[..|windows| - 1], now, key); }
  }

  /** Each key of a poll moves by its own condition alone: windows and alarms do not disturb one another. */
  lemma {:induction false} PollMovesKey(entries: Entries, windows: seq<Window>, now: real, key: Key)
    requires OwnScopes(windows)
    ensures KeyMoves(entries, Evaluate(entries, windows, now), key, Polled(windows, now, key), now)
  {
    if windows != [] {
      var before, w := windows[..|windows| - 1], windows[|windows| - 1];
      PollMovesKey(entries, before, now, key);
      hide WindowTurn, ComputePace, Step, Condition;
      TurnMovesKey(Evaluate(entries, before, now), w, now, key);
      if w.scope == key.scope { NotPolled(before, now, key); }
    }
  }

  datatype Poll = Poll(windows: seq<Window>, now: real)

  function AfterPolls(polls: seq<Poll>): Entries {
    if polls == [] then map[]
    else
      var last := polls[|polls| - 1];
      Evaluate(AfterPolls(polls[..|polls| - 1]), last.windows, last.now).0
  }

  /** When a key's alert was printed. */
  function AlertTimes(polls: seq<Poll>, key: Key): seq<real> {
    if polls == [] then []
    else
      var before, last := polls[..|polls| - 1], polls[|polls| - 1];
      AlertTimes(before, key) + if key in Evaluate(AfterPolls(before), last.windows, last.now).1 then [last.now] else []
  }

  function Observed(polls: seq<Poll>, key: Key): seq<Obs> {
    if polls == [] then []
    else
      var last := polls[|polls| - 1];
      var condition := Polled(last.windows, last.now, key);
      Observed(polls[..|polls| - 1], key) + if condition.Some? then [Obs(last.now, condition.value)] else []
  }

  /** Over any polls from an empty state, a key's alerts are those of the gate on its own observations. */
  lemma {:induction false} AlertsAreGated(polls: seq<Poll>, key: Key)
    requires forall k :: 0 <= k < |polls| ==> OwnScopes(polls[k].windows)
    ensures (EntryOf(AfterPolls(polls), key), AlertTimes(polls, key))
         == (if key.alarm == Under then Gate(Observed(polls, key), Throttle, 43200.0)
             else Gate(Observed(polls, key), CrossRefire, 2700.0))
  {
    GatedAsNamed(polls, key);
  }

  lemma {:induction false} GatedAsNamed(polls: seq<Poll>, key: Key)
    requires forall k :: 0 <= k < |polls| ==> OwnScopes(polls[k].windows)
    ensures (EntryOf(AfterPolls(polls), key), AlertTimes(polls, key))
         == Gate(Observed(polls, key), KindOf(key.alarm), Refire(key.alarm))
  {
    if polls == [] {
      assert Gate([], KindOf(key.alarm), Refire(key.alarm)) == (FRESH, []);
    } else {
      var before, last := polls[..|polls| - 1], polls[|polls| - 1];
      GatedAsNamed(before, key);
      PollMovesKey(AfterPolls(before), last.windows, last.now, key);
      PollAppends(polls, key);
      var obs, condition := Observed(before, key), Polled(last.windows, last.now, key);
      if condition.Some? {
        GateAppends(obs, Obs(last.now, condition.value), KindOf(key.alarm), Refire(key.alarm));
      }
      hide Observed, AfterPolls, AlertTimes, Evaluate, Polled, Step, Gate, KindOf, Refire, EntryOf;
    }
  }

  lemma PollAppends(polls: seq<Poll>, key: Key)
    requires polls != []
    ensures var before, last := polls[..|polls| - 1], polls[|polls| - 1];
            var condition := Polled(last.windows, last.now, key);
            var after := Evaluate(AfterPolls(before), last.windows, last.now);
            && AfterPolls(polls) == after.0
            && AlertTimes(polls, key) == (if key in after.1 then AlertTimes(before, key) + [last.now]
                                          else AlertTimes(before, key))
            && Observed(polls, key) == (if condition.Some? then Observed(before, key) + [Obs(last.now, condition.value)]
                                        else Observed(before, key))
  {
    hide Evaluate, Polled;
  }

  // ---- the arithmetic ----

  /** The elapsed share of a window lies between 0 and 1. */
  lemma {:induction false} ElapsedIsAShare(used: real, resetsAt: real, length: real, now: real)
    requires length != 0.0
    ensures var p := ComputePace(Some(used), Some(resetsAt), length, now).value;
            0.0 <= p.elapsedFraction <= 1.0 && p.usedFraction >= 0.0
            && (length > 0.0 && 0.0 <= p.remaining <= length ==> p.elapsedFraction * length == length - p.remaining)
  {}

  /** With x > 0: now + (1 - u) / (u / x) lies before now + r exactly if x < u * (x + r). */
  lemma BurnsOut(u: real, x: real, r: real)
    requires u > 0.0 && x > 0.0
    ensures u / x > 0.0 && ((1.0 - u) / (u / x) < r <==> x < u * (x + r))
  {
    var b := u / x;
    assert b * x == u;
    var q := (1.0 - u) / b;
    assert q * b == 1.0 - u;
    if q < r { Product(r, q, b); }
    if q > r { Product(q, r, b); }
    assert q < r <==> 1.0 - u < r * b;
    if 1.0 - u < r * b { Product(r * b, 1.0 - u, x); }
    if 1.0 - u > r * b { Product(1.0 - u, r * b, x); }
    assert r * b * x == r * u;
  }

  /** The projected exhaustion comes before the reset exactly if the elapsed time is less than the used share of the
      elapsed and remaining time; while the time left lies inside the window that is a pace above 1. */
  lemma {:induction false} ExhaustsBeforeReset(used: real, resetsAt: real, length: real, now: real)
    requires length > 0.0
    requires var p := ComputePace(Some(used), Some(resetsAt), length, now).value; p.exhaustion.Some?
    ensures var p := ComputePace(Some(used), Some(resetsAt), length, now).value;
            var elapsed := p.elapsedFraction * length;
            && (RunsOut(p) <==> elapsed < p.usedFraction * (elapsed + p.remaining))
            && (0.0 <= p.remaining <= length && p.ratio.Some? ==> (RunsOut(p) <==> p.ratio.value > 1.0))
  {
    var p := ComputePace(Some(used), Some(resetsAt), length, now).value;
    var elapsed := p.elapsedFraction * length;
    ElapsedIsAShare(used, resetsAt, length, now);
    ExhaustionIs(used, resetsAt, length, now);
    hide ComputePace, RunsOut;
    Projected(p.usedFraction, p.elapsedFraction, length, p.remaining);
  }

  lemma Projected(u: real, f: real, length: real, r: real)
    requires u > 0.0 && f * length > 0.0 && length > 0.0
    ensures f > 0.0 && ((1.0 - u) / (u / (f * length)) < r <==> f * length < u * (f * length + r))
    ensures f * length == length - r ==> ((1.0 - u) / (u / (f * length)) < r <==> u / f > 1.0)
  {
    BurnsOut(u, f * length, r);
    if f <= 0.0 { NotPositive(f, length); }
    AbovePace(u, f, length);
  }

  lemma NotPositive(f: real, length: real)
    requires f <= 0.0 && length > 0.0
    ensures f * length <= 0.0
  {}

  lemma ExhaustionIs(used: real, resetsAt: real, length: real, now: real)
    requires length > 0.0
    requires var p := ComputePace(Some(used), Some(resetsAt), length, now).value; p.exhaustion.Some?
    ensures var p := ComputePace(Some(used), Some(resetsAt), length, now).value;
            var elapsed := p.elapsedFraction * length;
            && elapsed > 0.0 && p.usedFraction > 0.0 && p.usedFraction / elapsed > 0.0
            && (RunsOut(p) <==> (1.0 - p.usedFraction) / (p.usedFraction / elapsed) < p.remaining)
            && (p.ratio.Some? ==> p.elapsedFraction > 0.0 && p.ratio.value == p.usedFraction / p.elapsedFraction)
  {}

  lemma AbovePace(u: real, f: real, length: real)
    requires f > 0.0 && length > 0.0
    ensures u / f > 1.0 <==> f * length < u * length
  {
    var q := u / f;
    assert q * f == u;
    if q > 1.0 { Product(q, 1.0, f); Product(u, f, length); }
    if q < 1.0 { Product(1.0, q, f); Product(f, u, length); }
  }

  /** A window past its reset has elapsed whole; one whose reset lies ahead, and not all of it, has its share left. */
  lemma ElapsedPart(resetsAt: real, length: real, now: real)
    requires length > 0.0
    ensures var remaining, fraction := resetsAt - now, Clamp((length - (resetsAt - now)) / length);
            (remaining < 0.0 ==> fraction == 1.0) && (fraction > 0.0 ==> remaining < length)
  {
    var q := (length - (resetsAt - now)) / length;
    assert q * length == length - (resetsAt - now);
    if resetsAt - now < 0.0 && q <= 1.0 { AtMost(q, length); }
    if resetsAt - now >= length && q > 0.0 { Product(q, 0.0, length); }
  }

  lemma AtMost(q: real, length: real)
    requires q <= 1.0 && length > 0.0
    ensures q * length <= length
  {}

  /** OVERUSE, for every window at every time. The first test is a pace of at least 1.5 after the early part. The second
      adds to it, beside some elapsed time to extrapolate from, exactly this: the reset has not passed, or
      length < used * (length - time since the reset). */
  lemma {:induction false} OveruseTests(w: Window, now: real)
    requires w.usedPercent.Some? && w.resetsAt.Some? && w.length != 0.0
    ensures var p := ComputePace(w.usedPercent, w.resetsAt, w.length, now).value;
            Condition(w, p, Over)
            == Some(!Early(p) && p.ratio.value >= OVER_RATIO && p.elapsedFraction * w.length > TINY
                    && (p.remaining >= 0.0 || w.length < p.usedFraction * (w.length + p.remaining)))
  {
    var p := ComputePace(w.usedPercent, w.resetsAt, w.length, now).value;
    if !Early(p) && p.ratio.value >= OVER_RATIO {
      ExhaustionKnown(w, now);
      if p.exhaustion.Some? {
        ElapsedOf(w, now);
        ExhaustsBeforeReset(w.usedPercent.value, w.resetsAt.value, w.length, now);
        hide ComputePace, RunsOut;
        Left(p.elapsedFraction, w.length, p.usedFraction, p.remaining);
      }
    }
  }

  /** An overpaced window has a projected exhaustion exactly if some of it has elapsed. */
  lemma ExhaustionKnown(w: Window, now: real)
    requires w.usedPercent.Some? && w.resetsAt.Some? && w.length != 0.0
    requires var p := ComputePace(w.usedPercent, w.resetsAt, w.length, now).value;
             !Early(p) && p.ratio.value >= OVER_RATIO
    ensures var p := ComputePace(w.usedPercent, w.resetsAt, w.length, now).value;
            (p.exhaustion.Some? <==> p.elapsedFraction * w.length > TINY) && (p.exhaustion.Some? ==> w.length > 0.0)
  {
    var p := ComputePace(w.usedPercent, w.resetsAt, w.length, now).value;
    var f, u, elapsed := p.elapsedFraction, p.usedFraction, p.elapsedFraction * w.length;
    if w.length < 0.0 { NotPositive(w.length, f); }
    PaceIsPositive(u, f);
    if elapsed > TINY { BurnsOut(u, elapsed, 0.0); }
  }

  lemma PaceIsPositive(u: real, f: real)
    requires f > 0.0 && u / f >= OVER_RATIO
    ensures u > 0.0
  {
    assert u / f * f == u;
    Product(u / f, 0.0, f);
  }

  lemma ElapsedOf(w: Window, now: real)
    requires w.usedPercent.Some? && w.resetsAt.Some? && w.length > 0.0
    ensures var p := ComputePace(w.usedPercent, w.resetsAt, w.length, now).value;
            && p.remaining == w.resetsAt.value - now
            && (p.remaining < 0.0 ==> p.elapsedFraction == 1.0)
            && (p.elapsedFraction > 0.0 ==> p.remaining < w.length)
  {
    ElapsedPart(w.resetsAt.value, w.length, now);
  }

  /** A whole window's elapsed time is its length. */
  lemma Left(f: real, length: real, u: real, r: real)
    requires r < 0.0 ==> f == 1.0
    ensures r < 0.0 ==> f * length == length
  {}

  /** While the time left lies inside a window of a second or more, the second test of OVERUSE follows from the
      first. */
  lemma {:induction false} OverusedExactly(w: Window, now: real)
    requires w.usedPercent.Some? && w.resetsAt.Some? && w.length >= 1.0 && 0.0 <= w.resetsAt.value - now <= w.length
    ensures var p := ComputePace(w.usedPercent, w.resetsAt, w.length, now).value;
            Condition(w, p, Over) == Some(!Early(p) && p.ratio.value >= OVER_RATIO)
  {
    var p := ComputePace(w.usedPercent, w.resetsAt, w.length, now).value;
    OveruseTests(w, now);
    ElapsedIsAShare(w.usedPercent.value, w.resetsAt.value, w.length, now);
    AtLeast(p.elapsedFraction, w.length);
  }

  lemma AtLeast(f: real, length: real)
    requires f >= 0.0 && length >= 1.0
    ensures f * length >= f
  {}

  /** The elapsed time of a window, between nothing and its length. */
  ghost function Elapsed(w: Window, now: real): real
    requires w.resetsAt.Some?
  {
    var passed := w.length - (w.resetsAt.value - now);
    if passed < 0.0 then 0.0 else if passed > w.length then w.length else passed
  }

  /** The used share; a negative percentage counts as none. */
  ghost function Used(w: Window): real
    requires w.usedPercent.Some?
  {
    if w.usedPercent.value < 0.0 then 0.0 else w.usedPercent.value / 100.0
  }

  lemma ElapsedShare(w: Window, now: real)
    requires w.usedPercent.Some? && w.resetsAt.Some? && w.length > 0.0
    ensures var p := ComputePace(w.usedPercent, w.resetsAt, w.length, now).value;
            && p.elapsedFraction * w.length == Elapsed(w, now)
            && p.remaining == w.resetsAt.value - now
            && p.usedFraction == Used(w)
            && (p.ratio.Some? <==> p.elapsedFraction > TINY)
            && (p.ratio.Some? ==> p.ratio.value == p.usedFraction / p.elapsedFraction)
  {
    ClampScaled(w.length - (w.resetsAt.value - now), w.length);
  }

  lemma ClampScaled(passed: real, length: real)
    requires length > 0.0
    ensures Clamp(passed / length) * length
         == if passed < 0.0 then 0.0 else if passed > length then length else passed
  {
    var q := passed / length;
    assert q * length == passed;
    Scaled(q, 0.0, length);
    Scaled(q, 1.0, length);
    if q < 0.0 {
      assert Clamp(q) == 0.0;
    } else if q > 1.0 {
      assert Clamp(q) == 1.0;
    }
  }

  /** Shares compared are times compared. */
  lemma SharesCompare(f: real, length: real, elapsed: real, c: real)
    requires length > 0.0 && f * length == elapsed
    ensures f < c <==> elapsed < c * length
  {
    Scaled(f, c, length);
  }

  ghost function Times(a: real, b: real): real { a * b }

  lemma PacesCompare(u: real, f: real, length: real, elapsed: real, r: real, c: real)
    requires length > 0.0 && f > 0.0 && Times(f, length) == elapsed && Times(r, f) == u
    ensures r >= c <==> Times(u, length) >= Times(c, elapsed)
    ensures r <= c <==> Times(u, length) <= Times(c, elapsed)
  {
    Scaled(r, c, f);
    Scaled(u, c * f, length);
    Scaled(c * f, u, length);
    assert c * f * length == c * elapsed;
  }

  lemma Scaled(a: real, b: real, c: real)
    requires c > 0.0
    ensures (a < b <==> a * c < b * c) && (a > b <==> a * c > b * c)
  {
    if a > b { Product(a, b, c); }
    if a < b { Product(b, a, c); }
  }

  lemma EarlyExactly(w: Window, now: real)
    requires w.usedPercent.Some? && w.resetsAt.Some? && w.length > 0.0
    ensures var p := ComputePace(w.usedPercent, w.resetsAt, w.length, now).value;
            Early(p) <==> Elapsed(w, now) < 0.15 * w.length
  {
    var p := ComputePace(w.usedPercent, w.resetsAt, w.length, now).value;
    ElapsedShare(w, now);
    SharesCompare(p.elapsedFraction, w.length, Elapsed(w, now), 0.15);
    hide ComputePace, Elapsed;
    assert p.ratio.None? ==> p.elapsedFraction < 0.15;
    assert Early(p) <==> p.elapsedFraction < 0.15;
  }

  /** Behind the early part there is a pace, and some time has elapsed. */
  lemma PaceKnown(w: Window, now: real)
    requires w.usedPercent.Some? && w.resetsAt.Some? && w.length >= 1.0
    ensures var p := ComputePace(w.usedPercent, w.resetsAt, w.length, now).value;
            !Early(p) ==>
              && p.ratio.Some? && p.elapsedFraction > 0.0 && p.elapsedFraction * w.length > TINY
              && Times(p.elapsedFraction, w.length) == Elapsed(w, now)
              && Times(p.ratio.value, p.elapsedFraction) == Used(w)
  {
    EarlyExactly(w, now);
    ElapsedShare(w, now);
    hide ComputePace, Elapsed, Used;
  }

  /** Behind the early part paces compare as the used and the elapsed share do. */
  lemma RatioExactly(w: Window, now: real, c: real)
    requires w.usedPercent.Some? && w.resetsAt.Some? && w.length >= 1.0
    ensures var p := ComputePace(w.usedPercent, w.resetsAt, w.length, now).value;
            !Early(p) ==>
              && p.ratio.Some?
              && (p.ratio.value >= c <==> Times(Used(w), w.length) >= Times(c, Elapsed(w, now)))
              && (p.ratio.value <= c <==> Times(Used(w), w.length) <= Times(c, Elapsed(w, now)))
  {
    var p := ComputePace(w.usedPercent, w.resetsAt, w.length, now).value;
    PaceKnown(w, now);
    hide *;
    if !Early(p) {
      PacesCompare(Used(w), p.elapsedFraction, w.length, Elapsed(w, now), p.ratio.value, c);
    }
  }

  lemma OverExactly(w: Window, now: real)
    requires w.usedPercent.Some? && w.resetsAt.Some? && w.length >= 1.0
    ensures var p := ComputePace(w.usedPercent, w.resetsAt, w.length, now).value;
            Condition(w, p, Over)
            == Some(!Early(p) && Times(Used(w), w.length) >= Times(1.5, Elapsed(w, now))
                    && (p.remaining >= 0.0 || w.length < Used(w) * (w.length + p.remaining)))
  {
    var p := ComputePace(w.usedPercent, w.resetsAt, w.length, now).value;
    OveruseTests(w, now);
    PaceKnown(w, now);
    ElapsedShare(w, now);
    RatioExactly(w, now, 1.5);
    hide *;
  }

  lemma UnderExactly(w: Window, now: real)
    requires w.usedPercent.Some? && w.resetsAt.Some? && w.length >= 1.0
    ensures var p := ComputePace(w.usedPercent, w.resetsAt, w.length, now).value;
            Condition(w, p, Under)
            == if w.length < 86400.0 then None
               else Some(!Early(p) && Times(Used(w), w.length) <= Times(0.5, Elapsed(w, now)))
  {
    var p := ComputePace(w.usedPercent, w.resetsAt, w.length, now).value;
    RatioExactly(w, now, 0.5);
    hide ComputePace, Elapsed, Used, RunsOut, Times;
  }

  /** The three alarms in numbers, for every window of a second or more at every time: near its end at 92 percent used;
      overused when, 15 percent of it or more having passed, at least one and a half times the elapsed share is used and
      the reset has not passed, or length < used * (length - time since the reset); underused, for a window of a day or
      more only, when at most half the elapsed share is. */
  lemma {:induction false} AlarmsExactly(w: Window, now: real)
    requires w.usedPercent.Some? && w.resetsAt.Some? && w.length >= 1.0
    ensures var p := ComputePace(w.usedPercent, w.resetsAt, w.length, now).value;
            var elapsed := Elapsed(w, now);
            && p.remaining == w.resetsAt.value - now
            && Condition(w, p, Near) == Some(Used(w) >= 0.92)
            && Condition(w, p, Over)
               == Some(elapsed >= 0.15 * w.length && Used(w) * w.length >= 1.5 * elapsed
                       && (p.remaining >= 0.0 || w.length < Used(w) * (w.length + p.remaining)))
            && Condition(w, p, Under)
               == (if w.length < 86400.0 then None
                   else Some(elapsed >= 0.15 * w.length && Used(w) * w.length <= 0.5 * elapsed))
  {
    var p := ComputePace(w.usedPercent, w.resetsAt, w.length, now).value;
    ElapsedShare(w, now);
    EarlyExactly(w, now);
    OverExactly(w, now);
    UnderExactly(w, now);
    assert Condition(w, p, Near) == Some(p.usedFraction >= 0.92);
    assert Times(Used(w), w.length) == Used(w) * w.length;
    assert Times(1.5, Elapsed(w, now)) == 1.5 * Elapsed(w, now);
    assert Times(0.5, Elapsed(w, now)) == 0.5 * Elapsed(w, now);
    hide *;
  }

  /** Past the reset it need not: a five-hour window at 150 percent, unrenewed 6000 seconds after its reset, meets the
      first test and not the second; a second after its reset it meets both. */
  lemma {:induction false} LateWindowDiffers()
    ensures var w := Window("claude_five_hour", Some(150.0), Some(0.0), 18000.0);
            var p, q := ComputePace(w.usedPercent, w.resetsAt, w.length, 6000.0).value,
                        ComputePace(w.usedPercent, w.resetsAt, w.length, 1.0).value;
            && !Early(p) && p.ratio.value >= OVER_RATIO && Condition(w, p, Over) == Some(false)
            && Condition(w, q, Over) == Some(true)
  {
    var w := Window("claude_five_hour", Some(150.0), Some(0.0), 18000.0);
    OveruseTests(w, 6000.0);
    OveruseTests(w, 1.0);
    ElapsedPart(0.0, 18000.0, 6000.0);
    ElapsedPart(0.0, 18000.0, 1.0);
  }
}
