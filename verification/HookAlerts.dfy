/** The alert machine `tick` of scripts/hook-load-watch.py. A tick compares the findings with what was last reported
    and sends a message when there is something new to say; the state file moves on only when it was delivered. */
module HookAlerts {

  /** The sorted lines of the findings; sorting makes it a bag of lines. */
  type Fingerprint = multiset<string>

  datatype State = Quiet | Alerted(fingerprint: Fingerprint, lastAlert: int, firstSeen: int)

  datatype Message = Alert(fingerprint: Fingerprint, at: int) | Recovered(firstSeen: int)

  /** What a tick meets: the findings, the clock, and whether a message and the state file get through. */
  datatype Tick = Tick(findings: Fingerprint, now: int, delivers: bool, writes: bool)

  predicate Due(s: State, t: Tick, cooldown: int) {
    s.Quiet? || s.fingerprint != t.findings || t.now - s.lastAlert >= cooldown
  }

  /** A message a tick has to send. */
  predicate Owes(s: State, t: Tick, cooldown: int) {
    if t.findings != multiset{} then Due(s, t, cooldown) else s.Alerted?
  }

  function Said(s: State, t: Tick): Message
    requires t.findings != multiset{} || s.Alerted?
  {
    if t.findings != multiset{} then Alert(t.findings, t.now) else Recovered(s.firstSeen)
  }

  function NextState(s: State, t: Tick): State {
    if t.findings == multiset{} then Quiet
    else Alerted(t.findings, t.now, if s.Alerted? then s.firstSeen else t.now)
  }

  /** The state file and the messages delivered so far. */
  datatype World = World(state: State, sent: seq<Message>)

  function Do(w: World, t: Tick, cooldown: int): World {
    if !Owes(w.state, t, cooldown) || !t.delivers then w
    else World(if t.writes then NextState(w.state, t) else w.state, w.sent + [Said(w.state, t)])
  }

  function ExitCode(w: World, t: Tick, cooldown: int): nat {
    if Owes(w.state, t, cooldown) && !t.delivers then 1 else 0
  }

  class Watcher {
    var state: State
    var sent: seq<Message>

    /** One tick; the result is the exit code. */
    method RunTick(t: Tick, cooldown: int) returns (rc: nat)
      modifies this
      ensures World(state, sent) == Do(old(World(state, sent)), t, cooldown)
      ensures rc == ExitCode(old(World(state, sent)), t, cooldown)
    {
      var s := state;
      rc := 0;
      if t.findings != multiset{} {
        var due := s.Quiet? || s.fingerprint != t.findings || t.now - s.lastAlert >= cooldown;
        if due {
          if t.delivers {
            sent := sent + [Alert(t.findings, t.now)];
            s := Alerted(t.findings, t.now, if s.Alerted? then s.firstSeen else t.now);
            if t.writes { state := s; }
          } else {
            rc := 1;
          }
        }
      } else if s.Alerted? {
        if t.delivers {
          sent := sent + [Recovered(s.firstSeen)];
          if t.writes { state := Quiet; }
        } else {
          rc := 1;
        }
      }
    }
  }

  const START: World := World(Quiet, [])

  function After(ticks: seq<Tick>, cooldown: int): World {
    if ticks == [] then START else Do(After(ticks[..|ticks| - 1], cooldown), ticks[|ticks| - 1], cooldown)
  }

  /** What a reader of the delivered messages knows. */
  function Known(sent: seq<Message>): State {
    if sent == [] then Quiet
    else
      var before, last := Known(sent[..|sent| - 1]), sent[|sent| - 1];
      if last.Recovered? then Quiet
      else Alerted(last.fingerprint, last.at, if before.Alerted? then before.firstSeen else last.at)
  }

  /** The tick delivers a message it owes and then cannot write the state down. */
  predicate Loses(w: World, t: Tick, cooldown: int) { Owes(w.state, t, cooldown) && t.delivers && !t.writes }

  predicate LosesAt(ticks: seq<Tick>, n: nat, cooldown: int)
    requires n < |ticks|
  {
    Loses(After(ticks[..n], cooldown), ticks[n], cooldown)
  }

  /** No tick of the run loses its write. */
  predicate NoneLost(ticks: seq<Tick>, cooldown: int) { forall n :: 0 <= n < |ticks| ==> !LosesAt(ticks, n, cooldown) }

  /** The state is what the reader knows. */
  predicate Agrees(w: World) { w.state == Known(w.sent) }

  /** Each message says something: an alert is new or a cooldown later than the same one before it, and a recovery
      closes the stretch of alerts that is open. */
  predicate WorthSaying(sent: seq<Message>, cooldown: int) {
    forall k :: 0 <= k < |sent| ==>
                  if sent[k].Recovered? then
                    k > 0 && sent[k - 1].Alert? && sent[k].firstSeen == Known(sent[..k]).firstSeen
                  else
                    k > 0 && sent[k - 1].Alert? && sent[k - 1].fingerprint == sent[k].fingerprint ==>
                      sent[k].at - sent[k - 1].at >= cooldown
  }

  lemma {:induction false} KnownAlerted(sent: seq<Message>)
    ensures Known(sent).Alerted? <==> sent != [] && sent[|sent| - 1].Alert?
    ensures Known(sent).Alerted? ==>
              var last := sent[|sent| - 1];
              Known(sent).fingerprint == last.fingerprint && Known(sent).lastAlert == last.at
  {}

  lemma SaidOn(sent: seq<Message>, m: Message, cooldown: int)
    requires WorthSaying(sent, cooldown)
    requires m.Recovered? ==> Known(sent).Alerted? && m.firstSeen == Known(sent).firstSeen
    requires m.Alert? && Known(sent).Alerted? && Known(sent).fingerprint == m.fingerprint ==>
               m.at - Known(sent).lastAlert >= cooldown
    ensures WorthSaying(sent + [m], cooldown)
    ensures (sent + [m])[..|sent|] == sent
  {
    KnownAlerted(sent);
    var all := sent + [m];
    forall k | 0 <= k < |all| ensures all[..k] == if k < |sent| then sent[..k] else sent {}
    forall k | 0 <= k < |sent| ensures all[k] == sent[k] {}
  }

  /** One tick, exactly: from a state that is what the reader knows, it stays so unless the tick loses its write. */
  lemma StepAgrees(w: World, t: Tick, cooldown: int)
    requires cooldown > 0 && Agrees(w)
    ensures Agrees(Do(w, t, cooldown)) <==> !Loses(w, t, cooldown)
  {
    if Owes(w.state, t, cooldown) && t.delivers {
      var m := Said(w.state, t);
      KnownAlerted(w.sent);
      assert (w.sent + [m])[..|w.sent|] == w.sent;
    }
  }

  lemma OneTickMore(ticks: seq<Tick>, cooldown: int)
    requires ticks != []
    ensures var before := ticks[..|ticks| - 1];
            && (NoneLost(ticks, cooldown) <==> NoneLost(before, cooldown) && !LosesAt(ticks, |before|, cooldown))
            && (forall n :: 0 <= n <= |before| ==> ticks[..n] == before[..n])
  {
    hide Loses, After;
    var before := ticks[..|ticks| - 1];
    forall n | 0 <= n <= |before| ensures ticks[..n] == before[..n] {}
    forall n | 0 <= n < |before| ensures LosesAt(ticks, n, cooldown) <==> LosesAt(before, n, cooldown) {
      assert ticks[..n] == before[..n] && ticks[n] == before[n];
    }
  }

  /** While no write is lost, and however many deliveries fail, the state is what the delivered messages say; so no
      message repeats the one before within the cooldown, and recoveries and alerts pair up. */
  lemma {:induction false} StateIsWhatWasSaid(ticks: seq<Tick>, cooldown: int)
    requires NoneLost(ticks, cooldown)
    ensures var w := After(ticks, cooldown);
            Agrees(w) && WorthSaying(w.sent, cooldown)
  {
    if ticks != [] {
      var before, t := ticks[..|ticks| - 1], ticks[|ticks| - 1];
      OneTickMore(ticks, cooldown);
      StateIsWhatWasSaid(before, cooldown);
      assert ticks[..|before|] == before;
      var w := After(before, cooldown);
      if Owes(w.state, t, cooldown) && t.delivers {
        var m := Said(w.state, t);
        KnownAlerted(w.sent);
        SaidOn(w.sent, m, cooldown);
      }
    }
  }

  lemma {:induction false} AgreeingIsNoneLost(ticks: seq<Tick>, cooldown: int)
    requires cooldown > 0 && forall n :: 0 <= n <= |ticks| ==> Agrees(After(ticks[..n], cooldown))
    ensures NoneLost(ticks, cooldown)
  {
    if ticks != [] {
      var before := ticks[..|ticks| - 1];
      OneTickMore(ticks, cooldown);
      AgreeingIsNoneLost(before, cooldown);
      assert ticks[..|ticks|] == ticks && ticks[..|before|] == before;
      assert Agrees(After(ticks[..|ticks|], cooldown)) && Agrees(After(ticks[..|before|], cooldown));
      StepAgrees(After(before, cooldown), ticks[|before|], cooldown);
    }
  }

  /** Over every run, exactly: the state is what the reader knows after every tick if and only if no tick delivered a
      message it owed and lost the write. */
  lemma {:induction false} StateAgreesExactly(ticks: seq<Tick>, cooldown: int)
    requires cooldown > 0
    ensures (forall n :: 0 <= n <= |ticks| ==> Agrees(After(ticks[..n], cooldown))) <==> NoneLost(ticks, cooldown)
  {
    if NoneLost(ticks, cooldown) {
      forall n: nat | n <= |ticks| ensures Agrees(After(ticks[..n], cooldown)) {
        NoneLostBefore(ticks, n, cooldown);
        StateIsWhatWasSaid(ticks[..n], cooldown);
      }
    }
    if forall n :: 0 <= n <= |ticks| ==> Agrees(After(ticks[..n], cooldown)) {
      AgreeingIsNoneLost(ticks, cooldown);
    }
  }

  lemma NoneLostBefore(ticks: seq<Tick>, n: nat, cooldown: int)
    requires NoneLost(ticks, cooldown) && n <= |ticks|
    ensures NoneLost(ticks[..n], cooldown)
  {
    hide Loses, After;
    forall k | 0 <= k < n ensures !LosesAt(ticks[..n], k, cooldown) {
      assert ticks[..n][..k] == ticks[..k] && !LosesAt(ticks, k, cooldown);
    }
  }

  // ---- the exit code ----

  /** What a reader of these messages knows is up to date: nothing open when nothing is found, and otherwise exactly
      these findings, told less than a cooldown ago. */
  predicate UpToDate(sent: seq<Message>, t: Tick, cooldown: int) {
    var known := Known(sent);
    if t.findings == multiset{} then known.Quiet?
    else known.Alerted? && known.fingerprint == t.findings && t.now - known.lastAlert < cooldown
  }

  /** After any run in which no write was lost before, a tick exits with 0 if and only if it leaves the reader up to
      date; when it exits with 1 it has changed nothing. */
  lemma {:induction false} ExitZeroIsUpToDate(ticks: seq<Tick>, t: Tick, cooldown: int)
    requires cooldown > 0 && NoneLost(ticks, cooldown)
    ensures var w, v := After(ticks, cooldown), After(ticks + [t], cooldown);
            && (ExitCode(w, t, cooldown) == 0 <==> UpToDate(v.sent, t, cooldown))
            && (ExitCode(w, t, cooldown) == 1 ==> v == w)
  {
    StateIsWhatWasSaid(ticks, cooldown);
    hide *;
    AfterOneMore(ticks, t, cooldown);
    StepUpToDate(After(ticks, cooldown), t, cooldown);
  }

  lemma AfterOneMore(ticks: seq<Tick>, t: Tick, cooldown: int)
    ensures After(ticks + [t], cooldown) == Do(After(ticks, cooldown), t, cooldown)
  {
    hide Do;
    assert (ticks + [t])[..|ticks|] == ticks;
  }

  lemma StepUpToDate(w: World, t: Tick, cooldown: int)
    requires cooldown > 0 && Agrees(w)
    ensures var v := Do(w, t, cooldown);
            && (ExitCode(w, t, cooldown) == 0 <==> UpToDate(v.sent, t, cooldown))
            && (ExitCode(w, t, cooldown) == 1 ==> v == w)
  {
    if Owes(w.state, t, cooldown) && t.delivers {
      KnownAlerted(w.sent + [Said(w.state, t)]);
    }
    hide Known;
  }

  // ---- a lost write ----

  /** After any lost write the next tick that finds the same and gets through says it again; inside the cooldown, and
      always for a recovery, that is a message not worth saying. */
  lemma {:induction false} LostWriteRepeats(w: World, t: Tick, u: Tick, cooldown: int)
    requires Loses(w, t, cooldown) && u.delivers && u.findings == t.findings && t.now <= u.now
    ensures var v := Do(Do(w, t, cooldown), u, cooldown);
            && v.sent == w.sent + [Said(w.state, t), Said(w.state, u)]
            && (u.now < t.now + cooldown || t.findings == multiset{} ==> !WorthSaying(v.sent, cooldown))
  {
    var a, b := Said(w.state, t), Said(w.state, u);
    assert w.sent + [a] + [b] == w.sent + [a, b];
    var k := |w.sent| + 1;
    assert (w.sent + [a, b])[k] == b && (w.sent + [a, b])[k - 1] == a;
  }

  /** The promise itself, exactly: the messages of a run are worth saying, and stay so whatever one delivered and
      written tick comes after any part of it, if and only if no tick of it loses its write. */
  lemma {:induction false} WorthSayingExactly(ticks: seq<Tick>, cooldown: int)
    requires cooldown > 0
    ensures NoneLost(ticks, cooldown)
       <==> (forall n: nat, u: Tick :: n <= |ticks| && u.delivers && u.writes ==>
                                         WorthSaying(After(ticks[..n] + [u], cooldown).sent, cooldown))
  {
    if NoneLost(ticks, cooldown) {
      forall n: nat, u: Tick | n <= |ticks| && u.delivers && u.writes
        ensures WorthSaying(After(ticks[..n] + [u], cooldown).sent, cooldown)
      {
        NoneLostBefore(ticks, n, cooldown);
        WrittenTick(ticks[..n], u, cooldown);
        StateIsWhatWasSaid(ticks[..n] + [u], cooldown);
      }
    } else {
      var n: nat :| n < |ticks| && LosesAt(ticks, n, cooldown);
      var u := ticks[n].(writes := true);
      var w := After(ticks[..n], cooldown);
      assert ticks[..n + 1] == ticks[..n] + [ticks[n]];
      AfterOneMore(ticks[..n], ticks[n], cooldown);
      AfterOneMore(ticks[..n + 1], u, cooldown);
      LostWriteRepeats(w, ticks[n], u, cooldown);
      assert n + 1 <= |ticks| && u.delivers && u.writes;
      assert !WorthSaying(After(ticks[..n + 1] + [u], cooldown).sent, cooldown);
    }
  }

  lemma WrittenTick(ticks: seq<Tick>, u: Tick, cooldown: int)
    requires NoneLost(ticks, cooldown) && u.writes
    ensures NoneLost(ticks + [u], cooldown)
  {
    hide After, Owes;
    var all := ticks + [u];
    assert all[..|all| - 1] == ticks;
    OneTickMore(all, cooldown);
  }

  /** One such run. */
  lemma {:induction false} LostWriteExample()
    ensures var a, b := Tick(multiset{"x"}, 0, true, false), Tick(multiset{"x"}, 1, true, true);
            After([a, b], 3600).sent == [Alert(multiset{"x"}, 0), Alert(multiset{"x"}, 1)]
  {
    var a, b := Tick(multiset{"x"}, 0, true, false), Tick(multiset{"x"}, 1, true, true);
    assert [a, b][..1] == [a] && [a][..0] == [];
    assert After([a], 3600) == World(Quiet, [Alert(multiset{"x"}, 0)]);
  }
}
