/** The call log of scripts/seged-hivo.py and what is read from it: `calls_of`, `quota_problem`, the A/B number. */
module HelperLog {
  import opened Options

  datatype Status = Blocked | Started | Ok | Error | Timeout

  /** One line of the log: a row of a call (a call writes one or two), or a rating. */
  datatype Row =
    | Call(id: nat, day: int, caller: string, engine: string, status: Status, ab: bool)
    | Rating(call: nat, score: int)

  datatype Limits = Limits(perCaller: nat, perEngine: map<string, nat>)

  const AB_EVERY: nat := 5

  /** The last row of each call; ratings are no calls. */
  function LastRows(log: seq<Row>): (m: map<nat, Row>)
    ensures forall id :: id in m ==> m[id].Call? && m[id].id == id && m[id] in log
  {
    if log == [] then map[]
    else
      var m, r := LastRows(log[..|log| - 1]), log[|log| - 1];
      if r.Call? then m[r.id := r] else m
  }

  /** calls_of, filling a dictionary row by row. */
  method CallsOf(rows: seq<Row>) returns (last: map<nat, Row>)
    ensures last == LastRows(rows)
  {
    last := map[];
    for k := 0 to |rows|
      invariant last == LastRows(rows[..k])
    {
      assert rows[..k + 1][..k] == rows[..k];
      if rows[k].Call? {
        last := last[rows[k].id := rows[k]];
      }
    }
    assert rows[..|rows|] == rows;
  }

  /** The calls that went out. */
  function SentCalls(log: seq<Row>): set<nat> {
    set id | id in LastRows(log) && LastRows(log)[id].status != Blocked
  }

  function SentBy(log: seq<Row>, caller: string, day: int): set<nat> {
    set id | id in SentCalls(log) && LastRows(log)[id].caller == caller && LastRows(log)[id].day == day
  }

  function SentTo(log: seq<Row>, engine: string, day: int): set<nat> {
    set id | id in SentCalls(log) && LastRows(log)[id].engine == engine && LastRows(log)[id].day == day
  }

  function EngineLimit(lim: Limits, engine: string): nat {
    if engine in lim.perEngine then lim.perEngine[engine] else 0
  }

  datatype Reason = CallerQuota | EngineQuota

  function QuotaProblem(log: seq<Row>, today: int, caller: string, engine: string, lim: Limits): Option<Reason> {
    if |SentBy(log, caller, today)| >= lim.perCaller then Some(CallerQuota)
    else if |SentTo(log, engine, today)| >= EngineLimit(lim, engine) then Some(EngineQuota)
    else None
  }

  /** The rows written when a helper is launched, in the order of the launches. */
  function Launches(log: seq<Row>): seq<Row> {
    if log == [] then []
    else
      var r := log[|log| - 1];
      Launches(log[..|log| - 1]) + if r.Call? && r.status == Started then [r] else []
  }

  // ---- what one more row changes ----

  lemma LastRowsAppend(log: seq<Row>, r: Row)
    ensures LastRows(log + [r]) == if r.Call? then LastRows(log)[r.id := r] else LastRows(log)
    ensures Launches(log + [r]) == Launches(log) + if r.Call? && r.status == Started then [r] else []
  {
    assert (log + [r])[..|log|] == log;
  }

  /** Two logs that count the same. */
  ghost predicate SameCounts(l: seq<Row>, l': seq<Row>) {
    && SentCalls(l') == SentCalls(l) && Launches(l') == Launches(l)
    && (forall c, d :: SentBy(l', c, d) == SentBy(l, c, d))
    && (forall e, d :: SentTo(l', e, d) == SentTo(l, e, d))
  }

  /** A row changes no count when it is a rating, a blocked row of a call not seen before, or the final row of a call
      that went out. */
  predicate Idle(log: seq<Row>, r: Row) {
    if r.Rating? then true
    else if r.status == Blocked then r.id !in LastRows(log)
    else
      r.status != Started && r.id in SentCalls(log)
      && var q := LastRows(log)[r.id]; q.caller == r.caller && q.engine == r.engine && q.day == r.day
  }

  lemma IdleRowSent(log: seq<Row>, r: Row, x: string, d: int)
    requires Idle(log, r)
    ensures SentCalls(log + [r]) == SentCalls(log)
    ensures SentBy(log + [r], x, d) == SentBy(log, x, d) && SentTo(log + [r], x, d) == SentTo(log, x, d)
  {
    hide Launches, LastRows;
    LastRowsAppend(log, r);
    assert SentCalls(log + [r]) == SentCalls(log);
  }

  lemma {:induction false} IdleRow(log: seq<Row>, r: Row)
    requires Idle(log, r)
    ensures SameCounts(log, log + [r])
  {
    hide LastRows, SentCalls, SentBy, SentTo, Launches;
    LastRowsAppend(log, r);
    IdleRowSent(log, r, "", 0);
    forall x, d ensures SentBy(log + [r], x, d) == SentBy(log, x, d) && SentTo(log + [r], x, d) == SentTo(log, x, d) {
      IdleRowSent(log, r, x, d);
    }
    assert Launches(log) + [] == Launches(log);
  }

  function If(b: bool, id: nat): set<nat> { if b then {id} else {} }

  /** A launch counts once, for its caller and its engine, on the day it is stamped with. */
  lemma {:induction false} LaunchRow(log: seq<Row>, r: Row, x: string, d: int)
    requires r.Call? && r.status == Started && r.id !in LastRows(log)
    ensures SentCalls(log + [r]) == SentCalls(log) + {r.id}
    ensures SentBy(log + [r], x, d) == SentBy(log, x, d) + If(x == r.caller && d == r.day, r.id)
    ensures SentTo(log + [r], x, d) == SentTo(log, x, d) + If(x == r.engine && d == r.day, r.id)
  {
    hide Launches, LastRows;
    LastRowsAppend(log, r);
    assert SentCalls(log + [r]) == SentCalls(log) + {r.id};
    assert SentBy(log + [r], x, d) == SentBy(log, x, d) + If(x == r.caller && d == r.day, r.id);
    assert SentTo(log + [r], x, d) == SentTo(log, x, d) + If(x == r.engine && d == r.day, r.id);
  }
}
