/** The field moves of scripts/kartya-es-ertesites.py: the card, its chain of parents and the event rows, all written
    in one transaction. */
module CardMove {
  import opened Options
  import opened Sequences

  datatype Card = Card(status: string, priority: string, title: string, assignee: Option<string>,
                       description: Option<string>, parent: Option<string>, dispatchedAt: Option<int>, updatedAt: int)

  type Cards = map<string, Card>

  const IN_PROGRESS: string := "in_progress"
  const MAX_DEPTH: nat := 16

  // ---- the chain of parents ----

  /** The parent of a card; a missing row, a null and an empty id all end the chain. */
  function Up(cards: Cards, id: string): Option<string> {
    if id in cards && cards[id].parent != Some("") then cards[id].parent else None
  }

  /** The ancestors the walk visits from `at` on, having visited those before. */
  function Climb(cards: Cards, at: Option<string>, seen: set<string>, depth: nat): seq<string>
    requires depth <= MAX_DEPTH
    decreases MAX_DEPTH - depth
  {
    if at.None? || at.value in seen || depth == MAX_DEPTH then []
    else [at.value] + Climb(cards, Up(cards, at.value), seen + {at.value}, depth + 1)
  }

  function Ancestors(cards: Cards, id: string): seq<string> { Climb(cards, Up(cards, id), {id}, 0) }

  function Touch(cards: Cards, ids: seq<string>, now: int): Cards {
    map c <- cards :: if c in ids then cards[c].(updatedAt := now) else cards[c]
  }

  // ---- the fields ----

  datatype Field = Status | Priority | Title | Assignee | Description | DueDate | ArchivedAt

  const AUDITED: seq<Field> := [DueDate, Assignee, Priority, ArchivedAt]

  /** The values a move asks for. */
  datatype Move = Move(status: Option<string>, priority: Option<string>, title: Option<string>,
                       assignee: Option<string>, description: Option<string>)

  /** A card's value of a field; the move reads neither the due date nor the archive time. */
  function Value(c: Card, f: Field): Option<string> {
    match f
    case Status => Some(c.status)
    case Priority => Some(c.priority)
    case Title => Some(c.title)
    case Assignee => c.assignee
    case Description => c.description
    case _ => None
  }

  function Wanted(m: Move, f: Field): Option<string> {
    match f
    case Status => m.status
    case Priority => m.priority
    case Title => m.title
    case Assignee => m.assignee
    case Description => m.description
    case _ => None
  }

  predicate Changes(c: Card, m: Move, f: Field) { Wanted(m, f).Some? && Wanted(m, f) != Value(c, f) }

  predicate ChangesAny(c: Card, m: Move) {
    Changes(c, m, Status) || Changes(c, m, Priority) || Changes(c, m, Title) || Changes(c, m, Assignee)
    || Changes(c, m, Description)
  }

  function Updated(c: Card, m: Move, now: int): Card {
    var status := if m.status.Some? then m.status.value else c.status;
    c.(status := status, priority := if m.priority.Some? then m.priority.value else c.priority,
       title := if m.title.Some? then m.title.value else c.title,
       assignee := if m.assignee.Some? then m.assignee else c.assignee,
       description := if m.description.Some? then m.description else c.description,
       dispatchedAt := if status != IN_PROGRESS then None else c.dispatchedAt, updatedAt := now)
  }

  // ---- the event rows ----

  /** A row of kanban_card_events (its field is the status) or of kanban_card_field_events. */
  datatype Row = Row(card: string, field: Field, was: Option<string>, now: Option<string>, actor: string, at: int)

  function StatusRows(id: string, c: Card, m: Move, actor: string, now: int): seq<Row> {
    if Changes(c, m, Status) then [Row(id, Status, Value(c, Status), m.status, actor, now)] else []
  }

  function FieldRows(id: string, c: Card, m: Move, actor: string, now: int, k: nat): seq<Row>
    requires k <= |AUDITED|
  {
    if k == 0 then []
    else
      var f := AUDITED[k - 1];
      FieldRows(id, c, m, actor, now, k - 1)
      + if Changes(c, m, f) then [Row(id, f, Value(c, f), Wanted(m, f), actor, now)] else []
  }

  /** The rows a field move owes: one for a new assignee and behind it one for a new priority. */
  ghost function RowsOwed(id: string, c: Card, m: Move, actor: string, now: int): seq<Row> {
    (if m.assignee.Some? && m.assignee != c.assignee
     then [Row(id, Assignee, c.assignee, m.assignee, actor, now)] else [])
    + (if m.priority.Some? && m.priority.value != c.priority
       then [Row(id, Priority, Some(c.priority), m.priority, actor, now)] else [])
  }

  lemma FieldRowsAre(id: string, c: Card, m: Move, actor: string, now: int)
    ensures FieldRows(id, c, m, actor, now, |AUDITED|) == RowsOwed(id, c, m, actor, now)
  {
    assert FieldRows(id, c, m, actor, now, 1) == [];
    var two := FieldRows(id, c, m, actor, now, 2);
    assert two == if m.assignee.Some? && m.assignee != c.assignee
                  then [Row(id, Assignee, c.assignee, m.assignee, actor, now)] else [];
    var three := FieldRows(id, c, m, actor, now, 3);
    assert three == two + if m.priority.Some? && m.priority.value != c.priority
                          then [Row(id, Priority, Some(c.priority), m.priority, actor, now)] else [];
    assert FieldRows(id, c, m, actor, now, 4) == three + [];
  }

  // ---- one move ----

  datatype State = State(cards: Cards, statusRows: seq<Row>, fieldRows: seq<Row>)

  datatype Call = Call(id: string, move: Move, actor: string, now: int)

  function Do(s: State, c: Call): State
    requires c.id in s.cards
  {
    var card := s.cards[c.id];
    if !ChangesAny(card, c.move) then s
    else
      var cards := s.cards[c.id := Updated(card, c.move, c.now)];
      State(Touch(cards, Ancestors(cards, c.id), c.now),
            s.statusRows + StatusRows(c.id, card, c.move, c.actor, c.now),
            s.fieldRows + FieldRows(c.id, card, c.move, c.actor, c.now, |AUDITED|))
  }

  class Board {
    var cards: Cards
    var statusRows: seq<Row>
    var fieldRows: seq<Row>

    ghost function Contents(): State
      reads this
    {
      State(cards, statusRows, fieldRows)
    }

    /** The walk up the parents: it stamps each ancestor and stops at a cycle or at the depth limit. */
    method StampAncestors(id: string, now: int) returns (stamped: seq<string>)
      modifies `cards
      ensures cards == Touch(old(cards), Ancestors(old(cards), id), now)
      ensures stamped == Existing(old(cards), Ancestors(old(cards), id))
    {
      hide Touch, Up, Climb, Existing;
      var seen, at, depth := {id}, Up(cards, id), 0;
      stamped := [];
      ghost var climbed: seq<string> := [];
      TouchNone(cards, now);
      ClimbStart(cards, id);
      while at.Some?
        invariant depth <= MAX_DEPTH
        invariant climbed + Climb(old(cards), at, seen, depth) == Ancestors(old(cards), id)
        invariant cards == Touch(old(cards), climbed, now)
        invariant stamped == Existing(old(cards), climbed)
        decreases MAX_DEPTH - depth
      {
        if at.value in seen { break; }
        if depth + 1 > MAX_DEPTH { break; }
        ClimbOn(old(cards), at.value, seen, depth, climbed);
        TouchOne(old(cards), climbed, at.value, now);
        depth := depth + 1;
        seen := seen + {at.value};
        climbed := climbed + [at.value];
        if at.value in cards {
          cards := cards[at.value := cards[at.value].(updatedAt := now)];
          stamped := stamped + [at.value];
        }
        UpStays(old(cards), climbed, now, at.value);
        at := Up(cards, at.value);
      }
      ClimbEnds(old(cards), at, seen, depth);
      assert climbed + [] == climbed;
    }

    /** The event rows of a move. */
    method AddRows(id: string, was: Card, move: Move, actor: string, now: int)
      modifies `statusRows, `fieldRows
      ensures statusRows == old(statusRows) + StatusRows(id, was, move, actor, now)
      ensures fieldRows == old(fieldRows) + FieldRows(id, was, move, actor, now, |AUDITED|)
      ensures statusRows == old(statusRows)
                            + if move.status.Some? && move.status.value != was.status
                              then [Row(id, Status, Some(was.status), move.status, actor, now)] else []
      ensures fieldRows == old(fieldRows) + RowsOwed(id, was, move, actor, now)
    {
      FieldRowsAre(id, was, move, actor, now);
      if Changes(was, move, Status) {
        statusRows := statusRows + [Row(id, Status, Some(was.status), move.status, actor, now)];
      }
      for k := 0 to |AUDITED|
        invariant fieldRows == old(fieldRows) + FieldRows(id, was, move, actor, now, k)
        invariant statusRows == old(statusRows) + StatusRows(id, was, move, actor, now)
      {
        var f := AUDITED[k];
        var wanted, value := Wanted(move, f), Value(was, f);
        if wanted.Some? && wanted != value {
          fieldRows := fieldRows + [Row(id, f, value, wanted, actor, now)];
        }
      }
    }

    /** A move of the fields of a card that exists. */
    method MoveFields(id: string, move: Move, actor: string, now: int)
      requires id in cards
      modifies this
      ensures Contents() == Do(old(Contents()), Call(id, move, actor, now))
    {
      var was := cards[id];
      if !ChangesAny(was, move) { return; }
      cards := cards[id := Updated(was, move, now)];
      var stamped := StampAncestors(id, now);
      AddRows(id, was, move, actor, now);
    }
  }

  /** The listed cards that exist. */
  function Existing(cards: Cards, ids: seq<string>): seq<string> {
    if ids == [] then []
    else
      var last := ids[|ids| - 1];
      Existing(cards, ids[..|ids| - 1]) + if last in cards then [last] else []
  }

  lemma TouchNone(cards: Cards, now: int)
    ensures Touch(cards, [], now) == cards && Existing(cards, []) == []
  {}

  lemma ClimbStart(cards: Cards, id: string)
    ensures [] + Climb(cards, Up(cards, id), {id}, 0) == Ancestors(cards, id)
  {
    hide Climb;
  }

  lemma ClimbOn(cards: Cards, x: string, seen: set<string>, depth: nat, climbed: seq<string>)
    requires x !in seen && depth < MAX_DEPTH
    ensures climbed + Climb(cards, Some(x), seen, depth)
         == climbed + [x] + Climb(cards, Up(cards, x), seen + {x}, depth + 1)
  {
    assert climbed + ([x] + Climb(cards, Up(cards, x), seen + {x}, depth + 1))
        == climbed + [x] + Climb(cards, Up(cards, x), seen + {x}, depth + 1);
  }

  lemma ClimbEnds(cards: Cards, at: Option<string>, seen: set<string>, depth: nat)
    requires depth <= MAX_DEPTH && (at.None? || at.value in seen || depth == MAX_DEPTH)
    ensures Climb(cards, at, seen, depth) == []
  {}

  lemma TouchOne(cards: Cards, ids: seq<string>, x: string, now: int)
    ensures var t := Touch(cards, ids, now);
            Touch(cards, ids + [x], now) == (if x in t then t[x := t[x].(updatedAt := now)] else t)
            && (x in t <==> x in cards)
            && Existing(cards, ids + [x]) == Existing(cards, ids) + if x in cards then [x] else []
  {
    assert (ids + [x])[..|ids|] == ids;
  }

  lemma UpStays(cards: Cards, ids: seq<string>, now: int, x: string)
    ensures Up(Touch(cards, ids, now), x) == Up(cards, x)
  {}

  // ---- which ancestors are stamped ----

  /** The k-th ancestor, the card itself being its 0th. */
  function Nth(cards: Cards, id: string, k: nat): Option<string> {
    if k == 0 then Some(id)
    else
      var below := Nth(cards, id, k - 1);
      if below.None? || below.value !in cards || cards[below.value].parent == Some("") then None
      else cards[below.value].parent
  }

  /** The walk's list: no repeats, each the parent of the one before, ended by the top, a cycle or the limit. */
  lemma {:induction false} ClimbIs(cards: Cards, at: Option<string>, seen: set<string>, depth: nat)
    requires depth <= MAX_DEPTH
    ensures var l := Climb(cards, at, seen, depth);
            && |l| <= MAX_DEPTH - depth
            && (l != [] ==> at == Some(l[0]))
            && (forall k :: 0 < k < |l| ==> Up(cards, l[k - 1]) == Some(l[k]))
            && (forall i :: 0 <= i < |l| ==> l[i] !in seen)
            && (forall i, j :: 0 <= i < j < |l| ==> l[i] != l[j])
            && (|l| < MAX_DEPTH - depth ==>
                  var next := if l == [] then at else Up(cards, l[|l| - 1]);
                  next.None? || next.value in seen || next.value in l)
    decreases MAX_DEPTH - depth
  {
    if at.Some? && at.value !in seen && depth < MAX_DEPTH {
      ClimbIs(cards, Up(cards, at.value), seen + {at.value}, depth + 1);
    }
  }

  lemma {:induction false} StampedAreAncestors(cards: Cards, id: string, k: nat)
    requires k < |Ancestors(cards, id)|
    ensures Nth(cards, id, k + 1) == Some(Ancestors(cards, id)[k])
  {
    ClimbIs(cards, Up(cards, id), {id}, 0);
    if k > 0 { StampedAreAncestors(cards, id, k - 1); }
  }

  /** Nothing is left out below the limit: when fewer than sixteen are visited, every proper ancestor is among them. */
  lemma {:induction false} AllWhenShallow(cards: Cards, id: string, k: nat)
    requires |Ancestors(cards, id)| < MAX_DEPTH && Nth(cards, id, k).Some?
    ensures Nth(cards, id, k).value == id || Nth(cards, id, k).value in Ancestors(cards, id)
  {
    if k > 0 {
      AllWhenShallow(cards, id, k - 1);
      var l := Ancestors(cards, id);
      ClimbIs(cards, Up(cards, id), {id}, 0);
      var below := Nth(cards, id, k - 1).value;
      if below != id {
        var i :| 0 <= i < |l| && l[i] == below;
        if i + 1 < |l| { assert l[i + 1] == Nth(cards, id, k).value; }
      }
    }
  }

  /** A move stamps the first sixteen distinct proper ancestors, and below that number all of them, whether or not the
      parents run in a circle. */
  lemma {:induction false} StampsTheAncestors(cards: Cards, id: string, x: string)
    ensures var l := Ancestors(cards, id);
            && |l| <= 16 && |Elements(l)| == |l| && id !in l
            && (forall k :: 0 <= k < |l| ==> Nth(cards, id, k + 1) == Some(l[k]))
            && (|l| < 16 ==> (x in l <==> x != id && exists k: nat :: Nth(cards, id, k) == Some(x)))
  {
    var l := Ancestors(cards, id);
    ClimbIs(cards, Up(cards, id), {id}, 0);
    Count(l);
    forall k | 0 <= k < |l| ensures Nth(cards, id, k + 1) == Some(l[k]) {
      StampedAreAncestors(cards, id, k);
    }
    if |l| < MAX_DEPTH && exists k: nat :: Nth(cards, id, k) == Some(x) {
      var k: nat :| Nth(cards, id, k) == Some(x);
      AllWhenShallow(cards, id, k);
    }
    if x in l {
      var k :| 0 <= k < |l| && l[k] == x;
      assert Nth(cards, id, k + 1) == Some(x);
    }
  }

  // ---- one move ----

  lemma {:induction false} ClimbSame(a: Cards, b: Cards, at: Option<string>, seen: set<string>, depth: nat)
    requires depth <= MAX_DEPTH && forall x :: Up(a, x) == Up(b, x)
    ensures Climb(a, at, seen, depth) == Climb(b, at, seen, depth)
    decreases MAX_DEPTH - depth
  {
    if at.Some? && at.value !in seen && depth < MAX_DEPTH {
      ClimbSame(a, b, Up(a, at.value), seen + {at.value}, depth + 1);
    }
  }

  /** A move that changes something gives its time to its card and to the stamped ancestors, and to no other card; on
      any card but its own it changes nothing else. */
  lemma {:induction false} MoveTouches(s: State, c: Call, x: string)
    requires c.id in s.cards && x in s.cards
    ensures var was, card := s.cards[x], Do(s, c).cards[x];
            var moved := ChangesAny(s.cards[c.id], c.move);
            && card.updatedAt
               == (if moved && (x == c.id || x in Ancestors(s.cards, c.id)) then c.now else was.updatedAt)
            && (x != c.id ==> card == was.(updatedAt := card.updatedAt))
    ensures Do(s, c).cards.Keys == s.cards.Keys
  {
    var cards := s.cards[c.id := Updated(s.cards[c.id], c.move, c.now)];
    forall y ensures Up(cards, y) == Up(s.cards, y) {}
    ClimbSame(cards, s.cards, Up(s.cards, c.id), {c.id}, 0);
  }

  /** The card itself holds what was asked, and the rest of what it had. */
  lemma MoveWrites(s: State, c: Call, f: Field)
    requires c.id in s.cards
    ensures c.id in Do(s, c).cards
    ensures var was, card := s.cards[c.id], Do(s, c).cards[c.id];
            && Value(card, f) == (if Changes(was, c.move, f) then Wanted(c.move, f) else Value(was, f))
            && card.parent == was.parent
            && card.dispatchedAt == (if ChangesAny(was, c.move) && card.status != IN_PROGRESS then None
                                     else was.dispatchedAt)
  {
    hide Ancestors;
  }

  /** What one move writes, field by field: nothing when it asks for nothing new; otherwise the values asked for, the
      stamp unless the card is then in progress, and a row for each new status, assignee and priority. */
  lemma {:induction false} MoveExactly(s: State, c: Call)
    requires c.id in s.cards
    ensures var was, m, t := s.cards[c.id], c.move, Do(s, c);
            var newStatus := m.status.Some? && m.status.value != was.status;
            var moved := newStatus || RowsOwed(c.id, was, m, c.actor, c.now) != []
                         || (m.title.Some? && m.title.value != was.title)
                         || (m.description.Some? && m.description != was.description);
            && c.id in t.cards && (!moved ==> t == s)
            && t.statusRows == s.statusRows
                 + (if newStatus then [Row(c.id, Status, Some(was.status), m.status, c.actor, c.now)] else [])
            && t.fieldRows == s.fieldRows + RowsOwed(c.id, was, m, c.actor, c.now)
            && (moved ==>
                  var card := t.cards[c.id];
                  && card.status == (if m.status.Some? then m.status.value else was.status)
                  && card.priority == (if m.priority.Some? then m.priority.value else was.priority)
                  && card.title == (if m.title.Some? then m.title.value else was.title)
                  && card.assignee == (if m.assignee.Some? then m.assignee else was.assignee)
                  && card.description == (if m.description.Some? then m.description else was.description)
                  && card.parent == was.parent && card.updatedAt == c.now
                  && card.dispatchedAt == (if card.status == "in_progress" then was.dispatchedAt else None))
  {
    FieldRowsAre(c.id, s.cards[c.id], c.move, c.actor, c.now);
    assert s.statusRows + [] == s.statusRows && s.fieldRows + [] == s.fieldRows;
    hide Ancestors, FieldRows;
  }

  // ---- runs ----

  predicate Possible(s: State, calls: seq<Call>) { forall k :: 0 <= k < |calls| ==> calls[k].id in s.cards }

  function After(s: State, calls: seq<Call>): State
    requires Possible(s, calls)
    decreases |calls|
  {
    if calls == [] then s else StepOn(s, calls); After(Do(s, calls[0]), calls[1..])
  }

  lemma StepOn(s: State, calls: seq<Call>)
    requires Possible(s, calls) && calls != []
    ensures calls[0].id in s.cards && Possible(Do(s, calls[0]), calls[1..])
    ensures Do(s, calls[0]).cards.Keys == s.cards.Keys
  {
    hide Ancestors, Touch, Updated;
    MoveTouches(s, calls[0], calls[0].id);
  }

  function RowsOf(s: State, f: Field): seq<Row> { if f == Status then s.statusRows else s.fieldRows }

  /** The value of a field after its rows, if each row starts at the value the one before ended at. */
  function Replay(rows: seq<Row>, card: string, f: Field, start: Option<string>): Option<Option<string>> {
    if rows == [] then Some(start)
    else
      var before, row := Replay(rows[..|rows| - 1], card, f, start), rows[|rows| - 1];
      if row.card != card || row.field != f then before else if before == Some(row.was) then Some(row.now) else None
  }

  predicate Replays(s: State, card: string, f: Field, start: Option<string>)
    requires card in s.cards
  {
    Replay(RowsOf(s, f), card, f, start) == Some(Value(s.cards[card], f))
  }

  lemma ReplayOne(rows: seq<Row>, row: Row, card: string, f: Field, start: Option<string>)
    ensures var before := Replay(rows, card, f, start);
            Replay(rows + [row], card, f, start)
            == if row.card != card || row.field != f then before
               else if before == Some(row.was) then Some(row.now) else None
    ensures rows + [] == rows
  {
    assert (rows + [row])[..|rows|] == rows;
  }

  lemma {:induction false} ReplayFieldRows(rows: seq<Row>, id: string, c: Card, m: Move, actor: string, now: int,
                                           k: nat, card: string, f: Field, start: Option<string>)
    requires k <= |AUDITED|
    requires id == card ==> Replay(rows, card, f, start) == Some(Value(c, f))
    ensures Replay(rows + FieldRows(id, c, m, actor, now, k), card, f, start)
         == if id == card && f in AUDITED[..k] && Changes(c, m, f) then Some(Wanted(m, f))
            else Replay(rows, card, f, start)
  {
    if k == 0 {
      assert rows + [] == rows;
    } else {
      ReplayFieldRows(rows, id, c, m, actor, now, k - 1, card, f, start);
      var g, before := AUDITED[k - 1], FieldRows(id, c, m, actor, now, k - 1);
      AuditedNext(k);
      FieldRowsOn(id, c, m, actor, now, k);
      hide *;
      if Changes(c, m, g) {
        var row := Row(id, g, Value(c, g), Wanted(m, g), actor, now);
        ReplayOne(rows + before, row, card, f, start);
        Regroup(rows, before, [row]);
      }
    }
  }

  lemma AuditedNext(k: nat)
    requires 0 < k <= |AUDITED|
    ensures AUDITED[k - 1] !in AUDITED[..k - 1]
    ensures forall f :: f in AUDITED[..k] <==> f in AUDITED[..k - 1] || f == AUDITED[k - 1]
  {
    assert AUDITED[..k] == AUDITED[..k - 1] + [AUDITED[k - 1]];
  }

  lemma FieldRowsOn(id: string, c: Card, m: Move, actor: string, now: int, k: nat)
    requires 0 < k <= |AUDITED|
    ensures var g, before := AUDITED[k - 1], FieldRows(id, c, m, actor, now, k - 1);
            FieldRows(id, c, m, actor, now, k)
            == if Changes(c, m, g) then before + [Row(id, g, Value(c, g), Wanted(m, g), actor, now)] else before
  {}

  lemma StepKeepsReplay(s: State, c: Call, card: string, f: Field, start: Option<string>)
    requires c.id in s.cards && card in s.cards && Replays(s, card, f, start)
    requires f == Status || f == Assignee || f == Priority
    ensures card in Do(s, c).cards && Replays(Do(s, c), card, f, start)
  {
    MoveTouches(s, c, card);
    MoveWrites(s, c, f);
    var was := s.cards[c.id];
    if ChangesAny(was, c.move) {
      if f == Status {
        var row := Row(c.id, Status, Value(was, Status), c.move.status, c.actor, c.now);
        ReplayOne(s.statusRows, row, card, f, start);
      } else {
        assert AUDITED[..|AUDITED|] == AUDITED && AUDITED[1] == Assignee && AUDITED[2] == Priority;
        ReplayFieldRows(s.fieldRows, c.id, was, c.move, c.actor, c.now, |AUDITED|, card, f, start);
      }
    }
  }

  /** Over any serial run, from a state whose rows replay to the cards' values, they still do: the rows of a card's
      status, of its assignee and of its priority chain from old to new value and end at the value the card has. */
  lemma {:induction false} RowsReplay(s: State, calls: seq<Call>, card: string, f: Field, start: Option<string>)
    requires Possible(s, calls) && card in s.cards && Replays(s, card, f, start)
    requires f == Status || f == Assignee || f == Priority
    ensures card in After(s, calls).cards && Replays(After(s, calls), card, f, start)
    decreases |calls|
  {
    if calls != [] {
      hide Replays, Do;
      StepOn(s, calls);
      StepKeepsReplay(s, calls[0], card, f, start);
      RowsReplay(Do(s, calls[0]), calls[1..], card, f, start);
    }
  }

  /** Some call of the run changes the card. */
  predicate Moved(s: State, calls: seq<Call>, card: string)
    requires Possible(s, calls)
    decreases |calls|
  {
    calls != []
    && (StepOn(s, calls);
        (calls[0].id == card && ChangesAny(s.cards[card], calls[0].move)) || Moved(Do(s, calls[0]), calls[1..], card))
  }

  predicate Clear(c: Card) { c.status != "in_progress" ==> c.dispatchedAt == None }

  /** After any run a card outside in_progress carries no dispatch stamp exactly if the run changed the card or it was
      so at the start. */
  lemma {:induction false} DispatchIsCleared(s: State, calls: seq<Call>, card: string)
    requires Possible(s, calls) && card in s.cards
    ensures card in After(s, calls).cards
    ensures Clear(After(s, calls).cards[card]) <==> Moved(s, calls, card) || Clear(s.cards[card])
    decreases |calls|
  {
    if calls != [] {
      hide Do, ChangesAny, Changes;
      StepOn(s, calls);
      StepClears(s, calls[0], card);
      DispatchIsCleared(Do(s, calls[0]), calls[1..], card);
    }
  }

  lemma StepClears(s: State, c: Call, card: string)
    requires c.id in s.cards && card in s.cards
    ensures card in Do(s, c).cards
    ensures Clear(Do(s, c).cards[card])
       <==> (c.id == card && ChangesAny(s.cards[card], c.move)) || Clear(s.cards[card])
  {
    MoveTouches(s, c, card);
    MoveWrites(s, c, Status);
  }
}
